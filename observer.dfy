/**
 * Hero::Observer: the ordered, name-deduplicated step list of one formula
 * and the callback that runs it.
 */
module Steps {
  import opened Support

  /** One entry of the list: `[name, step]`. */
  datatype Step = Step(name: Name, callable: Callable)

  /** What `update` records: a log line (written before a step is called when
      a logger is set) and the call of a step itself. The log line carries the
      world state at that moment, since it prints the context and options as
      they are then. */
  datatype Event<W> =
    | Log(formula: Name, step: Name, context: Value, options: Value, state: W)
    | Call(step: Name, callable: Callable, context: Value, options: Value)

  datatype RunResult<W> = RunResult(trace: seq<Event<W>>, outcome: Outcome, state: W)

  // ---------------------------------------------------------------------------
  // The list operations

  function Names(steps: seq<Step>): (r: seq<Name>)
    ensures |r| == |steps|
    ensures forall i :: 0 <= i < |steps| ==> r[i] == steps[i].name
  {
    seq(|steps|, i requires 0 <= i < |steps| => steps[i].name)
  }

  /** At most one entry per name. */
  ghost predicate UniqueNames(steps: seq<Step>)
  {
    forall i, j :: 0 <= i < j < |steps| ==> steps[i].name != steps[j].name
  }

  /** `steps.delete_if { |s| s.first == name }`: the entries not named `name`,
      in their order. */
  function Without(steps: seq<Step>, name: Name): (r: seq<Step>)
    ensures |r| <= |steps|
    ensures forall i :: 0 <= i < |r| ==> r[i].name != name
  {
    if steps == [] then []
    else
      var last := steps[|steps| - 1];
      Without(steps[..|steps| - 1], name) + (if last.name == name then [] else [last])
  }

  /** `step ||= block if block_given?`: the block is used only when no step
      (nil) was passed. */
  function Resolve(step: Callable, block: Option<Callable>): (r: Callable)
    ensures step.Proc? ==> r == step
    ensures block.None? ==> r == step
    ensures step.NilStep? && block.Some? ==> r == block.value
  {
    if block.Some? && step.NilStep? then block.value else step
  }

  /** The list after `add_step(name, callable)`: the old entry for `name`, if
      any, is removed and the new one is appended. */
  function Added(steps: seq<Step>, name: Name, callable: Callable): (r: seq<Step>)
    ensures 0 < |r| <= |steps| + 1 && r[|r| - 1] == Step(name, callable)
  {
    Without(steps, name) + [Step(name, callable)]
  }

  /** A series of `add_step` calls, first to last. */
  function AddAll(steps: seq<Step>, adds: seq<Step>): (r: seq<Step>)
    ensures |r| <= |steps| + |adds|
    ensures adds != [] ==> |r| > 0 && r[|r| - 1] == adds[|adds| - 1]
    decreases |adds|
  {
    if adds == [] then steps
    else AddAll(Added(steps, adds[0].name, adds[0].callable), adds[1..])
  }

  // ---------------------------------------------------------------------------
  // Properties of the list operations

  /** A nonempty list is its front followed by its last entry. */
  lemma LastSplit(steps: seq<Step>)
    requires steps != []
    ensures steps == steps[..|steps| - 1] + [steps[|steps| - 1]]
  {
  }

  /** An entry survives `delete_if` exactly when it was there and is not named `name`. */
  lemma {:induction false} WithoutMembers(steps: seq<Step>, name: Name)
    ensures forall x :: x in Without(steps, name) <==> x in steps && x.name != name
  {
    if steps != [] {
      var init := steps[..|steps| - 1];
      WithoutMembers(init, name);
      LastSplit(steps);
    }
  }

  /** Deleting a name that is absent changes nothing. */
  lemma {:induction false} WithoutAbsent(steps: seq<Step>, name: Name)
    requires name !in Names(steps)
    ensures Without(steps, name) == steps
  {
    if steps != [] {
      var init := steps[..|steps| - 1];
      assert name !in Names(init) by {
        forall i | 0 <= i < |init| ensures Names(init)[i] != name {
          assert init[i] == steps[i] && Names(steps)[i] == steps[i].name;
        }
      }
      assert Names(steps)[|steps| - 1] != name;
      WithoutAbsent(init, name);
      LastSplit(steps);
    }
  }

  /** The names of a nonempty list are those of its front and its last name;
      on a unique list, the front is unique and does not hold the last name. */
  lemma FrontNames(steps: seq<Step>)
    requires steps != []
    ensures var front := steps[..|steps| - 1];
      && (forall n :: n in Names(steps) <==> n in Names(front) || n == steps[|steps| - 1].name)
      && (UniqueNames(steps) ==> UniqueNames(front) && steps[|steps| - 1].name !in Names(front))
  {
    var front := steps[..|steps| - 1];
    forall n | n in Names(steps) ensures n in Names(front) || n == steps[|steps| - 1].name {
      var i :| 0 <= i < |steps| && Names(steps)[i] == n;
      if i < |front| {
        assert Names(front)[i] == n;
      }
    }
    forall n | n in Names(front) ensures n in Names(steps) {
      var i :| 0 <= i < |front| && Names(front)[i] == n;
      assert Names(steps)[i] == n;
    }
    assert Names(steps)[|steps| - 1] == steps[|steps| - 1].name;
    if UniqueNames(steps) {
      forall i | 0 <= i < |front| ensures Names(front)[i] != steps[|steps| - 1].name {
        assert front[i] == steps[i];
      }
    }
  }

  /** Appending an entry whose name is new keeps the names unique. */
  lemma UniqueSnoc(steps: seq<Step>, x: Step)
    requires UniqueNames(steps)
    requires forall y :: y in steps ==> y.name != x.name
    ensures UniqueNames(steps + [x])
  {
    var r := steps + [x];
    forall i, j | 0 <= i < j < |r| ensures r[i].name != r[j].name {
      assert r[i] == steps[i];
      if j < |steps| {
        assert r[j] == steps[j];
      }
    }
  }

  /** On a list with unique names, `delete_if` removes one entry when the name
      is present and none otherwise, and the names stay unique. */
  lemma {:induction false} WithoutUnique(steps: seq<Step>, name: Name)
    requires UniqueNames(steps)
    ensures UniqueNames(Without(steps, name))
    ensures |Without(steps, name)| == |steps| - (if name in Names(steps) then 1 else 0)
  {
    if steps != [] {
      var front := steps[..|steps| - 1];
      var last := steps[|steps| - 1];
      FrontNames(steps);
      WithoutUnique(front, name);
      var w := Without(front, name);
      if last.name != name {
        WithoutMembers(front, name);
        forall y | y in w ensures y.name != last.name {
          var i :| 0 <= i < |front| && front[i] == y;
          assert Names(front)[i] == y.name;
        }
        UniqueSnoc(w, last);
      }
    }
  }

  /** `add_step(name, c)`: the new entry is last, no other entry has its name,
      the entries with other names keep their relative order, the names stay
      unique, and the length grows by one exactly when the name is new. */
  lemma AddedSpec(steps: seq<Step>, name: Name, callable: Callable)
    ensures var r := Added(steps, name, callable);
      && |r| > 0 && r[|r| - 1] == Step(name, callable)
      && (forall i :: 0 <= i < |r| - 1 ==> r[i].name != name)
      && Without(r, name) == Without(steps, name)
      && (UniqueNames(steps) ==> UniqueNames(r) && |r| == |steps| + (if name in Names(steps) then 0 else 1))
  {
    var r := Added(steps, name, callable);
    var w := Without(steps, name);
    WithoutMembers(steps, name);
    assert r[..|r| - 1] == w;
    forall i | 0 <= i < |r| - 1 ensures r[i].name != name {
      assert r[i] == w[i] && w[i] in w;
    }
    assert name !in Names(w) by {
      forall i | 0 <= i < |w| ensures w[i].name != name {
        assert w[i] in w;
      }
    }
    WithoutAbsent(w, name);
    assert r[..|r| - 1] == w;
    if UniqueNames(steps) {
      WithoutUnique(steps, name);
    }
  }

  /** Names stay unique across any series of `add_step` calls. */
  lemma {:induction false} AddAllUnique(steps: seq<Step>, adds: seq<Step>)
    requires UniqueNames(steps)
    ensures UniqueNames(AddAll(steps, adds))
    decreases |adds|
  {
    if adds != [] {
      AddedSpec(steps, adds[0].name, adds[0].callable);
      AddAllUnique(Added(steps, adds[0].name, adds[0].callable), adds[1..]);
    }
  }

  /** Adding a step whose name is new appends it. */
  lemma FreshAdded(steps: seq<Step>, a: Step)
    requires a.name !in Names(steps)
    ensures Added(steps, a.name, a.callable) == steps + [a]
  {
    WithoutAbsent(steps, a.name);
  }

  /** The rest of a list of additions with unique, new names is again such a
      list for the list with the first addition appended. */
  lemma FreshRest(steps: seq<Step>, adds: seq<Step>)
    requires adds != [] && UniqueNames(adds)
    requires forall i :: 0 <= i < |adds| ==> adds[i].name !in Names(steps)
    ensures UniqueNames(adds[1..])
    ensures forall i :: 0 <= i < |adds[1..]| ==> adds[1..][i].name !in Names(steps + [adds[0]])
  {
    var next := steps + [adds[0]];
    assert next[..|next| - 1] == steps;
    FrontNames(next);
    forall i | 0 <= i < |adds| - 1 ensures adds[1..][i].name !in Names(next) {
      assert adds[1..][i] == adds[i + 1];
    }
    forall i, j | 0 <= i < j < |adds| - 1 ensures adds[1..][i].name != adds[1..][j].name {
      assert adds[1..][i] == adds[i + 1] && adds[1..][j] == adds[j + 1];
    }
  }

  lemma ConsAppend(steps: seq<Step>, adds: seq<Step>)
    requires adds != []
    ensures (steps + [adds[0]]) + adds[1..] == steps + adds
  {
    assert adds == [adds[0]] + adds[1..];
  }

  /** Adding steps whose names are all new yields them in insertion order,
      first added first: the list is the old list followed by the additions. */
  lemma {:induction false} AddAllFresh(steps: seq<Step>, adds: seq<Step>)
    requires UniqueNames(adds)
    requires forall i :: 0 <= i < |adds| ==> adds[i].name !in Names(steps)
    ensures AddAll(steps, adds) == steps + adds
    decreases |adds|
  {
    if adds != [] {
      var a := adds[0];
      FreshAdded(steps, a);
      FreshRest(steps, adds);
      AddAllFresh(steps + [a], adds[1..]);
      ConsAppend(steps, adds);
    }
  }

  /** Re-adding the name at the head of a list with unique names moves that
      entry to the end, with the new callable. */
  lemma ReAddFirst(steps: seq<Step>, callable: Callable)
    requires steps != [] && UniqueNames(steps)
    ensures Added(steps, steps[0].name, callable) == steps[1..] + [Step(steps[0].name, callable)]
  {
    var name := steps[0].name;
    var rest := steps[1..];
    HeadAbsentFromTail(steps);
    WithoutAbsent(rest, name);
    WithoutOfHead(steps[0], rest, name);
    assert steps == [steps[0]] + rest;
  }

  /** On a list with unique names, the head's name is not in the tail. */
  lemma HeadAbsentFromTail(steps: seq<Step>)
    requires steps != [] && UniqueNames(steps)
    ensures steps[0].name !in Names(steps[1..])
  {
    var rest := steps[1..];
    forall i | 0 <= i < |rest| ensures Names(rest)[i] != steps[0].name {
      assert rest[i] == steps[i + 1];
    }
  }

  /** The example of the tests: adding one, two, three, four and then one
      again leaves the order two, three, four, one. */
  lemma ReAddMovesToEnd(s1: Callable, s2: Callable, s3: Callable, s4: Callable, s5: Callable)
    ensures Names(AddAll([], [Step(Sym("one"), s1), Step(Sym("two"), s2), Step(Sym("three"), s3),
                              Step(Sym("four"), s4), Step(Sym("one"), s5)]))
         == [Sym("two"), Sym("three"), Sym("four"), Sym("one")]
  {
    var one := Sym("one");
    var four := [Step(one, s1), Step(Sym("two"), s2), Step(Sym("three"), s3), Step(Sym("four"), s4)];
    var again := Step(one, s5);
    FourFresh(s1, s2, s3, s4);
    AddAllSnoc([], four, again);
    ReAddFirst(four, s5);
    assert [Step(one, s1), Step(Sym("two"), s2), Step(Sym("three"), s3), Step(Sym("four"), s4), again]
        == four + [again];
    assert Names(four[1..] + [again]) == [Sym("two"), Sym("three"), Sym("four"), one];
  }

  /** Steps one to four, all new, are kept in the order they were added. */
  lemma FourFresh(s1: Callable, s2: Callable, s3: Callable, s4: Callable)
    ensures var four := [Step(Sym("one"), s1), Step(Sym("two"), s2), Step(Sym("three"), s3), Step(Sym("four"), s4)];
      AddAll([], four) == four && UniqueNames(four)
  {
    var four := [Step(Sym("one"), s1), Step(Sym("two"), s2), Step(Sym("three"), s3), Step(Sym("four"), s4)];
    assert Names(four) == [Sym("one"), Sym("two"), Sym("three"), Sym("four")];
    AddAllFresh([], four);
    assert [] + four == four;
  }

  lemma {:induction false} AddAllSnoc(steps: seq<Step>, adds: seq<Step>, a: Step)
    ensures AddAll(steps, adds + [a]) == Added(AddAll(steps, adds), a.name, a.callable)
    decreases |adds|
  {
    if adds == [] {
      assert [a][1..] == [];
    } else {
      assert (adds + [a])[1..] == adds[1..] + [a];
      AddAllSnoc(Added(steps, adds[0].name, adds[0].callable), adds[1..], a);
    }
  }

  /** The entry at the head is dropped when it carries the deleted name. */
  lemma {:induction false} WithoutOfHead(x: Step, rest: seq<Step>, name: Name)
    ensures Without([x] + rest, name) == (if x.name == name then [] else [x]) + Without(rest, name)
    decreases |rest|
  {
    if rest != [] {
      var init := rest[..|rest| - 1];
      assert ([x] + rest)[..|rest|] == [x] + init;
      WithoutOfHead(x, init, name);
    } else {
      assert ([x] + rest)[..0] == [];
    }
  }

  // ---------------------------------------------------------------------------
  // What `update` does

  function Prefixed<W>(t: seq<Event<W>>, r: RunResult<W>): RunResult<W>
  {
    RunResult(t + r.trace, r.outcome, r.state)
  }

  /** The events of one step before its outcome is known: the log line when a
      logger is set, then the call. */
  function Before<W>(formula: Name, s: Step, logging: bool, context: Value, options: Value, w: W): seq<Event<W>>
  {
    (if logging then [Log(formula, s.name, context, options, w)] else []) + [Call(s.name, s.callable, context, options)]
  }

  /** `update(context, options)`: every step in list order with the same two
      arguments; the first exception stops the loop and escapes. */
  function Run<W>(formula: Name, steps: seq<Step>, logging: bool, beh: Behaviour<W>,
                  context: Value, options: Value, w: W): (r: RunResult<W>)
    ensures r.trace == [] <==> steps == []
    ensures steps == [] ==> r.outcome == Completed && r.state == w
    decreases |steps|
  {
    if steps == [] then RunResult([], Completed, w)
    else
      var before := Before(formula, steps[0], logging, context, options, w);
      match Invoke(beh, steps[0].callable, context, options, w)
      case Threw(f, w1) => RunResult(before, Failed(f), w1)
      case Returned(w1) => Prefixed(before, Run(formula, steps[1..], logging, beh, context, options, w1))
  }

  /** The calls in a trace, in order. */
  function Calls<W>(t: seq<Event<W>>): seq<Event<W>>
  {
    if t == [] then [] else (if t[0].Call? then [t[0]] else []) + Calls(t[1..])
  }

  /** Each of the given steps called once, in order, with the given arguments. */
  function Invocations<W>(steps: seq<Step>, context: Value, options: Value): seq<Event<W>>
  {
    if steps == [] then []
    else [Call(steps[0].name, steps[0].callable, context, options)] + Invocations(steps[1..], context, options)
  }

  lemma PrefixedPrefixed<W>(a: seq<Event<W>>, b: seq<Event<W>>, r: RunResult<W>)
    ensures Prefixed(a + b, r) == Prefixed(a, Prefixed(b, r))
  {
    assert (a + b) + r.trace == a + (b + r.trace);
  }

  /** One step of `Run` at position `i` of the list. */
  lemma RunAt<W>(formula: Name, steps: seq<Step>, i: nat, logging: bool, beh: Behaviour<W>,
                 context: Value, options: Value, w: W)
    requires i < |steps|
    ensures var b := Before(formula, steps[i], logging, context, options, w);
      var r := Invoke(beh, steps[i].callable, context, options, w);
      Run(formula, steps[i..], logging, beh, context, options, w)
        == if r.Threw? then RunResult(b, Failed(r.fault), r.state)
           else Prefixed(b, Run(formula, steps[i + 1..], logging, beh, context, options, r.state))
  {
    assert steps[i..][0] == steps[i] && steps[i..][1..] == steps[i + 1..];
  }

  /** The loop of `update` keeps its invariant across one step: the events
      recorded so far, then the rest of the run, make up the whole run. */
  lemma RunStep<W>(formula: Name, steps: seq<Step>, i: nat, logging: bool, beh: Behaviour<W>,
                   context: Value, options: Value, w: W, done: seq<Event<W>>, trace: seq<Event<W>>,
                   total: RunResult<W>)
    requires i < |steps|
    requires Prefixed(done, Run(formula, steps[i..], logging, beh, context, options, w)) == total
    requires trace == (if logging then done + [Log(formula, steps[i].name, context, options, w)] else done)
                      + [Call(steps[i].name, steps[i].callable, context, options)]
    ensures var r := Invoke(beh, steps[i].callable, context, options, w);
      if r.Threw? then RunResult(trace, Failed(r.fault), r.state) == total
      else Prefixed(trace, Run(formula, steps[i + 1..], logging, beh, context, options, r.state)) == total
  {
    var b := Before(formula, steps[i], logging, context, options, w);
    assert trace == done + b;
    RunAt(formula, steps, i, logging, beh, context, options, w);
    var r := Invoke(beh, steps[i].callable, context, options, w);
    PrefixedPrefixed(done, b, Run(formula, steps[i + 1..], logging, beh, context, options, r.state));
  }

  lemma {:induction false} CallsAppend<W>(a: seq<Event<W>>, b: seq<Event<W>>)
    ensures Calls(a + b) == Calls(a) + Calls(b)
  {
    if a == [] {
      assert a + b == b;
    } else {
      assert (a + b)[0] == a[0];
      assert (a + b)[1..] == a[1..] + b;
      CallsAppend(a[1..], b);
    }
  }

  lemma CallsBefore<W>(formula: Name, s: Step, logging: bool, context: Value, options: Value, w: W)
    ensures Calls(Before(formula, s, logging, context, options, w)) == [Call(s.name, s.callable, context, options)]
  {
    var call: Event<W> := Call(s.name, s.callable, context, options);
    var before := Before(formula, s, logging, context, options, w);
    assert Calls([call]) == [call] by {
      assert [call][1..] == [];
    }
    if logging {
      assert before[1..] == [call];
    } else {
      assert before == [call];
    }
  }

  lemma InvocationsCons<W>(steps: seq<Step>, k: nat, context: Value, options: Value)
    requires k < |steps|
    ensures Invocations<W>(steps[..k + 1], context, options)
         == [Call(steps[0].name, steps[0].callable, context, options)] + Invocations(steps[1..][..k], context, options)
  {
    assert steps[..k + 1][1..] == steps[1..][..k];
    assert steps[..k + 1][0] == steps[0];
  }

  /** `Run` on a nonempty list: the first step's events, then either its
      exception or the run of the rest. */
  lemma RunCons<W>(formula: Name, steps: seq<Step>, logging: bool, beh: Behaviour<W>,
                   context: Value, options: Value, w: W)
    requires steps != []
    ensures var b := Before(formula, steps[0], logging, context, options, w);
      var r := Invoke(beh, steps[0].callable, context, options, w);
      Run(formula, steps, logging, beh, context, options, w)
        == if r.Threw? then RunResult(b, Failed(r.fault), r.state)
           else Prefixed(b, Run(formula, steps[1..], logging, beh, context, options, r.state))
  {
  }

  /** `update` calls a prefix of the list, in order, each step once, each with
      the same context and options, and it calls all of them when it completes. */
  lemma {:induction false} RunInvokesInOrder<W>(formula: Name, steps: seq<Step>, logging: bool, beh: Behaviour<W>,
                                                context: Value, options: Value, w: W)
    ensures var r := Run(formula, steps, logging, beh, context, options, w);
      var k := |Calls(r.trace)|;
      && k <= |steps|
      && Calls(r.trace) == Invocations(steps[..k], context, options)
      && (r.outcome.Completed? ==> k == |steps|)
    decreases |steps|
  {
    if steps != [] {
      var s := steps[0];
      var before := Before(formula, s, logging, context, options, w);
      var res := Invoke(beh, s.callable, context, options, w);
      RunCons(formula, steps, logging, beh, context, options, w);
      CallsBefore(formula, s, logging, context, options, w);
      if res.Threw? {
        InvocationsCons<W>(steps, 0, context, options);
        assert steps[1..][..0] == [];
      } else {
        var rest := Run(formula, steps[1..], logging, beh, context, options, res.state);
        RunInvokesInOrder(formula, steps[1..], logging, beh, context, options, res.state);
        CallsAppend(before, rest.trace);
        InvocationsCons<W>(steps, |Calls(rest.trace)|, context, options);
      }
    }
  }

  /** A step that raises ends the run: its call is the last event, so no later
      step is called and no later line is logged. */
  lemma {:induction false} RunStopsAtFailure<W>(formula: Name, steps: seq<Step>, logging: bool, beh: Behaviour<W>,
                                                context: Value, options: Value, w: W)
    ensures var r := Run(formula, steps, logging, beh, context, options, w);
      var k := |Calls(r.trace)|;
      r.outcome.Failed? ==>
        && 0 < k <= |steps| && 0 < |r.trace|
        && r.trace[|r.trace| - 1] == Call(steps[k - 1].name, steps[k - 1].callable, context, options)
        && (exists w0 {:trigger Invoke(beh, steps[k - 1].callable, context, options, w0)} ::
              Invoke(beh, steps[k - 1].callable, context, options, w0) == Threw(r.outcome.fault, r.state))
    decreases |steps|
  {
    if steps != [] {
      var s := steps[0];
      var before := Before(formula, s, logging, context, options, w);
      var res := Invoke(beh, s.callable, context, options, w);
      RunCons(formula, steps, logging, beh, context, options, w);
      CallsBefore(formula, s, logging, context, options, w);
      if res.Threw? {
        assert Invoke(beh, steps[0].callable, context, options, w) == res;
      } else {
        var rest := Run(formula, steps[1..], logging, beh, context, options, res.state);
        RunStopsAtFailure(formula, steps[1..], logging, beh, context, options, res.state);
        CallsAppend(before, rest.trace);
        if rest.outcome.Failed? {
          var k := |Calls(rest.trace)|;
          assert steps[1..][k - 1] == steps[k];
        }
      }
    }
  }

  /** Events `2 i` and `2 i + 1` of a trace are the log line and the call of step `s`. */
  ghost predicate LoggedCall<W>(t: seq<Event<W>>, i: nat, formula: Name, s: Step, context: Value, options: Value)
  {
    && 2 * i + 1 < |t|
    && t[2 * i].Log?
    && t[2 * i].formula == formula && t[2 * i].step == s.name
    && t[2 * i].context == context && t[2 * i].options == options
    && t[2 * i + 1] == Call(s.name, s.callable, context, options)
  }

  /** A trace in which each of the first `k` calls is preceded by its log line. */
  ghost predicate LogsThenCalls<W>(t: seq<Event<W>>, formula: Name, steps: seq<Step>, context: Value, options: Value)
  {
    var k := |Calls(t)|;
    && k <= |steps|
    && |t| == 2 * k
    && forall i :: 0 <= i < k ==> LoggedCall(t, i, formula, steps[i], context, options)
  }

  /** Putting the log line and call of the first step in front of a trace
      that logs the rest keeps the log-then-call shape. */
  lemma LogsThenCallsCons<W>(t: seq<Event<W>>, formula: Name, steps: seq<Step>, context: Value, options: Value,
                             w: W, rest: seq<Event<W>>)
    requires steps != []
    requires t == Before(formula, steps[0], true, context, options, w) + rest
    requires LogsThenCalls(rest, formula, steps[1..], context, options)
    ensures LogsThenCalls(t, formula, steps, context, options)
  {
    var before := Before(formula, steps[0], true, context, options, w);
    CallsBefore(formula, steps[0], true, context, options, w);
    CallsAppend(before, rest);
    forall i | 0 <= i < |Calls(t)| ensures LoggedCall(t, i, formula, steps[i], context, options) {
      if i == 0 {
        assert t[0] == before[0] && t[1] == before[1];
      } else {
        assert steps[i] == steps[1..][i - 1];
        assert t[2 * i] == rest[2 * (i - 1)];
        assert t[2 * i + 1] == rest[2 * (i - 1) + 1];
      }
    }
  }

  /** With a logger set, each called step is preceded by exactly one log line
      naming this formula and that step: log, call, log, call, ... */
  lemma {:induction false} RunLogsBeforeEachCall<W>(formula: Name, steps: seq<Step>, beh: Behaviour<W>,
                                                    context: Value, options: Value, w: W)
    ensures LogsThenCalls(Run(formula, steps, true, beh, context, options, w).trace, formula, steps, context, options)
    decreases |steps|
  {
    var t := Run(formula, steps, true, beh, context, options, w).trace;
    if steps == [] {
      assert Calls(t) == [];
    } else {
      var s := steps[0];
      var res := Invoke(beh, s.callable, context, options, w);
      RunCons(formula, steps, true, beh, context, options, w);
      if res.Threw? {
        assert t == Before(formula, s, true, context, options, w) + [];
        assert LogsThenCalls<W>([], formula, steps[1..], context, options) by {
          assert Calls<W>([]) == [];
        }
        LogsThenCallsCons(t, formula, steps, context, options, w, []);
      } else {
        var rest := Run(formula, steps[1..], true, beh, context, options, res.state);
        RunLogsBeforeEachCall(formula, steps[1..], beh, context, options, res.state);
        LogsThenCallsCons(t, formula, steps, context, options, w, rest.trace);
      }
    }
  }

  /** Without a logger, `update` records nothing but the calls. */
  lemma {:induction false} RunUnloggedOnlyCalls<W>(formula: Name, steps: seq<Step>, beh: Behaviour<W>,
                                                   context: Value, options: Value, w: W)
    ensures forall e :: e in Run(formula, steps, false, beh, context, options, w).trace ==> e.Call?
    decreases |steps|
  {
    if steps != [] {
      match Invoke(beh, steps[0].callable, context, options, w)
      case Threw(f, w1) =>
      case Returned(w1) => {
        RunUnloggedOnlyCalls(formula, steps[1..], beh, context, options, w1);
        var rest := Run(formula, steps[1..], false, beh, context, options, w1);
        var before := Before(formula, steps[0], false, context, options, w);
        var r := Prefixed(before, rest);
        assert Run(formula, steps, false, beh, context, options, w) == r;
        assert |before| == 1 && before[0].Call?;
        assert r.trace == before + rest.trace;
      }
    }
  }

  /** Whether a logger is set changes neither which steps run, nor the
      outcome, nor the final state. */
  lemma {:induction false} LoggerIsTransparent<W>(formula: Name, steps: seq<Step>, beh: Behaviour<W>,
                                                  context: Value, options: Value, w: W)
    ensures var logged := Run(formula, steps, true, beh, context, options, w);
      var silent := Run(formula, steps, false, beh, context, options, w);
      && Calls(logged.trace) == Calls(silent.trace)
      && logged.outcome == silent.outcome
      && logged.state == silent.state
    decreases |steps|
  {
    if steps != [] {
      var s := steps[0];
      var b1 := Before(formula, s, true, context, options, w);
      var b0 := Before(formula, s, false, context, options, w);
      assert Calls(b1) == Calls(b0) by {
        assert b1[1..] == b0;
        assert b0[1..] == [];
      }
      match Invoke(beh, s.callable, context, options, w)
      case Threw(f, w1) =>
      case Returned(w1) => {
        LoggerIsTransparent(formula, steps[1..], beh, context, options, w1);
        CallsAppend(b1, Run(formula, steps[1..], true, beh, context, options, w1).trace);
        CallsAppend(b0, Run(formula, steps[1..], false, beh, context, options, w1).trace);
      }
    }
  }

  /** When no call raises and no entry is nil, `update` completes. */
  lemma {:induction false} RunCompletes<W(!new)>(formula: Name, steps: seq<Step>, logging: bool, beh: Behaviour<W>,
                                                 context: Value, options: Value, w: W)
    requires NeverThrows(beh)
    requires forall i :: 0 <= i < |steps| ==> steps[i].callable.Proc?
    ensures Run(formula, steps, logging, beh, context, options, w).outcome == Completed
    decreases |steps|
  {
    if steps != [] {
      var id := steps[0].callable.id;
      assert beh(id, context, options, w).Returned?;
      RunCompletes(formula, steps[1..], logging, beh, context, options, beh(id, context, options, w).state);
    }
  }

  // ---------------------------------------------------------------------------
  // The observer object

  /** `Hero::Observer.new(*args)`: `initialize(formula_name)` takes exactly
      one argument; any other count raises ArgumentError. */
  function ObserverNew(args: seq<Name>): (r: Result<Name>)
    ensures r.Ok? <==> |args| == 1
    ensures r.Ok? ==> r.value == args[0]
    ensures r.Err? ==> r.fault == ArgumentError
  {
    if |args| == 1 then Ok(args[0]) else Err(ArgumentError)
  }

  class Observer {
    /** The name of the formula being observed. */
    const formulaName: Name
    /** All registered steps, in calling order. */
    var steps: seq<Step>

    /** `Observer.new(formula_name)`; `steps` starts out empty (`@steps ||= []`). */
    constructor (formulaName: Name)
      ensures this.formulaName == formulaName
      ensures steps == []
    {
      this.formulaName := formulaName;
      steps := [];
    }

    /** `add_step(name, step = nil, &block)`: delete any entry with that name,
        then append `[name, step || block]`. */
    method AddStep(name: Name, step: Callable, block: Option<Callable>)
      modifies this
      ensures steps == Added(old(steps), name, Resolve(step, block))
    {
      var kept := [];
      var i := 0;
      while i < |steps|
        invariant 0 <= i <= |steps|
        invariant kept == Without(steps[..i], name)
      {
        assert steps[..i + 1][..i] == steps[..i];
        if steps[i].name != name {
          kept := kept + [steps[i]];
        }
        i := i + 1;
      }
      assert steps[..|steps|] == steps;
      steps := kept + [Step(name, Resolve(step, block))];
    }

    /** `update(context, options)`: for each step in order, write the log line
        if a logger is set, then call the step; an exception ends the loop and
        escapes to the caller. */
    method Update<W>(logging: bool, beh: Behaviour<W>, context: Value, options: Value, w: W)
      returns (trace: seq<Event<W>>, outcome: Outcome, w': W)
      ensures RunResult(trace, outcome, w') == Run(formulaName, steps, logging, beh, context, options, w)
    {
      trace, w' := [], w;
      var i := 0;
      while i < |steps|
        invariant 0 <= i <= |steps|
        invariant Prefixed(trace, Run(formulaName, steps[i..], logging, beh, context, options, w'))
               == Run(formulaName, steps, logging, beh, context, options, w)
      {
        var step := steps[i];
        var result := Invoke(beh, step.callable, context, options, w');
        ghost var done := trace;
        if logging {
          trace := trace + [Log(formulaName, step.name, context, options, w')];
        }
        trace := trace + [Call(step.name, step.callable, context, options)];
        RunStep(formulaName, steps, i, logging, beh, context, options, w', done, trace,
                Run(formulaName, steps, logging, beh, context, options, w));
        w' := result.state;
        if result.Threw? {
          outcome := Failed(result.fault);
          return;
        }
        i := i + 1;
      }
      outcome := Completed;
    }
  }
}
