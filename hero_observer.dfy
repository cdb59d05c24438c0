/**
 * HeroObserver: a table from event name to a list of handlers, and the
 * callback that runs the handlers listed for one event.
 */
module Events {
  import opened Support

  /** A handler listed in the table. Before calling a handler, `update` asks
      it for its `name` (a class answers; a Proc has no `name` and raises
      NoMethodError): `named` says whether it answers. */
  datatype Handler = Handler(id: nat, named: bool)

  /** One `handler.call(target, options)`. */
  datatype HandlerCall = HandlerCall(handler: Handler, target: Value, options: Value)

  datatype Dispatched<W> = Dispatched(calls: seq<HandlerCall>, outcome: Outcome, state: W)

  /** `@handlers[event_name] || []`. */
  function Lookup(table: map<Name, seq<Handler>>, event: Name): (r: seq<Handler>)
    ensures event in table ==> r == table[event]
    ensures event !in table ==> r == []
  {
    if event in table then table[event] else []
  }

  function After<W>(calls: seq<HandlerCall>, d: Dispatched<W>): Dispatched<W>
  {
    Dispatched(calls + d.calls, d.outcome, d.state)
  }

  /** Running a handler list: each handler in order, asked for its name and
      then called with the same target and options; the first exception ends
      the run and escapes. */
  function Dispatch<W>(handlers: seq<Handler>, target: Value, options: Value, beh: Behaviour<W>, w: W): (r: Dispatched<W>)
    ensures |r.calls| <= |handlers|
    ensures r.outcome.Completed? ==> |r.calls| == |handlers|
    decreases |handlers|
  {
    if handlers == [] then Dispatched([], Completed, w)
    else
      var h := handlers[0];
      if !h.named then Dispatched([], Failed(NoMethodError), w)
      else
        var call := HandlerCall(h, target, options);
        match beh(h.id, target, options, w)
        case Threw(f, w1) => Dispatched([call], Failed(f), w1)
        case Returned(w1) => After([call], Dispatch(handlers[1..], target, options, beh, w1))
  }

  /** The handlers are called in list order, each at most once, each with the
      same target and options; all of them when the run completes. */
  lemma {:induction false} DispatchInOrder<W>(handlers: seq<Handler>, target: Value, options: Value, beh: Behaviour<W>, w: W)
    ensures var d := Dispatch(handlers, target, options, beh, w);
      && |d.calls| <= |handlers|
      && (forall i :: 0 <= i < |d.calls| ==> d.calls[i] == HandlerCall(handlers[i], target, options))
      && (d.outcome.Completed? ==> |d.calls| == |handlers|)
    decreases |handlers|
  {
    if handlers != [] && handlers[0].named {
      var h := handlers[0];
      match beh(h.id, target, options, w)
      case Threw(f, w1) =>
      case Returned(w1) => {
        var rest := Dispatch(handlers[1..], target, options, beh, w1);
        DispatchInOrder(handlers[1..], target, options, beh, w1);
        var d := After([HandlerCall(h, target, options)], rest);
        assert Dispatch(handlers, target, options, beh, w) == d;
        forall i | 0 < i < |d.calls| ensures d.calls[i] == HandlerCall(handlers[i], target, options) {
          assert d.calls[i] == rest.calls[i - 1];
          assert handlers[1..][i - 1] == handlers[i];
        }
      }
    }
  }

  /** When every handler has a name and no call raises, every handler runs. */
  lemma {:induction false} DispatchCompletes<W(!new)>(handlers: seq<Handler>, target: Value, options: Value,
                                                      beh: Behaviour<W>, w: W)
    requires NeverThrows(beh)
    requires forall i :: 0 <= i < |handlers| ==> handlers[i].named
    ensures Dispatch(handlers, target, options, beh, w).outcome == Completed
    ensures |Dispatch(handlers, target, options, beh, w).calls| == |handlers|
    decreases |handlers|
  {
    DispatchInOrder(handlers, target, options, beh, w);
    if handlers != [] {
      var id := handlers[0].id;
      assert beh(id, target, options, w).Returned?;
      DispatchCompletes(handlers[1..], target, options, beh, beh(id, target, options, w).state);
    }
  }

  /** Only handlers listed under the event are called: a handler that appears
      only under other event names is never called. */
  lemma OnlyListedHandlersRun<W>(table: map<Name, seq<Handler>>, event: Name, target: Value, options: Value,
                                 beh: Behaviour<W>, w: W)
    ensures var d := Dispatch(Lookup(table, event), target, options, beh, w);
      forall i :: 0 <= i < |d.calls| ==> d.calls[i].handler in Lookup(table, event)
  {
    DispatchInOrder(Lookup(table, event), target, options, beh, w);
  }

  lemma AfterAfter<W>(a: seq<HandlerCall>, b: seq<HandlerCall>, d: Dispatched<W>)
    ensures After(a + b, d) == After(a, After(b, d))
  {
    assert (a + b) + d.calls == a + (b + d.calls);
  }

  /** One step of `Dispatch` at position `i` of the list. */
  lemma DispatchAt<W>(list: seq<Handler>, i: nat, target: Value, options: Value, beh: Behaviour<W>, w: W)
    requires i < |list|
    ensures var h := list[i];
      var d := Dispatch(list[i..], target, options, beh, w);
      var r := beh(h.id, target, options, w);
      && (!h.named ==> d == Dispatched([], Failed(NoMethodError), w))
      && (h.named && r.Threw? ==> d == Dispatched([HandlerCall(h, target, options)], Failed(r.fault), r.state))
      && (h.named && r.Returned? ==>
            d == After([HandlerCall(h, target, options)], Dispatch(list[i + 1..], target, options, beh, r.state)))
  {
    assert list[i..][0] == list[i] && list[i..][1..] == list[i + 1..];
  }

  class HeroObserver {
    /** `@handlers`: event name to the handlers to run at that event. */
    var handlers: map<Name, seq<Handler>>

    /** `HeroObserver.new(hero, handlers)`: keeps the table. */
    constructor (handlers: map<Name, seq<Handler>>)
      ensures this.handlers == handlers
    {
      this.handlers := handlers;
    }

    /** `update(event_name, target, options)`: look the event up (a missing
        one has no handlers) and run its handlers in order. The table is not
        changed: the method modifies nothing. */
    method Update<W>(event: Name, target: Value, options: Value, beh: Behaviour<W>, w: W)
      returns (calls: seq<HandlerCall>, outcome: Outcome, w': W)
      ensures Dispatched(calls, outcome, w') == Dispatch(Lookup(handlers, event), target, options, beh, w)
      ensures event !in handlers ==> calls == [] && outcome == Completed && w' == w
    {
      var list := if event in handlers then handlers[event] else [];
      calls, w' := [], w;
      var i := 0;
      while i < |list|
        invariant 0 <= i <= |list|
        invariant After(calls, Dispatch(list[i..], target, options, beh, w')) == Dispatch(list, target, options, beh, w)
      {
        var h := list[i];
        DispatchAt(list, i, target, options, beh, w');
        if !h.named {
          outcome := Failed(NoMethodError);
          return;
        }
        var call := HandlerCall(h, target, options);
        var r := beh(h.id, target, options, w');
        AfterAfter(calls, [call], Dispatch(list[i + 1..], target, options, beh, r.state));
        calls, w' := calls + [call], r.state;
        if r.Threw? {
          outcome := Failed(r.fault);
          return;
        }
        i := i + 1;
      }
      outcome := Completed;
    }
  }
}
