/**
 * Hero::Formula: a named formula that owns one step list, its textual
 * report and its run surface, and the class-level registry that maps
 * formula names to formulas.
 */
module Formulas {
  import opened Support
  import opened Steps
  import Text

  // ---------------------------------------------------------------------------
  // The report (`inspect`)

  /** One line per step: the 1-based index right-justified to width 3, then
      ". " and the step name. */
  function ReportLine(index: nat, step: Name): (r: string)
    ensures |r| >= 5 + |step.text|
    ensures r[|r| - |step.text| - 2..] == ". " + step.text
  {
    Text.RJust(Text.Decimal(index), 3) + ". " + step.text
  }

  /** The formula's name, then one line per step in calling order. */
  function ReportLines(formula: Name, steps: seq<Step>): (r: seq<string>)
    ensures |r| == 1 + |steps| && r[0] == formula.text
    ensures forall i :: 0 <= i < |steps| ==> r[i + 1] == ReportLine(i + 1, steps[i].name)
  {
    [formula.text] + seq(|steps|, i requires 0 <= i < |steps| => ReportLine(i + 1, steps[i].name))
  }

  /** The text of `inspect`: the lines joined with "\n". */
  function Report(formula: Name, steps: seq<Step>): (r: string)
    ensures |r| >= |formula.text| && r[..|formula.text|] == formula.text
    ensures steps == [] ==> r == formula.text
  {
    Text.Join(ReportLines(formula, steps))
  }

  lemma SnocOf(longer: seq<string>, shorter: seq<string>, last: string)
    requires |longer| == |shorter| + 1 && longer[|shorter|] == last
    requires forall k :: 0 <= k < |shorter| ==> longer[k] == shorter[k]
    ensures longer == shorter + [last]
  {
  }

  /** The lines for one more step: the old lines, then the new step's line. */
  lemma ReportLinesSnoc(formula: Name, steps: seq<Step>, i: nat)
    requires i < |steps|
    ensures ReportLines(formula, steps[..i + 1]) == ReportLines(formula, steps[..i]) + [ReportLine(i + 1, steps[i].name)]
  {
    var longer := ReportLines(formula, steps[..i + 1]);
    var shorter := ReportLines(formula, steps[..i]);
    forall k | 1 <= k <= i ensures longer[k] == shorter[k] {
      assert steps[..i + 1][k - 1] == steps[..i][k - 1];
    }
    assert steps[..i + 1][i] == steps[i];
    SnocOf(longer, shorter, ReportLine(i + 1, steps[i].name));
  }

  /** No name in the report contains a newline. */
  ghost predicate SingleLineNames(formula: Name, steps: seq<Step>)
  {
    && '\n' !in formula.text
    && forall i :: 0 <= i < |steps| ==> '\n' !in steps[i].name.text
  }

  /** A report line reads back as its index, ". " and the step name: for
      indexes below 1000 the index fills the first three columns, padded on
      the left with spaces. */
  lemma ReportLineFields(index: nat, step: Name)
    requires index < 1000
    ensures var line := ReportLine(index, step);
      var d := Text.Decimal(index);
      && |d| <= 3
      && |line| == 5 + |step.text|
      && (forall i :: 0 <= i < 3 - |d| ==> line[i] == ' ')
      && Text.ParseDecimal(line[3 - |d|..3]) == index
      && line[3..5] == ". "
      && line[5..] == step.text
  {
    var d := Text.Decimal(index);
    DecimalAtMostThree(index);
    Text.DecimalRoundTrip(index);
    var line := ReportLine(index, step);
    var padded := Text.RJust(d, 3);
    assert line == padded + ". " + step.text;
    assert line[..3] == padded;
    assert line[3 - |d|..3] == padded[3 - |d|..] == d;
  }

  lemma DecimalAtMostThree(n: nat)
    requires n < 1000
    ensures |Text.Decimal(n)| <= 3
  {
    if n >= 10 {
      var m := n / 10;
      assert m < 100;
      if m >= 10 {
        assert m / 10 < 10;
        assert |Text.Decimal(m / 10)| == 1;
        assert |Text.Decimal(m)| == 2;
      }
    }
  }

  /** A report line never contains a newline when the step name does not. */
  lemma ReportLineSingle(index: nat, step: Name)
    requires '\n' !in step.text
    ensures '\n' !in ReportLine(index, step)
  {
    var padded := Text.RJust(Text.Decimal(index), 3);
    var d := Text.Decimal(index);
    forall i | 0 <= i < |padded| ensures padded[i] != '\n' {
      if i >= |padded| - |d| {
        assert padded[i] == padded[|padded| - |d|..][i - (|padded| - |d|)];
      }
    }
    var line := ReportLine(index, step);
    forall i | 0 <= i < |line| ensures line[i] != '\n' {
      if i < |padded| {
        assert line[i] == padded[i];
      } else if i < |padded| + 2 {
        assert line[i] == ". "[i - |padded|];
      } else {
        assert line[i] == step.text[i - |padded| - 2];
      }
    }
  }

  /** The report has exactly 1 + (number of steps) lines: the formula name
      first, then step i on line i + 1. */
  lemma ReportSplit(formula: Name, steps: seq<Step>)
    ensures SingleLineNames(formula, steps) ==> Text.Split(Report(formula, steps)) == ReportLines(formula, steps)
  {
    if SingleLineNames(formula, steps) {
      var lines := ReportLines(formula, steps);
      forall i | 0 <= i < |lines| ensures '\n' !in lines[i] {
        if i > 0 {
          ReportLineSingle(i, steps[i - 1].name);
        }
      }
      Text.SplitJoin(lines);
    }
  }

  lemma SmallIndexLine(index: nat, step: Name)
    requires 0 < index < 10
    ensures ReportLine(index, step) == "  " + [Text.Digit(index)] + ". " + step.text
  {
    var d := Text.Decimal(index);
    assert d == [Text.Digit(index)];
    assert Text.RJust(d, 3) == "  " + d;
  }

  lemma KnownLine(index: nat, step: Name, digit: char, line: string)
    requires 0 < index < 10 && Text.Digit(index) == digit
    requires line == "  " + [digit] + ". " + step.text
    ensures ReportLine(index, step) == line
  {
    SmallIndexLine(index, step);
  }

  /** The numbered lines of the tests' four steps. */
  lemma FourLineTexts()
    ensures ReportLine(1, Sym("one")) == "  1. one"
    ensures ReportLine(2, Sym("two")) == "  2. two"
    ensures ReportLine(3, Sym("three")) == "  3. three"
    ensures ReportLine(4, Sym("four")) == "  4. four"
  {
    KnownLine(1, Sym("one"), '1', "  1. one");
    KnownLine(2, Sym("two"), '2', "  2. two");
    KnownLine(3, Sym("three"), '3', "  3. three");
    KnownLine(4, Sym("four"), '4', "  4. four");
  }

  /** The report lines of a formula with four steps. */
  lemma ReportLinesOfFour(formula: Name, s1: Step, s2: Step, s3: Step, s4: Step)
    ensures ReportLines(formula, [s1, s2, s3, s4])
         == [formula.text, ReportLine(1, s1.name), ReportLine(2, s2.name), ReportLine(3, s3.name), ReportLine(4, s4.name)]
  {
    var r := ReportLines(formula, [s1, s2, s3, s4]);
    assert r == [r[0], r[1], r[2], r[3], r[4]];
  }

  lemma FourStepLines(c1: Callable, c2: Callable, c3: Callable, c4: Callable)
    ensures ReportLines(Sym("test_formula"),
                        [Step(Sym("one"), c1), Step(Sym("two"), c2), Step(Sym("three"), c3), Step(Sym("four"), c4)])
         == ["test_formula", "  1. one", "  2. two", "  3. three", "  4. four"]
  {
    ReportLinesOfFour(Sym("test_formula"), Step(Sym("one"), c1), Step(Sym("two"), c2),
                      Step(Sym("three"), c3), Step(Sym("four"), c4));
    FourLineTexts();
  }

  lemma JoinFive(a: string, b: string, c: string, d: string, e: string)
    ensures Text.Join([a, b, c, d, e]) == a + "\n" + b + "\n" + c + "\n" + d + "\n" + e
  {
    assert [a, b, c, d, e] == [a] + [b, c, d, e];
    assert [b, c, d, e] == [b] + [c, d, e];
    assert [c, d, e] == [c] + [d, e];
    assert [d, e] == [d] + [e];
    Text.JoinCons(a, [b, c, d, e]);
    Text.JoinCons(b, [c, d, e]);
    Text.JoinCons(c, [d, e]);
    Text.JoinCons(d, [e]);
  }

  /** The five lines of that report, joined. */
  lemma FourStepText()
    ensures Text.Join(["test_formula", "  1. one", "  2. two", "  3. three", "  4. four"])
         == "test_formula\n  1. one\n  2. two\n  3. three\n  4. four"
  {
    JoinFive("test_formula", "  1. one", "  2. two", "  3. three", "  4. four");
    assert "test_formula" + "\n" + "  1. one" == "test_formula\n  1. one";
    assert "test_formula\n  1. one" + "\n" + "  2. two" == "test_formula\n  1. one\n  2. two";
    assert "test_formula\n  1. one\n  2. two" + "\n" + "  3. three" == "test_formula\n  1. one\n  2. two\n  3. three";
    assert "test_formula\n  1. one\n  2. two\n  3. three" + "\n" + "  4. four"
        == "test_formula\n  1. one\n  2. two\n  3. three\n  4. four";
  }

  /** The report of the tests for a formula with steps one to four. */
  lemma ReportOfFourSteps(c1: Callable, c2: Callable, c3: Callable, c4: Callable)
    ensures Report(Sym("test_formula"),
                   [Step(Sym("one"), c1), Step(Sym("two"), c2), Step(Sym("three"), c3), Step(Sym("four"), c4)])
         == "test_formula\n  1. one\n  2. two\n  3. three\n  4. four"
  {
    FourStepLines(c1, c2, c3, c4);
    FourStepText();
  }

  // ---------------------------------------------------------------------------
  // Modelled as written (see README, Findings)

  /** `inspect` as written reads `step.keys.first`, but a step is an Array
      `[name, step]`, which has no `keys`: any formula with a step raises. */
  function InspectAsWritten(formula: Name, steps: seq<Step>): (r: Result<string>)
    ensures steps == [] ==> r == Ok(formula.text)
    ensures steps != [] ==> r == Err(NoMethodError)
  {
    if steps == [] then Ok(formula.text) else Err(NoMethodError)
  }

  /** The four-step report the tests expect is not what `inspect` as written
      produces; the corrected report is. */
  lemma InspectAsWrittenMissesReport(c1: Callable, c2: Callable, c3: Callable, c4: Callable)
    ensures var steps := [Step(Sym("one"), c1), Step(Sym("two"), c2), Step(Sym("three"), c3), Step(Sym("four"), c4)];
      && InspectAsWritten(Sym("test_formula"), steps) != Ok("test_formula\n  1. one\n  2. two\n  3. three\n  4. four")
      && Report(Sym("test_formula"), steps) == "test_formula\n  1. one\n  2. two\n  3. three\n  4. four"
  {
    ReportOfFourSteps(c1, c2, c3, c4);
  }

  // ---------------------------------------------------------------------------
  // The formula object

  /** The context `notify` passes: its first argument, `nil` by default. */
  function ContextArg(args: seq<Value>): (r: Value)
    ensures args == [] ==> r == NilValue
    ensures args != [] ==> r == args[0]
  {
    if |args| >= 1 then args[0] else NilValue
  }

  /** The options `notify` passes: its second argument, `{}` by default. */
  function OptionsArg(args: seq<Value>): (r: Value)
    ensures |args| < 2 ==> r == EmptyHash
    ensures |args| >= 2 ==> r == args[1]
  {
    if |args| >= 2 then args[1] else EmptyHash
  }

  class Formula {
    const name: Name
    /** The one Hero::Observer made for this formula; never reassigned. */
    const observer: Observer
    /** Whether that observer is still attached (Observable's subscriber list). */
    var attached: bool

    /** The formula `register` builds: named, paired with its observer, and
        with that observer attached (`add_observer`). */
    constructor (name: Name, observer: Observer)
      ensures this.name == name && this.observer == observer && attached
    {
      this.name := name;
      this.observer := observer;
      attached := true;
    }

    /** `count_observers`. */
    function CountObservers(): (n: nat)
      reads this
      ensures n <= 1
      ensures n == 1 <==> attached
    {
      if attached then 1 else 0
    }

    /** `steps`, delegated to the observer. */
    function Steps(): (r: seq<Step>)
      reads observer
      ensures r == observer.steps
    {
      observer.steps
    }

    /** `add_step`, delegated to the observer: only this formula's observer
        changes. */
    method AddStep(stepName: Name, step: Callable, block: Option<Callable>)
      modifies observer
      ensures observer.steps == Added(old(observer.steps), stepName, Resolve(step, block))
    {
      observer.AddStep(stepName, step, block);
    }

    /** `inspect`: start from the name, append one numbered line per step in
        calling order, then join the lines with "\n". Split at its newlines,
        the text gives back exactly those lines. */
    method Inspect() returns (r: string)
      ensures r == Report(name, observer.steps)
      ensures SingleLineNames(name, observer.steps) ==> |Text.Split(r)| == 1 + |observer.steps|
      ensures SingleLineNames(name, observer.steps) ==> Text.Split(r) == ReportLines(name, observer.steps)
    {
      var steps := observer.steps;
      var value := [name.text];
      var i := 0;
      while i < |steps|
        invariant 0 <= i <= |steps|
        invariant value == ReportLines(name, steps[..i])
      {
        ReportLinesSnoc(name, steps, i);
        value := value + [ReportLine(i + 1, steps[i].name)];
        i := i + 1;
      }
      assert steps[..|steps|] == steps;
      ReportSplit(name, steps);
      r := Text.Join(value);
    }

    /** `notify(context = nil, options = {})`, also called `run`: Observable
        forwards the two arguments to every attached observer, here at most
        the formula's own one. More than two arguments raise ArgumentError. */
    method Notify<W>(args: seq<Value>, logging: bool, beh: Behaviour<W>, w: W)
      returns (trace: seq<Event<W>>, outcome: Outcome, w': W)
      ensures |args| > 2 ==> trace == [] && outcome == Failed(ArgumentError) && w' == w
      ensures |args| <= 2 && !attached ==> trace == [] && outcome == Completed && w' == w
      ensures |args| <= 2 && attached ==>
        RunResult(trace, outcome, w')
          == Run(observer.formulaName, observer.steps, logging, beh, ContextArg(args), OptionsArg(args), w)
    {
      if |args| > 2 {
        return [], Failed(ArgumentError), w;
      }
      if attached {
        trace, outcome, w' := observer.Update(logging, beh, ContextArg(args), OptionsArg(args), w);
      } else {
        trace, outcome, w' := [], Completed, w;
      }
    }
  }

  // ---------------------------------------------------------------------------
  // The registry (class-level state of Hero::Formula)

  lemma {:induction false} DistinctCardinality(order: seq<Name>, keys: set<Name>)
    requires forall i, j :: 0 <= i < j < |order| ==> order[i] != order[j]
    requires forall n :: n in keys <==> n in order
    ensures |keys| == |order|
    decreases |order|
  {
    if order != [] {
      var last := order[|order| - 1];
      var init := order[..|order| - 1];
      assert order == init + [last];
      forall n ensures n in keys - {last} <==> n in init {
        if n in init {
          var j :| 0 <= j < |init| && init[j] == n;
          assert order[j] == n;
        }
      }
      DistinctCardinality(init, keys - {last});
    }
  }

  class Registry {
    /** `@formulas`: name to formula. */
    var formulas: map<Name, Formula>
    /** The hash's keys in insertion order (the order `each` visits them). */
    var order: seq<Name>

    ghost predicate Valid()
      reads this
    {
      && (forall n :: n in formulas <==> n in order)
      && (forall i, j :: 0 <= i < j < |order| ==> order[i] != order[j])
      && (forall n :: n in formulas ==> formulas[n].name == n && formulas[n].observer.formulaName == n)
      && (forall a, b :: a in formulas && b in formulas && a != b ==>
            formulas[a] != formulas[b] && formulas[a].observer != formulas[b].observer)
    }

    /** The registry is empty until something is registered (`@formulas ||= {}`). */
    constructor ()
      ensures Valid() && formulas == map[] && order == []
    {
      formulas, order := map[], [];
    }

    /** `count`: the number of registered names. */
    function Count(): (n: nat)
      reads this
      requires Valid()
      ensures n == |order|
    {
      DistinctCardinality(order, formulas.Keys);
      |formulas|
    }

    /** `each`: the (name, formula) pairs, each registered name once, in the
        order the names were first registered. */
    function Each(): (r: seq<(Name, Formula)>)
      reads this
      requires Valid()
      ensures |r| == Count() && |r| == |order|
      ensures forall i :: 0 <= i < |r| ==> r[i] == (order[i], formulas[order[i]])
      ensures forall i, j :: 0 <= i < j < |r| ==> r[i].0 != r[j].0
      ensures forall i :: 0 <= i < |r| ==> r[i].0 in formulas && r[i].1 == formulas[r[i].0]
      ensures forall n :: n in formulas ==> exists i :: 0 <= i < |r| && r[i] == (n, formulas[n])
    {
      var r := seq(|order|, i requires 0 <= i < |order| && order[i] in formulas reads this => (order[i], formulas[order[i]]));
      assert forall n :: n in formulas ==> exists i :: 0 <= i < |r| && r[i] == (n, formulas[n]) by {
        forall n | n in formulas ensures exists i :: 0 <= i < |r| && r[i] == (n, formulas[n]) {
          var i :| 0 <= i < |order| && order[i] == n;
          assert r[i] == (n, formulas[n]);
        }
      }
      r
    }

    /** The formula `register` builds for `name`: a new one, with a new
        observer for that name, attached. */
    static method NewFormula(name: Name) returns (f: Formula)
      ensures fresh(f) && fresh(f.observer)
      ensures f.name == name && f.attached && f.observer.formulaName == name && f.observer.steps == []
    {
      var observer := new Observer(name);
      f := new Formula(name, observer);
    }

    /** `register(name)`: always a new formula, stored under `name` in place
        of any previous one (which is left untouched). A name already present
        keeps its place in the order. */
    method Register(name: Name) returns (f: Formula)
      requires Valid()
      modifies this
      ensures Valid()
      ensures fresh(f) && fresh(f.observer)
      ensures f.name == name && f.attached && f.observer.formulaName == name && f.observer.steps == []
      ensures f.CountObservers() == 1
      ensures formulas == old(formulas)[name := f]
      ensures order == if name in old(formulas) then old(order) else old(order) + [name]
      ensures Count() == old(|formulas|) + (if name in old(formulas) then 0 else 1)
    {
      f := NewFormula(name);
      if name !in formulas {
        order := order + [name];
      }
      formulas := formulas[name := f];
    }

    /** `register(name)` as written: `Hero::Observer.new` is called with no
        argument, so it raises ArgumentError before a formula is built or
        stored; the registry is left as it was. */
    method RegisterAsWritten(name: Name) returns (r: Result<Formula>)
      requires Valid()
      modifies this
      ensures Valid()
      ensures r == Err(ArgumentError)
      ensures formulas == old(formulas) && order == old(order) && Count() == old(Count())
    {
      var observer := ObserverNew([]);
      r := Err(observer.fault);
    }

    /** `[](name)` as written: a stored name still gives its formula, but a
        missing one goes through `register` as written and raises. */
    method GetAsWritten(name: Name) returns (r: Result<Formula>)
      requires Valid()
      modifies this
      ensures Valid()
      ensures name in old(formulas) ==> r == Ok(old(formulas[name]))
      ensures name !in old(formulas) ==> r == Err(ArgumentError)
      ensures formulas == old(formulas) && order == old(order)
    {
      if name in formulas {
        r := Ok(formulas[name]);
      } else {
        r := RegisterAsWritten(name);
      }
    }

    /** `[](name)` (`formulas[name] ||= register(name)`): the stored formula
        if there is one, with nothing changed; otherwise register a new one. */
    method Get(name: Name) returns (f: Formula)
      requires Valid()
      modifies this
      ensures Valid()
      ensures name in old(formulas) ==> f == old(formulas[name]) && formulas == old(formulas) && order == old(order)
      ensures name !in old(formulas) ==>
        && fresh(f) && fresh(f.observer)
        && f.name == name && f.attached && f.observer.formulaName == name && f.observer.steps == []
        && formulas == old(formulas)[name := f] && order == old(order) + [name]
      ensures f == formulas[name]
    {
      if name in formulas {
        f := formulas[name];
      } else {
        f := Register(name);
      }
    }

    /** `reset`: detach the observer of every stored formula, then forget
        them all. The formulas' step lists are not touched. */
    method Reset()
      requires Valid()
      modifies this, formulas.Values
      ensures Valid() && formulas == map[] && order == [] && Count() == 0
      ensures forall f :: f in old(formulas).Values ==> !f.attached
    {
      var i := 0;
      while i < |order|
        invariant 0 <= i <= |order|
        invariant formulas == old(formulas) && order == old(order)
        invariant forall j :: 0 <= j < i ==> !formulas[order[j]].attached
      {
        formulas[order[i]].attached := false;
        i := i + 1;
      }
      forall f | f in old(formulas).Values ensures !f.attached {
        var n :| n in formulas && formulas[n] == f;
        var j :| 0 <= j < |order| && order[j] == n;
      }
      formulas, order := map[], [];
    }
  }

  // ---------------------------------------------------------------------------
  // The registry's promises as the tests state them

  /** With `register` as written, no series of `[]` lookups ever stores a
      formula: starting from an empty registry, every lookup raises
      ArgumentError and the registry stays empty. */
  method AsWrittenNeverStores(reg: Registry, names: seq<Name>) returns (results: seq<Result<Formula>>)
    requires reg.Valid() && reg.formulas == map[]
    modifies reg
    ensures reg.Valid() && reg.formulas == map[] && reg.Count() == 0
    ensures |results| == |names|
    ensures forall i :: 0 <= i < |results| ==> results[i] == Err(ArgumentError)
  {
    results := [];
    var i := 0;
    while i < |names|
      invariant 0 <= i <= |names|
      invariant reg.Valid() && reg.formulas == map[]
      invariant |results| == i
      invariant forall j :: 0 <= j < i ==> results[j] == Err(ArgumentError)
    {
      var r := reg.GetAsWritten(names[i]);
      results := results + [r];
      i := i + 1;
    }
  }

  /** Looking a name up twice gives the same formula and registers it once. */
  method GetTwice(reg: Registry, name: Name) returns (first: Formula, second: Formula)
    requires reg.Valid()
    modifies reg
    ensures reg.Valid()
    ensures name in reg.formulas && first == second && second == reg.formulas[name]
    ensures reg.Count() == old(reg.Count()) + (if name in old(reg.formulas) then 0 else 1)
  {
    first := reg.Get(name);
    second := reg.Get(name);
  }

  /** Registering a name twice gives two different formulas; the second
      replaces the first, and the count grows by one only when the name was
      new. */
  method RegisterTwice(reg: Registry, name: Name) returns (first: Formula, second: Formula)
    requires reg.Valid()
    modifies reg
    ensures reg.Valid()
    ensures first != second && name in reg.formulas && reg.formulas[name] == second && first.attached
    ensures reg.Count() == old(reg.Count()) + (if name in old(reg.formulas) then 0 else 1)
  {
    first := reg.Register(name);
    second := reg.Register(name);
  }

  /** `Formula[name].add_step(...)`: the named formula gets the step; every
      other registered formula keeps its steps. */
  method AddStepByName(reg: Registry, name: Name, stepName: Name, step: Callable, block: Option<Callable>)
    returns (f: Formula)
    requires reg.Valid()
    modifies reg, set g | g in reg.formulas.Values :: g.observer
    ensures reg.Valid() && name in reg.formulas && f == reg.formulas[name]
    ensures f.observer.steps
         == Added(if name in old(reg.formulas) then old(reg.formulas[name].observer.steps) else [],
                  stepName, Resolve(step, block))
    ensures forall other :: other in old(reg.formulas) && other != name ==>
      && other in reg.formulas && reg.formulas[other] == old(reg.formulas[other])
      && reg.formulas[other].observer.steps == old(reg.formulas[other].observer.steps)
  {
    f := reg.Get(name);
    f.AddStep(stepName, step, block);
  }

  /** A formula obtained before `reset` and given a step has 0 observers
      afterwards, keeps its step, and is no longer registered. */
  method ResetOrphans(reg: Registry, name: Name, stepName: Name, block: Callable) returns (f: Formula)
    requires reg.Valid()
    modifies reg, reg.formulas.Values, set g | g in reg.formulas.Values :: g.observer
    ensures reg.Valid() && reg.Count() == 0
    ensures f.CountObservers() == 0
    ensures f.observer.steps == Added(old(if name in reg.formulas then reg.formulas[name].observer.steps else []),
                                      stepName, block)
  {
    f := reg.Get(name);
    f.AddStep(stepName, NilStep, Some(block));
    reg.Reset();
  }
}
