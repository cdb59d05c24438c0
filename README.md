# Hero formulas, modelled in Dafny

Hero (hopsoft/hero) is a small Ruby library for organizing business logic
as *formulas*. A formula is a named, process-wide singleton that holds an
ordered list of named *steps*. Running the formula calls every step in
order with the same context and options.

This project models three parts of the library:

- **the step list** (`Hero::Observer`, module `Steps`, file `observer.dfy`).
  `add_step` drops any entry with the same name and appends the new one, so
  the list has at most one entry per name and is in insertion order.
  `update` calls the steps one after another. When a logger is set, it
  writes one log line before each call. The first exception stops the loop
  and escapes to the caller.
- **the formula and its registry** (`Hero::Formula`, module `Formulas`,
  file `formula.dfy`). The registry maps names to formulas. It provides
  `register`, `[]` (look up, or register when missing), `reset`, `count`
  and `each`. Each formula has an observer, delegates `steps` and
  `add_step` to it, and provides `inspect`, `notify` and `run`.
- **the event dispatcher** (`HeroObserver`, module `Events`, file
  `hero_observer.dfy`). It holds a table from event name to a list of
  handlers. `update(event, target, options)` calls the handlers listed for
  that event, in order.

Two small modules support these:

- `Support` (`support.dfy`) holds the shared data types.
- `Text` (`text.dfy`) holds the string helpers behind `inspect`: `to_s`,
  `rjust` and `join`. It also holds splitting text at newlines, which
  `inspect` does not use. It takes part only in the proofs, as the inverse
  partner of `join`.

How the model represents Ruby's dynamic parts:

- **Steps are opaque.** A step is `nil` or a callable with an identity
  (`Callable`). What it does when called is a parameter `beh`, a
  `Behaviour` of type `(id, context, options, world) -> Returned(world') |
  Threw(fault, world')`. The world is abstract (a type parameter). It holds
  what a step can mutate outside the formula machinery, such as the context
  list or the options hash the tests pass in. A step that changes its own
  formula's step list or the registry while it runs is outside the model.
- **Calling `nil` raises NoMethodError.**
- **The logger is a bool.** `logging` says whether `Hero.logger` is set.
  A log line is recorded as an `Event.Log` carrying the world state at
  that moment, because the line shows the context and options as they are
  then.
- **Ruby objects whose fields change become classes.** These are the
  observer (`steps`), the formula (whether its observer is still attached),
  the registry (`formulas` and the hash's insertion order) and the event
  dispatcher (`handlers`).
- **Loops become loops.** The loops of `add_step`, `update`, `inspect`,
  `reset` and the dispatcher's `update` are `while` loops. Four of them are
  proved equal to a specification function: `add_step` to `Without`/`Added`,
  `update` to `Run`, `inspect` to `Report` and the dispatcher's `update` to
  `Dispatch`. The properties are stated about those functions. The `reset`
  loop is specified by its final state: every formula that was registered is
  detached, and the registry is empty.

## Model

| member | source | states |
|---|---|---|
| Steps.Observer.constructor | lib/hero/observer.rb:12-19 | the observer keeps the formula name and starts with an empty step list |
| Steps.ObserverNew | lib/hero/observer.rb:12 | `Observer.new` succeeds with exactly one argument, the formula name; any other number of arguments raises ArgumentError |
| Support.Invoke | lib/hero/observer.rb:68 | calling a stored `nil` raises NoMethodError and changes nothing; calling a callable does what its behaviour says |
| Steps.Without | lib/hero/observer.rb:51 | `delete_if` never lengthens the list, and no surviving entry has the deleted name |
| Steps.Resolve | lib/hero/observer.rb:52 | the block is used only when the step argument is nil; a non-nil step always wins |
| Steps.Added | lib/hero/observer.rb:50-54 | after `add_step` the list is nonempty, ends with the new `[name, step]`, and is at most one entry longer |
| Steps.AddAll | lib/hero/observer.rb:50-54 | a series of `add_step` calls grows the list by at most one entry per call, and the last one added ends the list |
| Steps.Observer.AddStep | lib/hero/observer.rb:50-54 | the new list is the old one with every entry of that name deleted (order kept), followed by `[name, step or block]` |
| Steps.WithoutMembers | lib/hero/observer.rb:51 | an entry survives `delete_if` exactly when it was present and has a different name |
| Steps.WithoutAbsent | lib/hero/observer.rb:51 | deleting a name that is not in the list changes nothing |
| Steps.WithoutUnique | lib/hero/observer.rb:51 | on a list with unique names, deleting removes one entry if the name is present and none otherwise, and names stay unique |
| Steps.AddedSpec | lib/hero/observer.rb:50-54 | after `add_step`: the new entry is last, no other entry has its name, entries with other names are unchanged and in order, names stay unique, and the length grows by one exactly when the name is new |
| Steps.AddAllUnique | lib/hero/observer.rb:50-54 | any series of `add_step` calls keeps at most one entry per name |
| Steps.AddAllFresh | lib/hero/observer.rb:31 | adding steps with new names puts them in call order, first added first called: old list + additions |
| Steps.AddAllSnoc | lib/hero/observer.rb:50-54 | a series of additions followed by one more equals that last `add_step` applied to the series |
| Steps.ReAddFirst | lib/hero/observer.rb:50-54 | re-adding the name at the head of a unique list moves that entry to the end with the new callable; the rest keeps its order |
| Steps.ReAddMovesToEnd | spec/observer_spec.rb:26-38 | adding one, two, three, four, then one again leaves the names two, three, four, one |
| Steps.Run | lib/hero/observer.rb:63-70 | a run records events exactly when the list is nonempty; on an empty list it completes and leaves the world unchanged |
| Steps.Observer.Update | lib/hero/observer.rb:63-70 | the loop's trace, outcome and final world equal `Run` over the current steps: each step logged (when a logger is set) and called in order; the first exception stops the loop |
| Steps.CallsAppend | lib/hero/observer.rb:64-69 | the calls of two traces put together are the calls of the first, then those of the second |
| Steps.RunInvokesInOrder | lib/hero/observer.rb:64-69 | a run calls a prefix of the list, in list order, each step once, each with the same context and options; when the run completes, it has called every step |
| Steps.RunStopsAtFailure | lib/hero/observer.rb:64-69 | when a run fails, the last event is the call of the step that failed, so no later step is called or logged; that call raised, and the fault the run reports is the one it raised, with the world as the call left it |
| Steps.RunLogsBeforeEachCall | lib/hero/observer.rb:65-68 | with a logger set, the trace is log, call, log, call, ...: each called step is preceded by one log line naming this formula, that step, and the context and options |
| Steps.RunUnloggedOnlyCalls | lib/hero/observer.rb:65-67 | without a logger, a run records nothing but calls |
| Steps.LoggerIsTransparent | lib/hero/observer.rb:65-68 | setting a logger changes neither which steps are called, nor the outcome, nor the final world |
| Steps.RunCompletes | lib/hero/observer.rb:64-69 | when no entry is nil and no call raises, the run completes |
| Text.Digit | lib/hero/formula.rb:53 | a digit prints as one decimal character, which reads back as that digit |
| Text.Decimal | lib/hero/formula.rb:53 | `Integer#to_s` of a natural number: nonempty, decimal digits only, no leading zero |
| Text.DecimalRoundTrip | lib/hero/formula.rb:53 | reading the printed digits back gives the number |
| Text.RJust | lib/hero/formula.rb:53 | `rjust(width)`: the string padded on the left with spaces to the width, unchanged when already at least that long |
| Text.Join | lib/hero/formula.rb:55 | the joined text starts with the first line, and one line joins to itself |
| Text.JoinCons | lib/hero/formula.rb:55 | `join("\n")` puts a newline between the first line and the join of the rest |
| Text.Split | lib/hero/formula.rb:55 | splitting text at its newlines gives at least one line |
| Text.SplitNoNewline | lib/hero/formula.rb:55 | text without a newline splits into itself alone |
| Text.SplitAtNewline | lib/hero/formula.rb:55 | splitting `a + "\n" + b`, where `a` has no newline, gives `a` followed by the split of `b` |
| Text.SplitJoin | lib/hero/formula.rb:55 | splitting the newline-join of newline-free lines gives back exactly those lines |
| Formulas.ReportLines | lib/hero/formula.rb:50-55 | the report has one line for the formula name, then line i + 1 for step i, 1-based |
| Formulas.ReportLine | lib/hero/formula.rb:53 | a step's line ends with ". " and the step's name, after an index column at least three wide |
| Formulas.Report | lib/hero/formula.rb:50-56 | the report starts with the formula's name, and is just that name when there are no steps |
| Formulas.ReportLinesSnoc | lib/hero/formula.rb:52-54 | one more pass of the loop adds exactly the next step's line at the end |
| Formulas.ReportLineFields | lib/hero/formula.rb:53 | for an index below 1000, a report line reads back as the index right-justified in three columns, then ". ", then the step name |
| Formulas.DecimalAtMostThree | lib/hero/formula.rb:53 | an index below 1000 prints in at most three digits, so it fits the width-3 column |
| Formulas.ReportLineSingle | lib/hero/formula.rb:53 | a report line has no newline when the step name has none |
| Formulas.ReportSplit | lib/hero/formula.rb:50-56 | when no name holds a newline, splitting the report at newlines gives back exactly the name line and one line per step |
| Formulas.SmallIndexLine | lib/hero/formula.rb:53 | for indexes 1 to 9 the line is two spaces, the digit, ". " and the step name |
| Formulas.FourLineTexts | spec/formula_spec.rb:180-189 | the numbered lines of steps one to four read `  1. one` to `  4. four` |
| Formulas.FourStepLines | spec/formula_spec.rb:179-191 | the lines of formula test_formula with steps one to four |
| Formulas.FourStepText | lib/hero/formula.rb:55 | those five lines joined with newlines give the text the tests expect |
| Formulas.JoinFive | lib/hero/formula.rb:55 | joining five lines puts a newline between each pair |
| Formulas.ReportOfFourSteps | spec/formula_spec.rb:179-191 | the report of test_formula with steps one to four is the text the tests expect, without the trailing newline `puts` adds |
| Formulas.Formula.Inspect | lib/hero/formula.rb:50-56 | the loop builds the name line and one numbered line per step, in calling order, and joins them: the result is the formula's report; when no name holds a newline, splitting it gives 1 + (number of steps) lines, exactly the name line and the step lines |
| Formulas.InspectAsWritten | lib/hero/formula.rb:50-56 | `inspect` as written: the formula name for an empty list; NoMethodError once there is a step |
| Formulas.InspectAsWrittenMissesReport | lib/hero/formula.rb:53 | for the four-step formula of the tests, `inspect` as written does not give the expected text, and the corrected report does |
| Formulas.Registry.RegisterAsWritten | lib/hero/formula.rb:23-24 | `register` as written raises ArgumentError from `Observer.new`, before a formula is built or stored: the hash, its order and the count are unchanged |
| Formulas.Registry.GetAsWritten | lib/hero/formula.rb:19-24 | `[]` as written returns a stored formula unchanged, and raises ArgumentError for every missing name, without storing anything |
| Formulas.AsWrittenNeverStores | lib/hero/formula.rb:19-24 | with `register` as written, any series of `[]` lookups on an empty registry raises ArgumentError every time, and the registry stays empty |
| Formulas.Formula.constructor | lib/hero/formula.rb:25-30 | a registered formula has its name and its observer, and the observer is attached |
| Formulas.Formula.Steps | lib/hero/formula.rb:47 | `steps` is the observer's own list, the one `add_step` changes and `update` runs |
| Formulas.Formula.CountObservers | lib/hero/formula.rb:26 | `count_observers` is 1 while the formula's observer is attached and 0 after it is detached; never more |
| Formulas.Formula.AddStep | lib/hero/formula.rb:48 | `add_step` is the observer's: only the observer's list changes, exactly as `Observer.AddStep` changes it |
| Formulas.ContextArg | lib/hero/formula.rb:58 | the context `notify` passes is its first argument, or `nil` when there is none |
| Formulas.OptionsArg | lib/hero/formula.rb:58 | the options `notify` passes are its second argument, or `{}` when there are fewer than two |
| Formulas.Formula.Notify | lib/hero/formula.rb:58-63 | `notify`/`run` with context defaulting to nil and options to {}: more than two arguments raise ArgumentError; with the observer attached, the result is the observer's `Run` over its steps; once detached, nothing is called |
| Formulas.DistinctCardinality | lib/hero/formula.rb:12 | a list of distinct names that holds exactly the keys of a hash has as many entries as the hash |
| Formulas.Registry.constructor | lib/hero/formula.rb:36-38 | the registry starts empty |
| Formulas.Registry.Count | lib/hero/formula.rb:12 | `count` is the number of registered names |
| Formulas.Registry.Each | lib/hero/formula.rb:11 | `each` yields pair i as the i-th name in first-registration order with its formula: each registered pair exactly once, and all of them |
| Formulas.Registry.NewFormula | lib/hero/formula.rb:24-30 | the formula `register` builds is new, with a new empty observer for that name, attached |
| Formulas.Registry.Register | lib/hero/formula.rb:23-32 | always stores a new formula under the name, replacing any earlier one; a new name goes last in the order, a known one keeps its place; count grows by one exactly when the name is new; the registry invariant holds |
| Formulas.Registry.Get | lib/hero/formula.rb:19-21 | a stored name gives its formula with nothing changed; a missing name is registered; either way the result is what is now stored under the name |
| Formulas.Registry.Reset | lib/hero/formula.rb:14-17 | every formula that was registered has its observer detached; afterwards the registry is empty and count is 0 |
| Formulas.GetTwice | spec/formula_spec.rb:86-90 | looking a name up twice gives the same formula, and registers it at most once |
| Formulas.RegisterTwice | lib/hero/formula.rb:23-32 | registering a name twice gives two different formulas; the second replaces the first in the registry, and the count grows at most once |
| Formulas.AddStepByName | spec/formula_spec.rb:107-116 | `Formula[name].add_step` gives that formula the step; every other registered formula keeps its formula and its steps |
| Formulas.ResetOrphans | spec/formula_spec.rb:97-105 | a formula given a step and then reset has 0 observers, keeps its step, and the registry count is 0 |
| Events.HeroObserver.constructor | lib/hero_observer.rb:22-23 | the dispatcher keeps the handler table it is given |
| Events.Lookup | lib/hero_observer.rb:33 | a listed event gives its handler list; a missing event gives the empty list |
| Events.Dispatch | lib/hero_observer.rb:32-38 | a dispatch calls at most one handler per listed handler, and every one of them when it completes |
| Events.HeroObserver.Update | lib/hero_observer.rb:32-38 | the loop's calls, outcome and final world equal `Dispatch` over the handlers listed for the event (none when the event is missing); each handler is asked for `name` and then called with target and options; it modifies nothing, so the table stays as it was |
| Events.DispatchInOrder | lib/hero_observer.rb:34-37 | handlers are called in list order, each at most once, each with the same target and options; all of them when the run completes |
| Events.DispatchCompletes | lib/hero_observer.rb:34-37 | when every handler answers `name` and no call raises, every handler is called and the run completes |
| Events.OnlyListedHandlersRun | lib/hero_observer.rb:33-36 | only handlers listed under the event are called |

## Left out

- Steps and handlers are opaque. What a step does is the `beh` parameter. Ruby's duck typing (any object that responds to `call`) is collapsed into `Callable`.
- Log lines have no text. The model records who logs and the state at that moment. It does not model `inspect` formatting of the context and options in the log line (lib/hero/observer.rb:66).
- The logger is a bool. `Hero.logger` is a global that is read on each step. The model reads it once per run, so a step that sets or clears the logger mid-run is not modelled.
- Singletons and anonymous classes are not modelled. `register` builds `Class.new(Hero::Formula).instance`. The model builds a fresh `Formula` object, which has the same observable effect: a new, distinct formula per registration.
- Ruby's `Observable` is reduced to an `attached` flag. A formula holds only the observer `register` gives it. Other observers that outside code could attach are not modelled, and neither is the `changed` flag `notify` sets and `notify_observers` clears.
- Formulas.Formula.Notify: after `reset`, an orphaned formula's `run` calls nothing, because its observer is detached. This is the code's behaviour: `reset` calls `delete_observers` (lib/hero/formula.rb:15), and nothing reattaches the observer, so `notify` on a formula kept from before the reset has no one to notify.
- Formulas.Formula.Inspect: "one line per step" holds only as long as no formula or step name has a newline. Names with newlines give a report with more lines. The report's text is still defined for them.
- Steps.Observer.Update: the step list is read once, when the run starts. Ruby iterates the live `@steps` array (lib/hero/observer.rb:64), so a step that calls `add_step` on its own formula mid-run is called in the same pass, and one that calls `reset` detaches the formula during the run. The model does not capture this aliasing: its `Update` modifies nothing, and a step's behaviour can change only the abstract world.
- Formulas.Formula.Notify: the default `options={}` (lib/hero/formula.rb:58) is the single value `EmptyHash`. Ruby builds a new hash on every call, so two runs with default options get two different hashes. In the model they get the same one, and a step that fills it in one run would see those contents in the next. The model does not capture that each call has its own hash.
- The registry's `each` with a block is modelled as the sequence of pairs it would yield. Running the block is not modelled.
- `Hero::Formula.print` is not modelled, and neither is the aggregate report for all formulas the tests call. Neither is defined in lib/hero/formula.rb.
- In the dispatcher, `hero.instance.add_observer(self)` is left out (lib/hero_observer.rb:24). That hook into a Hero object is outside this model. `HeroObserver.Update` is called directly.
- Events.HeroObserver.Update: the `options={}` default argument is not modelled. The options are always passed.
- Steps.Observer.Update: the `options={}` default of `update` (lib/hero/observer.rb:63) is not modelled. The options are always passed. `notify` always passes two arguments, so the default is never used on that path.
- Events.HeroObserver.constructor: Ruby keeps the caller's hash itself (`@handlers = handlers`, lib/hero_observer.rb:23). If the caller later adds an event key to that hash, or appends a handler to one of its lists, the next `update` sees the change (lib/hero_observer.rb:33-34). The model keeps the table as a value and does not capture that aliasing.
- Formulas.Formula.Steps: Ruby's `steps` returns the live `@steps` array (lib/hero/observer.rb:17-19). A caller can change that array in place and bypass the name deduplication of `add_step`. The model returns the list as a value, so it does not capture that aliasing. The uniqueness of names holds only for lists built by `add_step`.
- Steps.Observer.AddStep: calls with the wrong number of arguments are not modelled. Ruby's arity check for `add_step(name, step=nil, &block)` (lib/hero/observer.rb:50) raises ArgumentError for zero arguments or for more than two positional arguments. The Dafny signature always takes exactly a name and a step, so neither case can be expressed.
- The logging tests expect "before" and "after" lines, and an error line when a step raises (spec/formula_spec.rb:197-230). The code writes one info line before each step and none after (lib/hero/observer.rb:65-67). The model follows the code.
- Class-name inference for formulas and name sanitising are not modelled. Neither exists in lib/hero/formula.rb.
- Steps.Observer.AddStep: step names are limited to Symbols and Strings (`Support.Name`), as lib/hero/observer.rb:47 documents. The tests expect `add_step MyStep` to infer the name from the class (spec/formula_spec.rb:17-46). The code has no such inference: such a call stores `[MyStep, nil]`, with the class as the name (lib/hero/observer.rb:50-53). The model cannot express a class used as a name.

## Findings

| source | as written | input that shows it | evidently intended | confidence | as-written member | corrected member |
|---|---|---|---|---|---|---|
| lib/hero/formula.rb:53 | `step.keys.first`, but a step is the Array `[name, step]`, which has no `keys` | any formula with at least one step, such as test_formula with steps one to four | the step's name, `step.first`, giving `"  1. one"` and so on | high, not executed | Formulas.InspectAsWritten (with Formulas.InspectAsWrittenMissesReport) | Formulas.Formula.Inspect (with Formulas.ReportOfFourSteps) |
| lib/hero/formula.rb:24 | `Hero::Observer.new` with no argument, while `initialize(formula_name)` takes one | `register(:test_formula)` | `Hero::Observer.new(name)`, giving an observer that reports the formula's name in its log lines | high, not executed | Formulas.Registry.RegisterAsWritten (with Formulas.Registry.GetAsWritten and Formulas.AsWrittenNeverStores) | Formulas.Registry.Register |
