/** The accounting of a stream of test results (selftest/subunithelper.py). */
module Subunit {
  import opened Wrappers

  datatype Outcome = Success | ExpectedFailure | UnexpectedSuccess | Failure | Skip | Error

  /** What is reported: tests are numbered as they start. An outcome without a number is
      for a test that was not running. */
  datatype Event = Start(id: nat, name: string) | Done(test: Option<nat>, name: string, outcome: Outcome)

  datatype Result =
    | Successful | KnownFail | UxSuccess | Fail | Skipped | Failing
    | SkipSuite | SuiteSuccess | SuiteFailure | SuiteXfail | SuiteUxSuccess | SuiteError

  datatype Command = Other | Test(name: string) | Verdict(result: Result, name: string, hasReason: bool)

  /** A line, as a command and as the possible end of a reason. */
  datatype Line = Line(command: Command, endsReason: bool)

  datatype Statistics = Statistics(
    expectedOk: nat, expectedFail: nat, unexpectedOk: nat, unexpectedFail: nat, skip: nat, error: nat)

  // ----- logs

  function Starts(log: seq<Event>): nat
  {
    if log == [] then 0 else Starts(log[..|log| - 1]) + if log[|log| - 1].Start? then 1 else 0
  }

  /** The tests that started and have no outcome yet. */
  function Running(log: seq<Event>): set<nat>
  {
    if log == [] then {} else RunningAfter(Running(log[..|log| - 1]), log[|log| - 1])
  }

  function RunningAfter(tests: set<nat>, event: Event): set<nat>
  {
    match event
    case Start(id, _) => tests + {id}
    case Done(test, _, _) => if test.Some? then tests - {test.value} else tests
  }

  /** Tests are numbered in order, and only a running one has an outcome. */
  predicate Proper(log: seq<Event>)
  {
    log == [] ||
    var (before, event) := (log[..|log| - 1], log[|log| - 1]);
    && Proper(before)
    && (event.Start? ==> event.id == Starts(before))
    && (event.Done? && event.test.Some? ==> event.test.value in Running(before))
  }

  function OutcomesOf(log: seq<Event>, id: nat): nat
  {
    if log == [] then 0
    else
      var (before, event) := (log[..|log| - 1], log[|log| - 1]);
      OutcomesOf(before, id) + if event.Done? && event.test == Some(id) then 1 else 0
  }

  function Counted(s: Statistics, outcome: Outcome): Statistics
  {
    match outcome
    case Success => s.(expectedOk := s.expectedOk + 1)
    case ExpectedFailure => s.(expectedFail := s.expectedFail + 1)
    case UnexpectedSuccess => s.(unexpectedOk := s.unexpectedOk + 1)
    case Failure => s.(unexpectedFail := s.unexpectedFail + 1)
    case Skip => s.(skip := s.skip + 1)
    case Error => s.(error := s.error + 1)
  }

  const NONE := Statistics(0, 0, 0, 0, 0, 0)

  /** The outcomes in a log. */
  function Totals(log: seq<Event>): Statistics
  {
    if log == [] then NONE
    else
      var (before, event) := (Totals(log[..|log| - 1]), log[|log| - 1]);
      if event.Done? then Counted(before, event.outcome) else before
  }

  /** In a proper log a test has one outcome unless it is still running. */
  lemma {:induction false} OutcomesCounted(log: seq<Event>, id: nat)
    requires Proper(log)
    ensures OutcomesOf(log, id) == if id < Starts(log) && id !in Running(log) then 1 else 0
    ensures id in Running(log) ==> id < Starts(log)
    decreases |log|
  {
    if log != [] {
      OutcomesCounted(log[..|log| - 1], id);
    }
  }

  lemma LogNext(log: seq<Event>, event: Event)
    ensures Starts(log + [event]) == Starts(log) + if event.Start? then 1 else 0
    ensures Running(log + [event]) == RunningAfter(Running(log), event)
    ensures Proper(log + [event]) <==>
      && Proper(log)
      && (event.Start? ==> event.id == Starts(log))
      && (event.Done? && event.test.Some? ==> event.test.value in Running(log))
    ensures Totals(log + [event]) == if event.Done? then Counted(Totals(log), event.outcome) else Totals(log)
  {
    assert (log + [event])[..|log|] == log;
  }

  /** The names of the running tests, each with its number. */
  ghost predicate InStep(openTests: map<string, nat>, log: seq<Event>)
  {
    && openTests.Values == Running(log)
    && (forall m, n {:trigger openTests[m], openTests[n]} ::
      m in openTests && n in openTests && openTests[m] == openTests[n] ==> m == n)
  }

  ghost predicate Consistent(openTests: map<string, nat>, started: nat, log: seq<Event>)
  {
    Proper(log) && started == Starts(log) && InStep(openTests, log)
  }

  /** Every counter has grown by the outcomes of its kind; restarts are errors that are
      not counted. */
  predicate Accounts(base: Statistics, now: Statistics, log: seq<Event>, restarts: nat)
  {
    && now.expectedOk == base.expectedOk + Totals(log).expectedOk
    && now.expectedFail == base.expectedFail + Totals(log).expectedFail
    && now.unexpectedOk == base.unexpectedOk + Totals(log).unexpectedOk
    && now.unexpectedFail == base.unexpectedFail + Totals(log).unexpectedFail
    && now.skip == base.skip + Totals(log).skip
    && now.error + restarts == base.error + Totals(log).error
    && restarts <= Totals(log).error
  }

  predicate NoneUnexpected(base: Statistics, now: Statistics)
  {
    now.error == base.error && now.unexpectedOk == base.unexpectedOk && now.unexpectedFail == base.unexpectedFail
  }

  predicate BadSuite(result: Result)
  {
    result in {SuiteFailure, SuiteUxSuccess, SuiteError}
  }

  predicate Unexpected(outcome: Outcome)
  {
    outcome in {UnexpectedSuccess, Failure, Error}
  }

  // ----- what the stream says

  /** The commands outside reasons, and the name whose reason was cut short, if one was. */
  datatype Parsed = Parsed(commands: seq<Command>, cut: Option<string>)

  /** How many lines a reason takes, or more than there are. */
  function ReasonLength(lines: seq<Line>): (n: nat)
    ensures 0 < n <= |lines| + 1
  {
    if lines == [] || lines[0].endsReason then 1 else 1 + ReasonLength(lines[1..])
  }

  function Parse(lines: seq<Line>): Parsed
    decreases |lines|
  {
    if lines == [] then Parsed([], None)
    else
      var (command, rest) := (lines[0].command, lines[1..]);
      if command.Verdict? && command.hasReason then
        var n := ReasonLength(rest);
        if n > |rest| then Parsed([], Some(command.name)) else After(command, Parse(rest[n..]))
      else After(command, Parse(rest))
  }

  function After(command: Command, rest: Parsed): Parsed
  {
    rest.(commands := [command] + rest.commands)
  }

  predicate IsSuite(result: Result)
  {
    result in {SkipSuite, SuiteSuccess, SuiteFailure, SuiteXfail, SuiteUxSuccess, SuiteError}
  }

  /** The names of the tests that run after some commands. */
  function OpenNames(commands: seq<Command>): set<string>
  {
    if commands == [] then {}
    else NamesAfter(OpenNames(commands[..|commands| - 1]), commands[|commands| - 1])
  }

  function NamesAfter(names: set<string>, command: Command): set<string>
  {
    match command
    case Other => names
    case Test(name) => names + {name}
    case Verdict(result, name, _) => if IsSuite(result) then names else names - {name}
  }

  /** What a command reports when the named tests run. */
  function OutcomeOf(names: set<string>, command: Command): Option<Outcome>
  {
    match command
    case Other => None
    case Test(name) => if name in names then Some(Error) else None
    case Verdict(result, name, _) => Judgement(result, name in names)
  }

  function Judgement(result: Result, running: bool): Option<Outcome>
  {
    match result
    case Skipped => Some(Skip)
    case Failing => Some(Error)
    case Successful => Some(if running then Success else Error)
    case KnownFail => Some(if running then ExpectedFailure else Error)
    case UxSuccess => Some(if running then UnexpectedSuccess else Error)
    case Fail => Some(if running then Failure else Error)
    case _ => None
  }

  /** The running tests by name, how many have started, and what has been reported. */
  datatype Books = Books(open: map<string, nat>, started: nat, log: seq<Event>)

  function IdOf(open: map<string, nat>, name: string): Option<nat>
  {
    if name in open then Some(open[name]) else None
  }

  /** What a command does to the books: the outcome goes to the test of that name. */
  function Entered(b: Books, command: Command): Books
  {
    match command
    case Other => b
    case Test(name) => Begun(if name in b.open then Ended(b, name, Error) else b, name)
    case Verdict(result, name, _) => Judged(b, result, name)
  }

  function Judged(b: Books, result: Result, name: string): Books
  {
    var outcome := Judgement(result, name in b.open);
    if outcome.Some? then Ended(b, name, outcome.value) else b
  }

  function Begun(b: Books, name: string): Books
  {
    Books(b.open[name := b.started], b.started + 1, b.log + [Start(b.started, name)])
  }

  function Ended(b: Books, name: string, outcome: Outcome): Books
  {
    Books(b.open - {name}, b.started, b.log + [Done(IdOf(b.open, name), name, outcome)])
  }

  /** The books after some commands. */
  function Kept(commands: seq<Command>): Books
  {
    if commands == [] then Books(map[], 0, [])
    else Entered(Kept(commands[..|commands| - 1]), commands[|commands| - 1])
  }

  /** The tests that run at the end have an error each, in some order. */
  predicate Leftovers(left: seq<Event>, open: map<string, nat>)
  {
    |left| == |open| && Dropped(left, open)
  }

  /** These tests, each once, were dropped. */
  predicate Dropped(left: seq<Event>, open: map<string, nat>)
  {
    && (forall i {:trigger left[i]} :: 0 <= i < |left| ==>
      left[i].Done? && left[i].name in open && left[i] == Done(Some(open[left[i].name]), left[i].name, Error))
    && (forall i, j {:trigger left[i], left[j]} :: 0 <= i < j < |left| ==> left[i].name != left[j].name)
  }

  /** The outcomes some commands report. */
  function Tally(commands: seq<Command>): Statistics
  {
    if commands == [] then NONE
    else
      var (before, last) := (commands[..|commands| - 1], commands[|commands| - 1]);
      var outcome := OutcomeOf(OpenNames(before), last);
      if outcome.Some? then Counted(Tally(before), outcome.value) else Tally(before)
  }

  /** Nothing is wrong with a command when the named tests run. */
  predicate Fine(names: set<string>, command: Command)
  {
    match command
    case Other => true
    case Test(name) => true
    case Verdict(result, name, _) => FineResult(result, name in names)
  }

  predicate FineResult(result: Result, running: bool)
  {
    match result
    case Successful => running
    case KnownFail => running
    case Skipped => true
    case UxSuccess => false
    case Fail => false
    case Failing => false
    case _ => !BadSuite(result)
  }

  predicate AllFine(commands: seq<Command>)
  {
    commands == [] ||
    var before := commands[..|commands| - 1];
    AllFine(before) && Fine(OpenNames(before), commands[|commands| - 1])
  }

  predicate SomeBadSuite(commands: seq<Command>)
  {
    exists i :: 0 <= i < |commands| && commands[i].Verdict? && BadSuite(commands[i].result)
  }

  function Tests(commands: seq<Command>): nat
  {
    if commands == [] then 0
    else Tests(commands[..|commands| - 1]) + if commands[|commands| - 1].Test? then 1 else 0
  }

  /** How often a test starts while one of its name runs. */
  function Restarts(commands: seq<Command>): nat
  {
    if commands == [] then 0
    else
      var (before, last) := (commands[..|commands| - 1], commands[|commands| - 1]);
      Restarts(before) + if last.Test? && last.name in OpenNames(before) then 1 else 0
  }

  lemma EnteredTotals(b: Books, command: Command)
    ensures var outcome := OutcomeOf(b.open.Keys, command);
      Totals(Entered(b, command).log) == if outcome.Some? then Counted(Totals(b.log), outcome.value) else Totals(b.log)
  {
    match command {
      case Other =>
      case Test(name) =>
        var mid := if name in b.open then Ended(b, name, Error) else b;
        LogNext(b.log, Done(IdOf(b.open, name), name, Error));
        LogNext(mid.log, Start(b.started, name));
      case Verdict(_, name, _) =>
        var outcome := OutcomeOf(b.open.Keys, command);
        if outcome.Some? {
          LogNext(b.log, Done(IdOf(b.open, name), name, outcome.value));
        }
    }
  }

  lemma EnteredNames(b: Books, command: Command)
    ensures Entered(b, command).open.Keys == NamesAfter(b.open.Keys, command)
    ensures Entered(b, command).started == b.started + if command.Test? then 1 else 0
  {
    if command.Verdict? {
      assert Judgement(command.result, command.name in b.open).None? <==> IsSuite(command.result);
    }
  }

  /** The books agree with what is counted from the commands alone. */
  lemma {:induction false} KeptAgrees(commands: seq<Command>)
    ensures var b := Kept(commands);
      b.open.Keys == OpenNames(commands) && b.started == Tests(commands) && Totals(b.log) == Tally(commands)
    decreases |commands|
  {
    if commands != [] {
      var (before, last) := (commands[..|commands| - 1], commands[|commands| - 1]);
      KeptAgrees(before);
      EnteredTotals(Kept(before), last);
      EnteredNames(Kept(before), last);
    }
  }

  lemma CommandNext(done: seq<Command>, command: Command)
    ensures Kept(done + [command]) == Entered(Kept(done), command)
    ensures AllFine(done + [command]) <==> AllFine(done) && Fine(OpenNames(done), command)
    ensures SomeBadSuite(done + [command]) <==> SomeBadSuite(done) || (command.Verdict? && BadSuite(command.result))
    ensures Restarts(done + [command]) ==
      Restarts(done) + if command.Test? && command.name in OpenNames(done) then 1 else 0
  {
    var all := done + [command];
    assert all[..|done|] == done && all[|done|] == command;
    assert forall i :: 0 <= i < |done| ==> all[i] == done[i];
  }

  // ----- the parser

  class Parser {
    var openTests: map<string, nat>
    var statistics: Statistics
    var exitCode: int
    var started: nat
    ghost var log: seq<Event>
    ghost var restarts: nat
    ghost var badSuite: bool
    ghost const base: Statistics

    ghost predicate Valid()
      reads this
    {
      && Consistent(openTests, started, log)
      && Accounts(base, statistics, log, restarts)
      && (exitCode == 0 || exitCode == 1)
      && (exitCode == 0 <==> NoneUnexpected(base, statistics) && !badSuite)
    }

    ghost function State(): Books
      reads this
    {
      Books(openTests, started, log)
    }

    constructor (statistics: Statistics)
      ensures Valid() && base == statistics && openTests == map[]
      ensures log == [] && restarts == 0 && started == 0 && exitCode == 0 && !badSuite
    {
      openTests, this.statistics, exitCode, started := map[], statistics, 0, 0;
      log, restarts, badSuite, base := [], 0, false, statistics;
    }

    /** The test of a name, if it runs, has an outcome, which is counted. */
    method Conclude(name: string, outcome: Outcome)
      requires Valid()
      modifies this
      ensures Valid() && State() == Ended(old(State()), name, outcome)
      ensures restarts == old(restarts) && badSuite == old(badSuite)
      ensures exitCode == if Unexpected(outcome) then 1 else old(exitCode)
    {
      ghost var event := Done(IdOf(openTests, name), name, outcome);
      LogNext(log, event);
      Popped(openTests, name, started, log, event);
      AccountsNext(base, statistics, log, restarts, event);
      log, openTests, statistics := log + [event], openTests - {name}, Counted(statistics, outcome);
      exitCode := if Unexpected(outcome) then 1 else exitCode;
    }

    /** A test that runs ends with an error, which neither the statistics nor the exit code
        show. */
    method Restart(name: string)
      requires Valid() && name in openTests
      modifies this
      ensures Valid() && State() == Ended(old(State()), name, Error)
      ensures restarts == old(restarts) + 1 && badSuite == old(badSuite) && exitCode == old(exitCode)
    {
      ghost var event := Done(Some(openTests[name]), name, Error);
      LogNext(log, event);
      Popped(openTests, name, started, log, event);
      AccountsRestart(base, statistics, log, restarts, event);
      log := log + [event];
      openTests := openTests - {name};
      restarts := restarts + 1;
    }

    method Begin(name: string)
      requires Valid() && name !in openTests
      modifies this
      ensures Valid() && State() == Begun(old(State()), name)
      ensures restarts == old(restarts) && badSuite == old(badSuite) && exitCode == old(exitCode)
    {
      LogNext(log, Start(started, name));
      Pushed(openTests, name, started, log);
      AccountsStart(base, statistics, log, restarts, Start(started, name));
      log, openTests, started := log + [Start(started, name)], openTests[name := started], started + 1;
    }

    /** A test starts; one of the same name that runs ends. */
    method StartTest(name: string)
      requires Valid()
      modifies this
      ensures Valid() && State() == Entered(old(State()), Test(name))
      ensures restarts == old(restarts) + if name in old(openTests) then 1 else 0
      ensures badSuite == old(badSuite) && exitCode == old(exitCode)
    {
      if name in openTests {
        Restart(name);
      }
      Begin(name);
    }

    /** A suite ended. */
    method EndSuite(result: Result)
      requires Valid() && IsSuite(result)
      modifies this`exitCode, this`badSuite
      ensures Valid() && badSuite == (old(badSuite) || BadSuite(result))
      ensures exitCode == if BadSuite(result) then 1 else old(exitCode)
    {
      if BadSuite(result) {
        exitCode := 1;
        badSuite := true;
      }
    }

    method Decide(result: Result, name: string)
      requires Valid()
      modifies this
      ensures Valid() && restarts == old(restarts)
      ensures State() == Judged(old(State()), result, name)
      ensures badSuite == (old(badSuite) || BadSuite(result))
      ensures exitCode == 0 <==> old(exitCode) == 0 && FineResult(result, name in old(openTests))
    {
      if IsSuite(result) {
        EndSuite(result);
      } else if result in {Skipped, Failing} {
        Conclude(name, if result == Skipped then Skip else Error);
      } else if name !in openTests {
        Conclude(name, Error);
      } else {
        var outcome := match result
          case Successful => Success
          case KnownFail => ExpectedFailure
          case UxSuccess => UnexpectedSuccess
          case _ => Failure;
        Conclude(name, outcome);
      }
    }

    /** The stream ended inside a reason: the error is not for a running test. */
    method Interrupt(name: string)
      requires Valid()
      modifies this
      ensures Valid() && State() == Books(old(openTests), old(started), old(log) + [Done(None, name, Error)])
      ensures restarts == old(restarts) && badSuite == old(badSuite) && exitCode == 1
    {
      ghost var event := Done(None, name, Error);
      LogNext(log, event);
      AccountsNext(base, statistics, log, restarts, event);
      log, statistics, exitCode := log + [event], Counted(statistics, Error), 1;
    }

    /** Tests that still run at the end end with an error. */
    method FinishTests()
      requires Valid()
      modifies this
      ensures Valid() && Running(log) == {}
      ensures started == old(started) && restarts == old(restarts) && badSuite == old(badSuite)
      ensures exitCode == if old(openTests) == map[] then old(exitCode) else 1
      ensures old(log) <= log && Leftovers(log[|old(log)|..], old(openTests))
    {
      ghost var left: seq<Event> := [];
      while openTests != map[]
        invariant Valid()
        invariant started == old(started) && restarts == old(restarts) && badSuite == old(badSuite)
        invariant exitCode == if left == [] then old(exitCode) else 1
        invariant log == old(log) + left && DroppedFrom(left, old(openTests), openTests)
        decreases |openTests|
      {
        var name :| name in openTests;
        OneFewer(openTests, name);
        DropOne(left, old(openTests), openTests, name);
        Longer(old(log), left, Done(Some(openTests[name]), name, Error));
        Conclude(name, Error);
        left := left + [Done(Some(old(openTests)[name]), name, Error)];
      }
      assert openTests.Values == {};
    }
  }

  lemma Longer(a: seq<Event>, b: seq<Event>, e: Event)
    ensures (a + b) + [e] == a + (b + [e])
  {
  }

  /** Those dropped and those still open make up all. */
  predicate DroppedFrom(left: seq<Event>, all: map<string, nat>, open: map<string, nat>)
  {
    && Dropped(left, all) && |left| + |open| == |all|
    && (forall n :: n in open ==> n in all && open[n] == all[n])
    && (forall i {:trigger left[i]} :: 0 <= i < |left| ==> left[i].name !in open)
  }

  lemma DropOne(left: seq<Event>, all: map<string, nat>, open: map<string, nat>, name: string)
    requires DroppedFrom(left, all, open) && name in open
    ensures name in all && all[name] == open[name]
    ensures DroppedFrom(left + [Done(Some(all[name]), name, Error)], all, open - {name})
  {
    OneFewer(open, name);
  }

  /** Each of them is one error more. */
  lemma {:induction false} DroppedTotals(log: seq<Event>, left: seq<Event>, open: map<string, nat>)
    requires Dropped(left, open)
    ensures Totals(log + left) == Totals(log).(error := Totals(log).error + |left|)
    decreases |left|
  {
    if left == [] {
      assert log + left == log;
    } else {
      var (init, last) := (left[..|left| - 1], left[|left| - 1]);
      DroppedTotals(log, init, open);
      assert log + left == (log + init) + [last];
      LogNext(log + init, last);
    }
  }

  lemma LeftoverTotals(before: seq<Event>, log: seq<Event>, open: map<string, nat>)
    requires before <= log && Leftovers(log[|before|..], open)
    ensures Totals(log) == Totals(before).(error := Totals(before).error + |open|)
  {
    assert log == before + log[|before|..];
    DroppedTotals(before, log[|before|..], open);
  }

  lemma OneFewer(tests: map<string, nat>, name: string)
    requires name in tests
    ensures |tests - {name}| == |tests| - 1
  {
    assert tests.Keys == (tests - {name}).Keys + {name};
    assert |tests.Keys| == |(tests - {name}).Keys| + 1;
  }

  lemma Popped(openTests: map<string, nat>, name: string, started: nat, log: seq<Event>, event: Event)
    requires Consistent(openTests, started, log)
    requires event.Done? && event.test == if name in openTests then Some(openTests[name]) else None
    ensures Consistent(openTests - {name}, started, log + [event])
  {
    LogNext(log, event);
    var fewer := openTests - {name};
    forall id | id in Running(log + [event])
      ensures exists n :: n in fewer && fewer[n] == id
    {
      var n :| n in openTests && openTests[n] == id;
      assert n in fewer && fewer[n] == id;
    }
  }

  lemma Pushed(openTests: map<string, nat>, name: string, started: nat, log: seq<Event>)
    requires Consistent(openTests, started, log) && name !in openTests
    ensures Consistent(openTests[name := started], started + 1, log + [Start(started, name)])
  {
    LogNext(log, Start(started, name));
    OutcomesCounted(log, started);
    var more := openTests[name := started];
    forall id | id in Running(log) + {started}
      ensures exists n :: n in more && more[n] == id
    {
      if id != started {
        var n :| n in openTests && openTests[n] == id;
        assert n in more && more[n] == id;
      } else {
        assert more[name] == id;
      }
    }
  }

  lemma AccountsNext(base: Statistics, now: Statistics, log: seq<Event>, restarts: nat, event: Event)
    requires Accounts(base, now, log, restarts) && event.Done?
    ensures Accounts(base, Counted(now, event.outcome), log + [event], restarts)
    ensures NoneUnexpected(base, Counted(now, event.outcome)) <==>
      NoneUnexpected(base, now) && !Unexpected(event.outcome)
  {
    LogNext(log, event);
  }

  lemma AccountsRestart(base: Statistics, now: Statistics, log: seq<Event>, restarts: nat, event: Event)
    requires Accounts(base, now, log, restarts) && event.Done? && event.outcome == Error
    ensures Accounts(base, now, log + [event], restarts + 1)
  {
    LogNext(log, event);
  }

  lemma AccountsStart(base: Statistics, now: Statistics, log: seq<Event>, restarts: nat, event: Event)
    requires Accounts(base, now, log, restarts) && event.Start?
    ensures Accounts(base, now, log + [event], restarts)
  {
    LogNext(log, event);
  }

  method SkipReason(lines: seq<Line>) returns (n: nat)
    ensures n == ReasonLength(lines)
  {
    n := 0;
    assert lines[0..] == lines;
    while n < |lines| && !lines[n].endsReason
      invariant n <= |lines|
      invariant n + ReasonLength(lines[n..]) == ReasonLength(lines)
    {
      assert lines[n..][1..] == lines[n + 1..];
      n := n + 1;
    }
    n := n + 1;
  }

  /** The next command, with its reason, which may be cut short. */
  method ReadCommand(lines: seq<Line>) returns (command: Command, cut: bool, rest: seq<Line>)
    requires lines != []
    ensures |rest| < |lines| && (cut ==> command.Verdict?)
    ensures Parse(lines) == if cut then Parsed([], Some(command.name)) else After(command, Parse(rest))
  {
    command, cut, rest := lines[0].command, false, lines[1..];
    if command.Verdict? && command.hasReason {
      var n := SkipReason(rest);
      if n > |rest| {
        return command, true, rest;
      }
      rest := rest[n..];
    }
  }

  lemma ParsedNext(done: seq<Command>, command: Command, rest: Parsed)
    ensures done + After(command, rest).commands == (done + [command]) + rest.commands
  {
  }

  /** What the parser knows after some commands. */
  ghost predicate Follows(p: Parser, done: seq<Command>)
    reads p
  {
    && p.Valid()
    && p.State() == Kept(done) && p.restarts == Restarts(done)
    && p.badSuite == SomeBadSuite(done)
    && (p.exitCode == 0 <==> AllFine(done))
  }

  /** One command. */
  method Process(p: Parser, command: Command, ghost done: seq<Command>)
    requires Follows(p, done)
    modifies p
    ensures Follows(p, done + [command])
  {
    CommandNext(done, command);
    KeptAgrees(done);
    match command {
      case Other =>
      case Test(name) => p.StartTest(name);
      case Verdict(result, name, _) => p.Decide(result, name);
    }
  }

  /** How many tests still run at the end, each of which is an error; a reason that is cut
      short is one error. */
  function Leftover(parsed: Parsed): nat
  {
    if parsed.cut.Some? then 1 else |OpenNames(parsed.commands)|
  }

  /** What comes of a stream: the exit code is 0 if and only if every command is fine, no
      test is left running and no reason is cut short; equivalently, if no counter of
      errors or unexpected outcomes grew and no suite was bad. The counters grow by what
      the commands report and by the leftovers, except that restarts are not counted. */
  predicate Accounted(parsed: Parsed, before: Statistics, exitCode: int, after: Statistics)
  {
    var (commands, all) := (parsed.commands, Tally(parsed.commands));
    && (exitCode == 0 || exitCode == 1)
    && (exitCode == 0 <==> AllFine(commands) && OpenNames(commands) == {} && parsed.cut.None?)
    && (exitCode == 0 <==> NoneUnexpected(before, after) && !SomeBadSuite(commands))
    && after.error + Restarts(commands) == before.error + all.error + Leftover(parsed)
    && after.(error := 0) == Statistics(
      before.expectedOk + all.expectedOk, before.expectedFail + all.expectedFail,
      before.unexpectedOk + all.unexpectedOk, before.unexpectedFail + all.unexpectedFail, before.skip + all.skip, 0)
  }

  /** Command `i` is a verdict of this kind, for a test that runs or not. */
  predicate IsVerdict(commands: seq<Command>, i: nat, result: Result, running: bool)
    requires i < |commands|
  {
    && commands[i].Verdict? && commands[i].result == result
    && (commands[i].name in OpenNames(commands[..i])) == running
  }

  /** How many of the first `n` commands are. */
  function HowMany(commands: seq<Command>, n: nat, result: Result, running: bool): nat
    requires n <= |commands|
  {
    if n == 0 then 0
    else HowMany(commands, n - 1, result, running) + if IsVerdict(commands, n - 1, result, running) then 1 else 0
  }

  /** Every counter by the verdicts it counts: good, expected to fail, unexpectedly good and
      bad ones of running tests, skips in any case, and as errors those that say so, those
      of tests that do not run and the restarts. */
  predicate TalliedUpTo(commands: seq<Command>, n: nat, s: Statistics)
    requires n <= |commands|
  {
    && s.expectedOk == HowMany(commands, n, Successful, true)
    && s.expectedFail == HowMany(commands, n, KnownFail, true)
    && s.unexpectedOk == HowMany(commands, n, UxSuccess, true)
    && s.unexpectedFail == HowMany(commands, n, Fail, true)
    && s.skip == HowMany(commands, n, Skipped, true) + HowMany(commands, n, Skipped, false)
    && s.error == HowMany(commands, n, Failing, true) + HowMany(commands, n, Failing, false)
       + HowMany(commands, n, Successful, false) + HowMany(commands, n, KnownFail, false)
       + HowMany(commands, n, UxSuccess, false) + HowMany(commands, n, Fail, false)
       + Restarts(commands[..n])
  }

  lemma {:induction false} TallyIs(commands: seq<Command>, n: nat)
    requires n <= |commands|
    ensures TalliedUpTo(commands, n, Tally(commands[..n]))
  {
    if n == 0 {
      NothingTallied(commands);
    } else {
      TallyIs(commands, n - 1);
      OneTallied(commands, n - 1);
    }
  }

  lemma NothingTallied(commands: seq<Command>)
    ensures TalliedUpTo(commands, 0, Tally(commands[..0]))
  {
    assert commands[..0] == [];
  }

  lemma OneTallied(commands: seq<Command>, n: nat)
    requires n < |commands| && TalliedUpTo(commands, n, Tally(commands[..n]))
    ensures TalliedUpTo(commands, n + 1, Tally(commands[..n + 1]))
  {
    TallyNext(commands, n);
    if commands[n].Verdict? {
      VerdictTallied(commands, n, Tally(commands[..n]));
    } else {
      RestartTallied(commands, n, Tally(commands[..n]));
    }
  }

  lemma TallyNext(commands: seq<Command>, n: nat)
    requires n < |commands|
    ensures var outcome := OutcomeOf(OpenNames(commands[..n]), commands[n]);
      Tally(commands[..n + 1]) ==
        if outcome.Some? then Counted(Tally(commands[..n]), outcome.value) else Tally(commands[..n])
    ensures Restarts(commands[..n + 1]) == Restarts(commands[..n]) +
      if commands[n].Test? && commands[n].name in OpenNames(commands[..n]) then 1 else 0
  {
    assert commands[..n + 1][..n] == commands[..n] && commands[..n + 1][n] == commands[n];
  }

  lemma AllNext(commands: seq<Command>, n: nat)
    requires n < |commands|
    ensures forall result: Result, running: bool {:trigger HowMany(commands, n + 1, result, running)} ::
      HowMany(commands, n + 1, result, running) == HowMany(commands, n, result, running) +
      if IsVerdict(commands, n, result, running) then 1 else 0
  {
  }

  lemma VerdictTallied(commands: seq<Command>, n: nat, s: Statistics)
    requires n < |commands| && commands[n].Verdict? && TalliedUpTo(commands, n, s)
    requires Restarts(commands[..n + 1]) == Restarts(commands[..n])
    ensures var outcome := Judgement(commands[n].result, commands[n].name in OpenNames(commands[..n]));
      TalliedUpTo(commands, n + 1, if outcome.Some? then Counted(s, outcome.value) else s)
  {
    AllNext(commands, n);
  }

  lemma RestartTallied(commands: seq<Command>, n: nat, s: Statistics)
    requires n < |commands| && !commands[n].Verdict? && TalliedUpTo(commands, n, s)
    ensures var outcome := OutcomeOf(OpenNames(commands[..n]), commands[n]);
      TalliedUpTo(commands, n + 1, if outcome.Some? then Counted(s, outcome.value) else s)
  {
    AllNext(commands, n);
    TallyNext(commands, n);
  }

  /** What a stream comes to, counted line by line: the errors also have the tests left over
      or the reason cut short, but not the restarts. */
  predicate CountedIn(parsed: Parsed, before: Statistics, exitCode: int, after: Statistics)
  {
    var (cs, n) := (parsed.commands, |parsed.commands|);
    && after.expectedOk == before.expectedOk + HowMany(cs, n, Successful, true)
    && after.expectedFail == before.expectedFail + HowMany(cs, n, KnownFail, true)
    && after.unexpectedOk == before.unexpectedOk + HowMany(cs, n, UxSuccess, true)
    && after.unexpectedFail == before.unexpectedFail + HowMany(cs, n, Fail, true)
    && after.skip == before.skip + HowMany(cs, n, Skipped, true) + HowMany(cs, n, Skipped, false)
    && after.error == before.error + HowMany(cs, n, Failing, true) + HowMany(cs, n, Failing, false)
       + HowMany(cs, n, Successful, false) + HowMany(cs, n, KnownFail, false)
       + HowMany(cs, n, UxSuccess, false) + HowMany(cs, n, Fail, false)
       + (if parsed.cut.Some? then 1 else |OpenNames(cs)|)
    && (exitCode == 0 <==>
      && after.error == before.error && after.unexpectedOk == before.unexpectedOk
      && after.unexpectedFail == before.unexpectedFail
      && forall i :: 0 <= i < n && cs[i].Verdict? ==>
        cs[i].result != SuiteFailure && cs[i].result != SuiteUxSuccess && cs[i].result != SuiteError)
  }

  lemma AccountedIsCounted(parsed: Parsed, before: Statistics, exitCode: int, after: Statistics)
    requires Accounted(parsed, before, exitCode, after)
    ensures CountedIn(parsed, before, exitCode, after)
  {
    var (cs, n) := (parsed.commands, |parsed.commands|);
    TallyIs(cs, n);
    assert cs[..n] == cs;
  }

  /** A reason takes up to the line that ends it, whatever commands its lines look like. */
  lemma {:induction false} ReasonIsSkipped(command: Command, reason: seq<Line>, end: Line, rest: seq<Line>,
                                           first: Line)
    requires command.Verdict? && command.hasReason && first.command == command
    requires end.endsReason && forall i :: 0 <= i < |reason| ==> !reason[i].endsReason
    ensures Parse([first] + reason + [end] + rest) == After(command, Parse(rest))
  {
    var lines := [first] + reason + [end] + rest;
    assert lines[1..] == reason + ([end] + rest);
    ReasonEnds(reason, [end] + rest);
    assert (reason + ([end] + rest))[|reason| + 1..] == rest;
  }

  lemma {:induction false} ReasonEnds(reason: seq<Line>, rest: seq<Line>)
    requires rest != [] && rest[0].endsReason && forall i :: 0 <= i < |reason| ==> !reason[i].endsReason
    ensures ReasonLength(reason + rest) == |reason| + 1
  {
    if reason == [] {
      assert reason + rest == rest;
    } else {
      assert (reason + rest)[1..] == reason[1..] + rest;
      ReasonEnds(reason[1..], rest);
    }
  }

  /** Without such a line the stream ends with the name it was for. */
  lemma ReasonIsCut(command: Command, reason: seq<Line>, first: Line)
    requires command.Verdict? && command.hasReason && first.command == command
    requires forall i :: 0 <= i < |reason| ==> !reason[i].endsReason
    ensures Parse([first] + reason) == Parsed([], Some(command.name))
  {
    assert ([first] + reason)[1..] == reason;
    NeverEnds(reason);
  }

  lemma {:induction false} NeverEnds(reason: seq<Line>)
    requires forall i :: 0 <= i < |reason| ==> !reason[i].endsReason
    ensures ReasonLength(reason) == |reason| + 1
  {
    if reason != [] {
      NeverEnds(reason[1..]);
    }
  }

  /** Other lines are commands one by one. */
  lemma PlainLines(first: Line, rest: seq<Line>)
    requires !(first.command.Verdict? && first.command.hasReason)
    ensures Parse([first] + rest) == After(first.command, Parse(rest))
  {
    assert ([first] + rest)[1..] == rest;
  }

  /** What is reported: what the commands say, each outcome for the test of its name, and
      then the leftovers. Tests are numbered as they start, only a running test has an
      outcome, and unless a reason is cut short no test is left without one. */
  predicate Reported(parsed: Parsed, log: seq<Event>)
  {
    var (all, books) := (Tally(parsed.commands), Kept(parsed.commands));
    && books.log <= log
    && (if parsed.cut.Some? then log == books.log + [Done(None, parsed.cut.value, Error)]
        else Leftovers(log[|books.log|..], books.open))
    && Proper(log) && Starts(log) == Tests(parsed.commands)
    && (parsed.cut.None? ==> Running(log) == {})
    && Totals(log) == all.(error := all.error + Leftover(parsed))
  }

  /** What is reported at the end of the stream. */
  lemma EndReported(done: seq<Command>, log: seq<Event>)
    requires var b := Kept(done);
      && b.log <= log && Leftovers(log[|b.log|..], b.open)
      && Proper(log) && Starts(log) == b.started && Running(log) == {}
    ensures Reported(Parsed(done, None), log)
  {
    var b := Kept(done);
    KeptAgrees(done);
    LeftoverTotals(b.log, log, b.open);
    assert |b.open| == |b.open.Keys|;
  }

  lemma EndAccounted(done: seq<Command>, base: Statistics, exitCode: int, now: Statistics, log: seq<Event>)
    requires Totals(log) == Tally(done).(error := Tally(done).error + |OpenNames(done)|)
    requires Accounts(base, now, log, Restarts(done))
    requires exitCode == 0 || exitCode == 1
    requires exitCode == 0 <==> NoneUnexpected(base, now) && !SomeBadSuite(done)
    requires exitCode == 0 <==> AllFine(done) && OpenNames(done) == {}
    ensures Accounted(Parsed(done, None), base, exitCode, now)
  {
  }

  /** The end of the stream. */
  method AtEnd(p: Parser, ghost done: seq<Command>)
    requires Follows(p, done)
    modifies p
    ensures Accounted(Parsed(done, None), p.base, p.exitCode, p.statistics) && Reported(Parsed(done, None), p.log)
  {
    KeptAgrees(done);
    assert p.openTests == map[] <==> p.openTests.Keys == {};
    p.FinishTests();
    EndReported(done, p.log);
    EndAccounted(done, p.base, p.exitCode, p.statistics, p.log);
  }

  /** The end of the stream inside a reason. */
  method CutShort(p: Parser, name: string, ghost done: seq<Command>)
    requires Follows(p, done)
    modifies p
    ensures Accounted(Parsed(done, Some(name)), p.base, p.exitCode, p.statistics)
    ensures Reported(Parsed(done, Some(name)), p.log)
  {
    KeptAgrees(done);
    LogNext(p.log, Done(None, name, Error));
    p.Interrupt(name);
  }

  /** parse_results. */
  method ParseResults(lines: seq<Line>, statistics: Statistics)
    returns (exitCode: int, after: Statistics, ghost log: seq<Event>)
    ensures Accounted(Parse(lines), statistics, exitCode, after) && CountedIn(Parse(lines), statistics, exitCode, after)
    ensures Reported(Parse(lines), log)
  {
    var p := new Parser(statistics);
    var rest := lines;
    ghost var done: seq<Command> := [];
    ghost var parsed := Parse(lines);
    assert [] + parsed.commands == parsed.commands;
    while rest != []
      invariant fresh(p) && p.base == statistics && Follows(p, done)
      invariant parsed == Parsed(done + Parse(rest).commands, Parse(rest).cut)
      decreases |rest|
    {
      var command, cut;
      command, cut, rest := ReadCommand(rest);
      if cut {
        assert done + [] == done;
        CutShort(p, command.name, done);
        AccountedIsCounted(parsed, statistics, p.exitCode, p.statistics);
        return p.exitCode, p.statistics, p.log;
      }
      ParsedNext(done, command, Parse(rest));
      Process(p, command, done);
      done := done + [command];
    }
    assert done + [] == done;
    AtEnd(p, done);
    AccountedIsCounted(parsed, statistics, p.exitCode, p.statistics);
    return p.exitCode, p.statistics, p.log;
  }

  /** Every test that started has exactly one outcome, which comes after its start. */
  lemma EveryTestOnce(log: seq<Event>, id: nat)
    requires Proper(log) && Running(log) == {} && id < Starts(log)
    ensures OutcomesOf(log, id) == 1
  {
    OutcomesCounted(log, id);
  }

  /** Starting a test twice reports an error that the exit code does not show. */
  lemma RestartIsNotAnError(name: string)
    ensures AllFine([Test(name), Test(name), Verdict(Successful, name, false)])
    ensures OpenNames([Test(name), Test(name), Verdict(Successful, name, false)]) == {}
    ensures Restarts([Test(name), Test(name), Verdict(Successful, name, false)]) == 1
  {
    var test := Test(name);
    assert [] + [test] == [test] && [test] + [test] == [test, test];
    assert [test, test] + [Verdict(Successful, name, false)] == [test, test, Verdict(Successful, name, false)];
    CommandNext([], test);
    CommandNext([test], test);
    CommandNext([test, test], Verdict(Successful, name, false));
  }
}
