/**
  The bounded worker pool of crates/automation/src/orchestration.rs. A worker
  thread is the row of messages it sends; what a poll finds in its channel is a
  parameter, so every interleaving of the workers is covered.
 */
module WorkerPool {
  import opened Sorting
  import opened Wrappers

  const MAX_MESSAGES_PER_POLL: nat := 256

  datatype Termination =
    | Completed
    | CompletedWithError(message: string)
    | NoResult
    | Timeout
    | Cancelled
    | ConfigError(message: string)
    | CompileError(message: string)
    | RuntimeError(message: string)
    | InternalError(message: string)
  {
    predicate Abnormal() {
      !Completed? && !CompletedWithError?
    }

    function Failure(): Option<string> {
      match this
      case Completed => None
      case CompletedWithError(m) => Some("test failure: " + m)
      case NoResult => Some("script ended without an execution result")
      case Timeout => Some("script timed out")
      case Cancelled => Some("script was cancelled")
      case ConfigError(m) => Some("configuration error: " + m)
      case CompileError(m) => Some("compile error: " + m)
      case RuntimeError(m) => Some("runtime error: " + m)
      case InternalError(m) => Some("internal error: " + m)
    }
  }

  datatype CaseOutcome = Success | Failure(kind: string, message: string)

  /** `Notice` stands for the messages the coordinator ignores. */
  datatype Message =
    | Output(text: string)
    | CaseFinished(suite: string, testCase: string, outcome: CaseOutcome)
    | Finished(termination: Termination)
    | Notice

  /** A script, with everything its worker sends before the channel closes and whether it panics. */
  datatype Script = Script(id: nat, path: string, messages: seq<Message>, panics: bool)

  datatype ActiveScript = ActiveScript(
    script: Script, received: nat, output: string, caseFailures: seq<string>, passedCases: nat, failedCases: nat,
    termination: Option<Termination>)

  datatype FailedScript = FailedScript(id: nat, path: string, output: string, details: seq<string>)

  datatype Error = Configuration(message: string) | Internal(message: string)

  datatype Result = Report(exitCode: nat, passedCases: nat, failedCases: nat, failures: seq<FailedScript>)
                  | Failed(error: Error)
                  | StillRunning

  /** What one poll finds: how many messages have arrived, and whether the sender is gone by then. */
  datatype Poll = Poll(arrived: nat, closed: bool)
  {
    /** The poll finds the next message, or the end of the channel after the last one. */
    predicate Moves() {
      arrived > 0 && closed
    }
  }

  // ------------------------------------------------------------------
  // What a script reports
  // ------------------------------------------------------------------

  function CasesPassed(ms: seq<Message>): nat {
    if ms == [] then 0
    else
      var last := ms[|ms| - 1];
      CasesPassed(ms[..|ms| - 1]) + if last.CaseFinished? && last.outcome.Success? then 1 else 0
  }

  function Detail(suite: string, testCase: string, failure: CaseOutcome): string
    requires failure.Failure?
  {
    suite + " - " + testCase + ": " + failure.kind + ": " + failure.message
  }

  function CaseDetails(ms: seq<Message>): seq<string> {
    if ms == [] then []
    else
      var (most, last) := (CaseDetails(ms[..|ms| - 1]), ms[|ms| - 1]);
      if last.CaseFinished? && last.outcome.Failure? then most + [Detail(last.suite, last.testCase, last.outcome)]
      else most
  }

  function OutputOf(ms: seq<Message>): string {
    if ms == [] then ""
    else
      var (most, last) := (OutputOf(ms[..|ms| - 1]), ms[|ms| - 1]);
      if last.Output? then most + last.text else most
  }

  /** The termination a worker has announced: by protocol, its last message. */
  function TerminationOf(ms: seq<Message>): Option<Termination> {
    if ms != [] && ms[|ms| - 1].Finished? then Some(ms[|ms| - 1].termination) else None
  }

  /** `Finished` is always the last message. */
  ghost predicate FollowsProtocol(s: Script) {
    forall i :: 0 <= i < |s.messages| && s.messages[i].Finished? ==> i == |s.messages| - 1
  }

  predicate Completes(s: Script) {
    TerminationOf(s.messages).Some? && !s.panics
  }

  predicate Passes(s: Script) {
    TerminationOf(s.messages) == Some(Completed) && CaseDetails(s.messages) == []
  }

  /** A script that reported no case, or ended abnormally, counts as one case of its own. */
  predicate CountsItself(s: Script)
    requires Completes(s)
  {
    (CasesPassed(s.messages) == 0 && CaseDetails(s.messages) == [])
    || TerminationOf(s.messages).value.Abnormal()
  }

  function PassedCases(s: Script): nat {
    CasesPassed(s.messages) + if Completes(s) && CountsItself(s) && Passes(s) then 1 else 0
  }

  function FailedCases(s: Script): nat {
    |CaseDetails(s.messages)| + if Completes(s) && CountsItself(s) && !Passes(s) then 1 else 0
  }

  function FailureOf(s: Script): FailedScript
    requires Completes(s)
  {
    var terminal := TerminationOf(s.messages).value.Failure();
    var details := CaseDetails(s.messages);
    FailedScript(
      s.id, s.path, OutputOf(s.messages), if terminal.Some? then details + [terminal.value] else details)
  }

  function Failing(s: Script): nat {
    if Passes(s) then 0 else 1
  }

  function Sum<T>(s: seq<T>, f: T -> nat): nat {
    if s == [] then 0 else Sum(s[..|s| - 1], f) + f(s[|s| - 1])
  }

  /** The failing scripts in the order of their ids. */
  function FailingReports(s: seq<Script>): seq<FailedScript>
    requires forall i :: 0 <= i < |s| ==> Completes(s[i])
  {
    if s == [] then []
    else
      var (most, last) := (FailingReports(s[..|s| - 1]), s[|s| - 1]);
      if Passes(last) then most else most + [FailureOf(last)]
  }

  lemma {:induction false} NoneFailing(s: seq<Script>)
    ensures Sum(s, Failing) == 0 <==> forall i :: 0 <= i < |s| ==> Passes(s[i])
  {
    if s != [] {
      NoneFailing(s[..|s| - 1]);
    }
  }

  // ------------------------------------------------------------------
  // Sums over a pool that shrinks and grows
  // ------------------------------------------------------------------

  lemma SumExtended<T>(s: seq<T>, x: T, f: T -> nat)
    ensures Sum(s + [x], f) == Sum(s, f) + f(x)
  {
    assert (s + [x])[..|s|] == s;
  }

  lemma {:induction false} SumSplit<T>(a: seq<T>, b: seq<T>, f: T -> nat)
    ensures Sum(a + b, f) == Sum(a, f) + Sum(b, f)
  {
    if b == [] {
      assert a + b == a;
    } else {
      var n := |b| - 1;
      SumSplit(a, b[..n], f);
      assert a + b == (a + b[..n]) + [b[n]];
      SumExtended(a + b[..n], b[n], f);
    }
  }

  lemma SumOne<T>(x: T, f: T -> nat)
    ensures Sum([x], f) == f(x)
  {
    assert [x] == [] + [x];
    SumExtended([], x, f);
  }

  lemma SumFirst<T>(s: seq<T>, f: T -> nat)
    requires |s| > 0
    ensures Sum(s, f) == f(s[0]) + Sum(s[1..], f)
  {
    assert s == [s[0]] + s[1..];
    SumSplit([s[0]], s[1..], f);
    SumOne(s[0], f);
  }

  lemma {:induction false} SumUpdated<T>(s: seq<T>, i: nat, x: T, f: T -> nat)
    requires i < |s|
    ensures Sum(s[i := x], f) + f(s[i]) == Sum(s, f) + f(x)
  {
    var n := |s| - 1;
    if i < n {
      SumUpdated(s[..n], i, x, f);
      assert s[i := x][..n] == s[..n][i := x];
    } else {
      assert s[i := x][..n] == s[..n];
    }
  }

  /** `Vec::swap_remove`: the last element takes the place of the removed one. */
  function SwapRemove<T>(s: seq<T>, i: nat): seq<T>
    requires i < |s|
  {
    var rest, last := s[..|s| - 1], s[|s| - 1];
    if i < |rest| then rest[i := last] else rest
  }

  lemma SumSwapRemove<T>(s: seq<T>, i: nat, f: T -> nat)
    requires i < |s|
    ensures Sum(s, f) == Sum(SwapRemove(s, i), f) + f(s[i])
  {
    hide Sum;
    var rest, last := s[..|s| - 1], s[|s| - 1];
    SumLast(s, f);
    if i < |rest| {
      SumUpdated(rest, i, last, f);
    }
  }

  lemma SumLast<T>(s: seq<T>, f: T -> nat)
    requires |s| > 0
    ensures Sum(s, f) == Sum(s[..|s| - 1], f) + f(s[|s| - 1])
  {
  }

  // ------------------------------------------------------------------
  // One active script
  // ------------------------------------------------------------------

  /** The counters of an active script are those of the messages received so far. */
  ghost predicate Tracks(a: ActiveScript) {
    && a.received <= |a.script.messages|
    && var ms := a.script.messages[..a.received];
       && a.output == OutputOf(ms) && a.caseFailures == CaseDetails(ms)
       && a.passedCases == CasesPassed(ms) && a.failedCases == |CaseDetails(ms)|
       && a.termination == TerminationOf(ms)
  }

  function Fresh(s: Script): (a: ActiveScript)
    ensures Tracks(a) && a.script == s && a.termination.None?
  {
    ActiveScript(s, 0, "", [], 0, 0, None)
  }

  /** A termination is seen only with the whole row of messages received. */
  lemma TerminatedHasAll(a: ActiveScript)
    requires Tracks(a) && FollowsProtocol(a.script) && a.termination.Some?
    ensures a.received == |a.script.messages|
  {
    var ms := a.script.messages[..a.received];
    assert ms[|ms| - 1] == a.script.messages[a.received - 1];
  }

  method HandleMessage(a: ActiveScript) returns (r: ActiveScript)
    requires Tracks(a) && a.received < |a.script.messages| && FollowsProtocol(a.script)
    requires a.termination.None?
    ensures Tracks(r) && r.script == a.script && r.received == a.received + 1
  {
    ghost var ms := a.script.messages[..a.received + 1];
    assert ms[..a.received] == a.script.messages[..a.received];
    r := a.(received := a.received + 1);
    match a.script.messages[a.received]
    case Output(text) => r := r.(output := r.output + text);
    case CaseFinished(suite, testCase, outcome) =>
      match outcome {
        case Success => r := r.(passedCases := r.passedCases + 1);
        case Failure(_, _) =>
          r := r.(failedCases := r.failedCases + 1,
                  caseFailures := r.caseFailures + [Detail(suite, testCase, outcome)]);
      }
    case Finished(termination) => r := r.(termination := Some(termination));
    case Notice =>
  }

  /** Receives what a poll finds, up to the limit; a disconnect is seen once all is received. */
  method Receive(active: ActiveScript, poll: Poll) returns (a: ActiveScript, disconnected: bool)
    requires Tracks(active) && FollowsProtocol(active.script) && active.termination.None?
    ensures Tracks(a) && a.script == active.script && active.received <= a.received
    ensures a.termination.Some? || disconnected ==> a.received == |a.script.messages|
    ensures disconnected ==> poll.closed
    ensures poll.Moves() ==> active.received < a.received || disconnected
  {
    a, disconnected := active, false;
    var arrived := poll.arrived;
    for i := 0 to MAX_MESSAGES_PER_POLL
      invariant Tracks(a) && a.script == active.script && active.received <= a.received
      invariant a.termination.Some? ==> a.received == |a.script.messages|
      invariant i > 0 ==> active.received < a.received
      invariant i == 0 ==> arrived == poll.arrived && a == active
    {
      if arrived > 0 && a.received < |a.script.messages| {
        a := HandleMessage(a);
        arrived := arrived - 1;
        if a.termination.Some? {
          TerminatedHasAll(a);
        }
      } else if a.received == |a.script.messages| && poll.closed {
        disconnected := true;
        break;
      } else {
        break;
      }
    }
  }

  datatype Finish = Done(passed: bool, failure: Option<FailedScript>, passedCases: nat, failedCases: nat)
                  | Broken(error: Error)

  /** Joins a worker whose channel has ended; without a `Finished`, or after a panic, that is an error. */
  method FinishScript(active: ActiveScript) returns (f: Finish)
    requires Tracks(active) && active.received == |active.script.messages|
    ensures f.Done? <==> Completes(active.script)
    ensures f.Broken? ==> f.error.Internal?
    ensures f.Done? ==>
      && f.passed == Passes(active.script)
      && f.failure == (if f.passed then None else Some(FailureOf(active.script)))
      && f.passedCases == PassedCases(active.script) && f.failedCases == FailedCases(active.script)
  {
    assert active.script.messages[..active.received] == active.script.messages;
    var a := active;
    if a.script.panics {
      return Broken(Internal("executor thread panicked while running " + a.script.path));
    }
    if a.termination.None? {
      return Broken(Internal("executor channel closed without Finished for " + a.script.path));
    }
    var termination := a.termination.value;
    var terminalFailure := termination.Failure();
    var passed := terminalFailure.None? && a.caseFailures == [];
    var caseCount := a.passedCases + a.failedCases;
    if caseCount == 0 || termination.Abnormal() {
      if passed {
        a := a.(passedCases := a.passedCases + 1);
      } else {
        a := a.(failedCases := a.failedCases + 1);
      }
    }
    if passed {
      return Done(true, None, a.passedCases, a.failedCases);
    }
    if terminalFailure.Some? {
      a := a.(caseFailures := a.caseFailures + [terminalFailure.value]);
    }
    f := Done(false, Some(FailedScript(a.script.id, a.script.path, a.output, a.caseFailures)),
              a.passedCases, a.failedCases);
  }

  // ------------------------------------------------------------------
  // The pool
  // ------------------------------------------------------------------

  /** The discovered scripts: numbered in order, with workers that follow the protocol. */
  ghost predicate Discovered(scripts: seq<Script>) {
    forall i :: 0 <= i < |scripts| ==> scripts[i].id == i && FollowsProtocol(scripts[i])
  }

  ghost predicate InFlight(scripts: seq<Script>, a: ActiveScript) {
    Tracks(a) && a.termination.None? && a.script.id < |scripts| && a.script == scripts[a.script.id]
  }

  /** Every script is in exactly one place: waiting, active or done; no more are active than allowed. */
  ghost predicate Placed(
    scripts: seq<Script>, queue: seq<Script>, active: seq<ActiveScript>, done: set<nat>, jobs: nat)
  {
    && |active| <= jobs && |queue| <= |scripts|
    && var started := |scripts| - |queue|;
       && queue == scripts[started..]
       && (forall k :: 0 <= k < |active| ==>
             InFlight(scripts, active[k]) && active[k].script.id < started && active[k].script.id !in done)
       && (forall j, k :: 0 <= j < k < |active| ==> active[j].script.id != active[k].script.id)
       && (forall id :: id in done ==> id < started && Completes(scripts[id]))
       && (forall id :: 0 <= id < started ==> id in done || exists k :: 0 <= k < |active| && active[k].script.id == id)
  }

  function ActivePassed(a: ActiveScript): nat { PassedCases(a.script) }

  function ActiveFailed(a: ActiveScript): nat { FailedCases(a.script) }

  function ActiveFailing(a: ActiveScript): nat { Failing(a.script) }

  /** The counters hold what the finished scripts contribute to the totals of all scripts. */
  ghost predicate Counted(
    scripts: seq<Script>, queue: seq<Script>, active: seq<ActiveScript>, finished: nat, failing: nat, passed: nat,
    failed: nat)
  {
    && finished + |active| + |queue| == |scripts|
    && passed + Sum(active, ActivePassed) + Sum(queue, PassedCases) == Sum(scripts, PassedCases)
    && failed + Sum(active, ActiveFailed) + Sum(queue, FailedCases) == Sum(scripts, FailedCases)
    && failing + Sum(active, ActiveFailing) + Sum(queue, Failing) == Sum(scripts, Failing)
  }

  ghost predicate IsFailureIn(scripts: seq<Script>, done: set<nat>, f: FailedScript) {
    && f.id in done && f.id < |scripts| && Completes(scripts[f.id]) && !Passes(scripts[f.id])
    && f == FailureOf(scripts[f.id])
  }

  /** How often an active script can still be polled with effect. */
  function Left(a: ActiveScript): nat
  {
    if a.received <= |a.script.messages| then |a.script.messages| - a.received + 1 else 1
  }

  function Waiting(s: Script): nat {
    |s.messages| + 1
  }

  /** The failures are those of the finished scripts, one for each. */
  ghost predicate Reported(scripts: seq<Script>, done: set<nat>, failures: seq<FailedScript>) {
    && (forall f :: f in failures <==> IsFailureIn(scripts, done, f))
    && (forall i, j :: 0 <= i < j < |failures| ==> failures[i].id != failures[j].id)
  }

  lemma StartPlaced(
    scripts: seq<Script>, queue: seq<Script>, active: seq<ActiveScript>, done: set<nat>, jobs: nat)
    requires Placed(scripts, queue, active, done, jobs) && Discovered(scripts)
    requires |queue| > 0 && |active| < jobs
    ensures Placed(scripts, queue[1..], active + [Fresh(queue[0])], done, jobs)
  {
    var started := |scripts| - |queue|;
    var more := active + [Fresh(queue[0])];
    assert queue[0] == scripts[started];
    assert queue[1..] == scripts[started + 1..];
    assert more[|active|].script.id == started;
    forall id | 0 <= id < started + 1
      ensures id in done || exists k :: 0 <= k < |more| && more[k].script.id == id
    {
      if id < started && id !in done {
        var k :| 0 <= k < |active| && active[k].script.id == id;
        assert more[k].script.id == id;
      }
    }
  }

  lemma StartCounted(
    scripts: seq<Script>, queue: seq<Script>, active: seq<ActiveScript>, finished: nat, failing: nat, passed: nat,
    failed: nat)
    requires Counted(scripts, queue, active, finished, failing, passed, failed) && |queue| > 0
    ensures Counted(scripts, queue[1..], active + [Fresh(queue[0])], finished, failing, passed, failed)
  {
    hide Sum, PassedCases, FailedCases, Failing;
    var a := Fresh(queue[0]);
    SumFirst(queue, PassedCases);
    SumFirst(queue, FailedCases);
    SumFirst(queue, Failing);
    SumExtended(active, a, ActivePassed);
    SumExtended(active, a, ActiveFailed);
    SumExtended(active, a, ActiveFailing);
  }

  lemma UpdatePlaced(
    scripts: seq<Script>, queue: seq<Script>, active: seq<ActiveScript>, done: set<nat>, jobs: nat, i: nat,
    a: ActiveScript)
    requires Placed(scripts, queue, active, done, jobs) && i < |active|
    requires Tracks(a) && a.script == active[i].script && a.termination.None?
    ensures Placed(scripts, queue, active[i := a], done, jobs)
  {
    var next := active[i := a];
    forall id | 0 <= id < |scripts| - |queue|
      ensures id in done || exists k :: 0 <= k < |next| && next[k].script.id == id
    {
      if id !in done {
        var k :| 0 <= k < |active| && active[k].script.id == id;
        assert next[k].script.id == id;
      }
    }
  }

  lemma UpdateCounted(
    scripts: seq<Script>, queue: seq<Script>, active: seq<ActiveScript>, finished: nat, failing: nat, passed: nat,
    failed: nat, i: nat, a: ActiveScript)
    requires Counted(scripts, queue, active, finished, failing, passed, failed) && i < |active|
    requires a.script == active[i].script
    ensures Counted(scripts, queue, active[i := a], finished, failing, passed, failed)
  {
    hide Sum;
    SumUpdated(active, i, a, ActivePassed);
    SumUpdated(active, i, a, ActiveFailed);
    SumUpdated(active, i, a, ActiveFailing);
  }

  lemma FinishPlaced(
    scripts: seq<Script>, queue: seq<Script>, active: seq<ActiveScript>, done: set<nat>, jobs: nat, i: nat)
    requires Placed(scripts, queue, active, done, jobs) && i < |active| && Completes(active[i].script)
    ensures Placed(scripts, queue, SwapRemove(active, i), done + {active[i].script.id}, jobs)
  {
    FlightIsDiscovered(scripts, active[i]);
    hide InFlight, Completes, SwapRemove;
    SwapRemoveElements(active, i);
    FinishCovers(active, |scripts| - |queue|, done, i);
  }

  lemma SwapRemoveElements<T>(s: seq<T>, i: nat)
    requires i < |s|
    ensures |SwapRemove(s, i)| == |s| - 1
    ensures forall k :: 0 <= k < |s| - 1 ==> SwapRemove(s, i)[k] == s[if k == i then |s| - 1 else k]
  {
  }

  lemma FinishCovers(active: seq<ActiveScript>, started: nat, done: set<nat>, i: nat)
    requires i < |active|
    requires forall id :: 0 <= id < started ==>
      id in done || exists k :: 0 <= k < |active| && active[k].script.id == id
    ensures
      var left, now := SwapRemove(active, i), done + {active[i].script.id};
      forall id :: 0 <= id < started ==> id in now || exists k :: 0 <= k < |left| && left[k].script.id == id
  {
    var left, now := SwapRemove(active, i), done + {active[i].script.id};
    forall id | 0 <= id < started && id !in now
      ensures exists k :: 0 <= k < |left| && left[k].script.id == id
    {
      var k :| 0 <= k < |active| && active[k].script.id == id;
      assert left[if k == |active| - 1 then i else k].script.id == id;
    }
  }

  lemma FlightIsDiscovered(scripts: seq<Script>, a: ActiveScript)
    requires InFlight(scripts, a)
    ensures a.script.id < |scripts| && a.script == scripts[a.script.id]
  {
  }

  lemma FinishCounted(
    scripts: seq<Script>, queue: seq<Script>, active: seq<ActiveScript>, finished: nat, failing: nat, passed: nat,
    failed: nat, i: nat)
    requires Counted(scripts, queue, active, finished, failing, passed, failed) && i < |active|
    ensures var s := active[i].script;
      Counted(
        scripts, queue, SwapRemove(active, i), finished + 1, failing + Failing(s), passed + PassedCases(s),
        failed + FailedCases(s))
  {
    hide Sum, PassedCases, FailedCases, Failing;
    SumSwapRemove(active, i, ActivePassed);
    SumSwapRemove(active, i, ActiveFailed);
    SumSwapRemove(active, i, ActiveFailing);
  }

  lemma FinishReported(scripts: seq<Script>, done: set<nat>, failures: seq<FailedScript>, s: Script)
    requires Reported(scripts, done, failures) && s.id < |scripts| && s == scripts[s.id] && s.id !in done
    requires Completes(s)
    ensures Reported(
      scripts, done + {s.id}, if Passes(s) then failures else failures + [FailureOf(s)])
  {
    hide Completes, Passes, FailureOf;
    FailureKeepsId(s);
    var next := if Passes(s) then failures else failures + [FailureOf(s)];
    forall f ensures f in next <==> IsFailureIn(scripts, done + {s.id}, f) {
      if f.id == s.id {
        assert f !in failures;
      }
    }
    forall i | 0 <= i < |failures| ensures failures[i].id != s.id {
      assert failures[i] in failures;
    }
  }

  lemma FailureKeepsId(s: Script)
    requires Completes(s)
    ensures FailureOf(s).id == s.id
  {
  }

  class Pool {
    const scripts: seq<Script>
    const jobs: nat
    var queue: seq<Script>
    var active: seq<ActiveScript>
    var failures: seq<FailedScript>
    var finished: nat
    var failedFiles: nat
    var passedCases: nat
    var failedCases: nat
    /** The ids of the scripts whose workers were joined. */
    ghost var done: set<nat>

    ghost predicate Valid()
      reads this
    {
      && Discovered(scripts)
      && Placed(scripts, queue, active, done, jobs)
      && Counted(scripts, queue, active, finished, failedFiles, passedCases, failedCases)
      && Reported(scripts, done, failures)
    }

    constructor (scripts: seq<Script>, jobs: nat)
      requires Discovered(scripts)
      ensures Valid() && this.scripts == scripts && this.jobs == jobs
      ensures queue == scripts && active == [] && finished == 0
    {
      this.scripts, this.jobs := scripts, jobs;
      queue, active, failures := scripts, [], [];
      finished, failedFiles, passedCases, failedCases := 0, 0, 0, 0;
      done := {};
    }

    /** Fills the free places from the head of the queue. */
    method StartScripts()
      requires Valid()
      modifies `queue, `active
      ensures Valid() && (queue == [] || |active| == jobs)
      ensures |queue| + |active| == |old(queue)| + |old(active)| && Work() == old(Work())
    {
      hide Discovered, Placed, Counted, Reported;
      JobsKept();
      while |active| < jobs && queue != []
        invariant Valid() && |active| <= jobs && Work() == old(Work())
        invariant |queue| + |active| == |old(queue)| + |old(active)|
        decreases |queue|
      {
        SumFirst(queue, Waiting);
        SumExtended(active, Fresh(queue[0]), Left);
        StartPlaced(scripts, queue, active, done, jobs);
        StartCounted(scripts, queue, active, finished, failedFiles, passedCases, failedCases);
        active := active + [Fresh(queue[0])];
        queue := queue[1..];
      }
    }

    ghost function Work(): nat
      reads `queue, `active
    {
      Sum(active, Left) + Sum(queue, Waiting)
    }

    lemma JobsKept()
      requires Valid()
      ensures |active| <= jobs && |queue| + |active| + finished == |scripts|
    {
    }

    /** Polls one active script; a script that ended leaves the pool and enters the counters. */
    method PollScript(index: nat, poll: Poll) returns (ended: bool, error: Option<Error>)
      requires Valid() && index < |active|
      modifies `active, `failures, `finished, `failedFiles, `passedCases, `failedCases, `done
      ensures Valid()
      ensures error.Some? ==> error.value.Internal? && SomeWorkerBroken(scripts)
      ensures error.None? && ended ==> |active| == |old(active)| - 1
      ensures error.None? && !ended ==> |active| == |old(active)|
      ensures error.None? ==> Sum(active, Left) <= old(Sum(active, Left))
      ensures error.None? && poll.Moves() ==> Sum(active, Left) < old(Sum(active, Left))
    {
      hide Sum;
      hide Discovered, Placed, Counted, Reported, InFlight, Completes, Failing, PassedCases, FailedCases, FailureOf;
      Polled(index);
      var a, disconnected := Receive(active[index], poll);
      if a.termination.None? && !disconnected {
        UpdatePlaced(scripts, queue, active, done, jobs, index, a);
        UpdateCounted(scripts, queue, active, finished, failedFiles, passedCases, failedCases, index, a);
        SumUpdated(active, index, a, Left);
        active := active[index := a];
        return false, None;
      }
      var f := FinishScript(a);
      if f.Broken? {
        assert !Completes(scripts[a.script.id]);
        return true, Some(f.error);
      }
      Account(index, f);
      ended, error := true, None;
    }

    /** Takes a finished script out of its place and adds what it reports to the counters. */
    method Account(index: nat, f: Finish)
      requires Valid() && index < |active| && f.Done? && Completes(active[index].script)
      requires var s := active[index].script;
        && f.passed == Passes(s) && f.failure == (if f.passed then None else Some(FailureOf(s)))
        && f.passedCases == PassedCases(s) && f.failedCases == FailedCases(s)
      modifies `active, `failures, `finished, `failedFiles, `passedCases, `failedCases, `done
      ensures Valid()
      ensures active == SwapRemove(old(active), index) && |active| == |old(active)| - 1
      ensures Sum(active, Left) < old(Sum(active, Left))
    {
      hide Sum, Discovered, Placed, Counted, Reported, InFlight, Completes, Failing, PassedCases, FailedCases,
           FailureOf, SwapRemove;
      Polled(index);
      FinishPlaced(scripts, queue, active, done, jobs, index);
      FinishCounted(scripts, queue, active, finished, failedFiles, passedCases, failedCases, index);
      FinishReported(scripts, done, failures, active[index].script);
      SumSwapRemove(active, index, Left);
      SwapRemoveElements(active, index);
      FailingIsOne(active[index].script);
      done := done + {active[index].script.id};
      active := SwapRemove(active, index);
      finished := finished + 1;
      if !f.passed {
        failedFiles := failedFiles + 1;
      }
      passedCases := passedCases + f.passedCases;
      failedCases := failedCases + f.failedCases;
      if f.failure.Some? {
        failures := failures + [f.failure.value];
      }
    }

    /** One pass over the active scripts, each polled once, the one moved into a freed place included. */
    method PollAll(polls: nat -> Poll) returns (error: Option<Error>)
      requires Valid()
      modifies `active, `failures, `finished, `failedFiles, `passedCases, `failedCases, `done
      ensures Valid()
      ensures error.Some? ==> error.value.Internal? && SomeWorkerBroken(scripts)
      ensures error.None? ==> Work() <= old(Work())
      ensures error.None? && AllMove(polls) && old(active) != [] ==> Work() < old(Work())
    {
      hide Discovered, Placed, Counted, Reported, Sum, Left;
      var index := 0;
      error := None;
      while index < |active|
        invariant Valid() && index <= |active| && error.None?
        invariant Work() <= old(Work())
        invariant (index == 0 && active == old(active)) || (AllMove(polls) ==> Work() < old(Work()))
        decreases |active| - index
      {
        var ended;
        ended, error := PollScript(index, polls(active[index].script.id));
        if error.Some? {
          return;
        }
        if !ended {
          index := index + 1;
        }
      }
    }

    lemma Polled(index: nat)
      requires Valid() && index < |active|
      ensures Tracks(active[index]) && active[index].termination.None? && FollowsProtocol(active[index].script)
      ensures
        var s := active[index].script;
        s.id < |scripts| && s == scripts[s.id] && s.id !in done
    {
      assert InFlight(scripts, active[index]);
    }
  }

  /** A worker that panics or never announces its termination. */
  ghost predicate SomeWorkerBroken(scripts: seq<Script>) {
    exists i :: 0 <= i < |scripts| && !Completes(scripts[i])
  }

  /** Every active script finds its next message or the end of its channel. */
  ghost predicate AllMove(polls: nat -> Poll) {
    forall id :: polls(id).Moves()
  }

  lemma FailingIsOne(s: Script)
    ensures Failing(s) == if Passes(s) then 0 else 1
  {
  }

  // ------------------------------------------------------------------
  // A whole run
  // ------------------------------------------------------------------

  predicate EarlierId(a: FailedScript, b: FailedScript) {
    a.id < b.id
  }

  lemma EarlierIdIsStrict()
    ensures StrictOrder(EarlierId)
  {
  }

  /** `reports` are those of the failing scripts among the first `n`, in id order. */
  ghost predicate ListsFailures(scripts: seq<Script>, n: nat, reports: seq<FailedScript>)
    requires n <= |scripts| && !SomeWorkerBroken(scripts)
  {
    && Ordered(reports, EarlierId)
    && (forall f :: f in reports <==> f.id < n && !Passes(scripts[f.id]) && f == FailureOf(scripts[f.id]))
  }

  lemma {:induction false} FailingReportsListFailures(scripts: seq<Script>, n: nat)
    requires n <= |scripts| && Discovered(scripts) && !SomeWorkerBroken(scripts)
    ensures ListsFailures(scripts, n, FailingReports(scripts[..n]))
  {
    if n == 0 {
      NoReports(scripts[..n]);
    } else {
      FailingReportsListFailures(scripts, n - 1);
      hide ListsFailures, FailingReports;
      ReportsExtended(scripts, n);
      ListsNext(scripts, n, FailingReports(scripts[..n - 1]));
    }
  }

  lemma ListsNext(scripts: seq<Script>, n: nat, most: seq<FailedScript>)
    requires 0 < n <= |scripts| && Discovered(scripts) && !SomeWorkerBroken(scripts)
    requires ListsFailures(scripts, n - 1, most)
    ensures ListsFailures(
      scripts, n, if Passes(scripts[n - 1]) then most else most + [FailureOf(scripts[n - 1])])
  {
    var last := scripts[n - 1];
    FailureKeepsId(last);
    hide Passes, FailureOf, Ordered, SomeWorkerBroken, FollowsProtocol;
    if !Passes(last) {
      OrderedLast(most, FailureOf(last));
      forall f ensures f in most + [FailureOf(last)] <==> f in most || f == FailureOf(last) {}
    }
  }

  lemma OrderedLast(s: seq<FailedScript>, x: FailedScript)
    requires Ordered(s, EarlierId) && forall f :: f in s ==> f.id < x.id
    ensures Ordered(s + [x], EarlierId)
  {
    forall i | 0 <= i < |s| ensures EarlierId(s[i], x) {
      assert s[i] in s;
    }
  }

  lemma NoReports(s: seq<Script>)
    requires s == []
    ensures FailingReports(s) == []
  {
  }

  lemma ReportsExtended(scripts: seq<Script>, n: nat)
    requires 0 < n <= |scripts| && !SomeWorkerBroken(scripts)
    ensures var most := FailingReports(scripts[..n - 1]);
      FailingReports(scripts[..n]) == if Passes(scripts[n - 1]) then most else most + [FailureOf(scripts[n - 1])]
  {
    assert scripts[..n][..n - 1] == scripts[..n - 1];
  }

  /** Sorted by id, the failures of a finished pool are the failing reports of all scripts. */
  lemma SortedFailures(scripts: seq<Script>, done: set<nat>, failures: seq<FailedScript>, sorted: seq<FailedScript>)
    requires Discovered(scripts) && !SomeWorkerBroken(scripts) && Reported(scripts, done, failures)
    requires forall id :: 0 <= id < |scripts| ==> id in done
    requires Ordered(sorted, EarlierId) && multiset(sorted) == multiset(failures)
    ensures sorted == FailingReports(scripts)
  {
    hide Ordered, StrictOrder;
    assert scripts[..|scripts|] == scripts;
    FailingReportsListFailures(scripts, |scripts|);
    SameElements(sorted, failures);
    EarlierIdIsStrict();
    OrderedIsUnique(sorted, FailingReports(scripts), EarlierId);
  }

  lemma FailuresUntied(scripts: seq<Script>, done: set<nat>, failures: seq<FailedScript>)
    requires Reported(scripts, done, failures)
    ensures Untied(failures, EarlierId)
  {
  }

  /** An empty pool has joined every worker and counted every script. */
  lemma EmptyPool(pool: Pool)
    requires pool.Valid() && pool.queue == [] && pool.active == []
    ensures pool.finished == |pool.scripts| && !SomeWorkerBroken(pool.scripts)
    ensures forall id :: 0 <= id < |pool.scripts| ==> id in pool.done
    ensures pool.passedCases == Sum(pool.scripts, PassedCases)
    ensures pool.failedCases == Sum(pool.scripts, FailedCases)
    ensures pool.failedFiles == Sum(pool.scripts, Failing)
    ensures Reported(pool.scripts, pool.done, pool.failures) && Discovered(pool.scripts)
  {
    forall id | 0 <= id < |pool.scripts| ensures id in pool.done && Completes(pool.scripts[id]) {
    }
  }

  /**
    Runs every script on at most `jobs` workers, for as many polling rounds as the run is watched.
    A report covers each discovered script exactly once, whatever the interleaving; a broken worker
    is the only other end; and rounds that all find something end the run.
   */
  method Orchestrate(scripts: seq<Script>, jobs: nat, rounds: seq<nat -> Poll>) returns (r: Result)
    requires Discovered(scripts)
    ensures r.Failed? && r.error.Configuration? <==> jobs == 0 || scripts == []
    ensures r.Failed? && r.error.Internal? ==> SomeWorkerBroken(scripts)
    ensures r.Report? ==>
      && (forall i :: 0 <= i < |scripts| ==> Completes(scripts[i]))
      && (r.exitCode == 0 <==> forall i :: 0 <= i < |scripts| ==> Passes(scripts[i])) && r.exitCode <= 1
      && r.passedCases == Sum(scripts, PassedCases) && r.failedCases == Sum(scripts, FailedCases)
      && r.failures == FailingReports(scripts)
    ensures (forall t :: 0 <= t < |rounds| ==> AllMove(rounds[t])) && |rounds| >= Sum(scripts, Waiting) ==>
      !r.StillRunning?
  {
    if jobs == 0 {
      return Failed(Configuration("jobs must be greater than zero"));
    }
    if scripts == [] {
      return Failed(Configuration("no .scm tests found"));
    }
    var pool := new Pool(scripts, jobs);
    var error := RunPool(pool, rounds);
    if error.Some? {
      return Failed(error.value);
    }
    if pool.queue != [] || pool.active != [] {
      return StillRunning;
    }
    r := Summarize(pool);
  }

  method RunPool(pool: Pool, rounds: seq<nat -> Poll>) returns (error: Option<Error>)
    requires pool.Valid() && pool.jobs > 0 && pool.active == []
    modifies pool
    ensures pool.Valid()
    ensures error.Some? ==> error.value.Internal? && SomeWorkerBroken(pool.scripts)
    ensures error.None? && (forall t :: 0 <= t < |rounds| ==> AllMove(rounds[t])) && |rounds| >= old(pool.Work()) ==>
      pool.queue == [] && pool.active == []
  {
    hide Pool.Valid, Pool.Work, Sum, AllMove;
    error := None;
    var t := 0;
    while t < |rounds| && (pool.queue != [] || pool.active != [])
      invariant pool.Valid() && t <= |rounds| && error.None?
      invariant (forall i :: 0 <= i < |rounds| ==> AllMove(rounds[i])) ==> pool.Work() + t <= old(pool.Work())
    {
      pool.StartScripts();
      error := pool.PollAll(rounds[t]);
      if error.Some? {
        return;
      }
      t := t + 1;
    }
    NoWork(pool);
  }

  lemma NoWork(pool: Pool)
    ensures pool.Work() <= 0 ==> pool.queue == [] && pool.active == []
  {
  }

  method Summarize(pool: Pool) returns (r: Result)
    requires pool.Valid() && pool.queue == [] && pool.active == []
    ensures r.Report? && !SomeWorkerBroken(pool.scripts)
    ensures (r.exitCode == 0 <==> forall i :: 0 <= i < |pool.scripts| ==> Passes(pool.scripts[i])) && r.exitCode <= 1
    ensures r.passedCases == Sum(pool.scripts, PassedCases) && r.failedCases == Sum(pool.scripts, FailedCases)
    ensures r.failures == FailingReports(pool.scripts)
  {
    hide Discovered, Reported, Sum, Passes, Pool.Valid;
    EmptyPool(pool);
    EarlierIdIsStrict();
    FailuresUntied(pool.scripts, pool.done, pool.failures);
    var failures := Sort(pool.failures, EarlierId);
    SortedFailures(pool.scripts, pool.done, pool.failures, failures);
    NoneFailing(pool.scripts);
    r := Report(if pool.failedFiles == 0 then 0 else 1, pool.passedCases, pool.failedCases, failures);
  }
}
