/** What a run leaves in its log: statements, answers, commits and rollbacks, in order; and the
    properties of logs that the runs of module Push are proved to have. */
module RunLog {
  import opened Catalog
  import opened Operations

  // ----- what happens in a run

  datatype Event =
    | Executed(index: nat, sql: string)
    | ExecFailed(index: nat, sql: string)
    | Answered(index: nat, answer: string)
    | Committed
    | CommitFailed
    | RolledBack
  {
    predicate IsExec() { Executed? || ExecFailed? }
    predicate IsWork() { Executed? || ExecFailed? || Answered? }
  }

  datatype Failure =
    | ConnectError | BeginError | Interrupted | NonTransactional(index: nat) | ExecError(index: nat) | CommitError

  ghost predicate AllWork(log: seq<Event>) {
    forall i :: 0 <= i < |log| ==> log[i].IsWork()
  }

  /** The transaction is over: the work ends in a commit, in a rollback, or in a failed commit and a
      rollback. */
  ghost predicate Closed(log: seq<Event>) {
    log != [] &&
    var init, last := log[..|log| - 1], log[|log| - 1];
    || (last == Committed && AllWork(init))
    || (last == RolledBack &&
         (AllWork(init) || (init != [] && init[|init| - 1] == CommitFailed && AllWork(init[..|init| - 1]))))
  }

  ghost function Count(log: seq<Event>, p: Event -> bool): nat {
    if log == [] then 0 else Count(log[..|log| - 1], p) + if p(log[|log| - 1]) then 1 else 0
  }

  lemma {:induction false} CountNone(log: seq<Event>, p: Event -> bool)
    requires forall i :: 0 <= i < |log| ==> !p(log[i])
    ensures Count(log, p) == 0
  {
    if log != [] { CountNone(log[..|log| - 1], p); }
  }

  /** A closed transaction has one successful commit and no rollback, or no successful commit and
      exactly one rollback; and a commit was attempted once at most. */
  lemma ClosedOnce(log: seq<Event>)
    requires Closed(log)
    ensures var commits, rollbacks := Count(log, (e: Event) => e == Committed),
      Count(log, (e: Event) => e == RolledBack);
      (commits == 1 && rollbacks == 0) || (commits == 0 && rollbacks == 1)
    ensures Count(log, (e: Event) => e == Committed || e == CommitFailed) <= 1
  {
    var commits, rollbacks := (e: Event) => e == Committed, (e: Event) => e == RolledBack;
    var attempts := (e: Event) => e == Committed || e == CommitFailed;
    var init := log[..|log| - 1];
    var work := if AllWork(init) then init else init[..|init| - 1];
    CountNone(work, commits);
    CountNone(work, rollbacks);
    CountNone(work, attempts);
  }

  /** Nothing is executed after a commit, a failed commit or a rollback. */
  lemma NothingAfterTheEnd(log: seq<Event>, i: nat, j: nat)
    requires Closed(log) && i < j < |log| && log[j].IsExec()
    ensures log[i].IsWork()
  {
    var init := log[..|log| - 1];
    var work := if AllWork(init) then init else init[..|init| - 1];
    assert j < |work| && log[i] == work[i];
  }

  // ----- the statements that may be executed

  /** The plan and the settings of a run; rendering is opaque. */
  datatype Plan = Plan(ops: seq<Op>, unsafeDrop: bool, render: Op -> string, isNonTransactional: string -> bool)
  {
    function Sql(i: nat): string
      requires i < |ops|
    {
      render(ops[i])
    }

    /** The operation has a statement. */
    predicate Renders(i: nat)
      requires i < |ops|
    {
      Sql(i) != "" && !("-- Unknown" <= Sql(i))
    }

    predicate Blocked(i: nat)
      requires i < |ops|
    {
      ops[i].IsDestructive() && !unsafeDrop
    }

    predicate MayRun(i: nat)
      requires i < |ops|
    {
      Renders(i) && !isNonTransactional(Sql(i)) && !Blocked(i)
    }

    predicate Stops(i: nat)
      requires i < |ops|
    {
      Renders(i) && isNonTransactional(Sql(i))
    }
  }

  /** The executions of a log, in order. */
  ghost function Attempts(log: seq<Event>): seq<nat> {
    if log == [] then [] else
    Attempts(log[..|log| - 1]) + if log[|log| - 1].IsExec() then [log[|log| - 1].index] else []
  }

  lemma AttemptsSnoc(log: seq<Event>, e: Event)
    ensures Attempts(log + [e]) == Attempts(log) + if e.IsExec() then [e.index] else []
  {
    assert (log + [e])[..|log|] == log;
  }

  /** The executed statements are statements of the plan that may run, in the plan's order, each
      once at most. */
  ghost predicate Faithful(p: Plan, log: seq<Event>, n: nat) {
    && (forall i :: 0 <= i < |log| && log[i].IsExec() ==>
          log[i].index < n <= |p.ops| && p.MayRun(log[i].index) && log[i].sql == p.Sql(log[i].index))
    && (forall i, j :: 0 <= i < j < |log| && log[i].IsExec() && log[j].IsExec() ==> log[i].index < log[j].index)
  }

  lemma FaithfulExec(p: Plan, log: seq<Event>, n: nat, e: Event)
    requires Faithful(p, log, n) && n < |p.ops|
    requires e.IsExec() ==> e.index == n && p.MayRun(n) && e.sql == p.Sql(n)
    ensures Faithful(p, log + [e], n + 1)
  {
  }

  lemma FaithfulOther(p: Plan, log: seq<Event>, n: nat, e: Event)
    requires Faithful(p, log, n) && !e.IsExec()
    ensures Faithful(p, log + [e], n)
  {
  }

  lemma FaithfulMore(p: Plan, log: seq<Event>, n: nat, m: nat)
    requires Faithful(p, log, n) && n <= m <= |p.ops|
    ensures Faithful(p, log, m)
  {
  }

  /** The positions below `n` that may run. */
  ghost function Runnable(p: Plan, n: nat): seq<nat>
    requires n <= |p.ops|
  {
    if n == 0 then [] else Runnable(p, n - 1) + if p.MayRun(n - 1) then [n - 1] else []
  }

  // ----- consent

  /** The execution at `k` is covered by an answer "a": the one before it, or one before the
      executions that lead up to it without another question. */
  ghost predicate Granted(log: seq<Event>, k: nat)
    requires k < |log|
  {
    log[k].IsExec() && k > 0 &&
    (log[k - 1] == Answered(log[k].index, "a") || (log[k - 1].IsExec() && Granted(log, k - 1)))
  }

  ghost predicate SaidYes(log: seq<Event>, k: nat)
    requires k < |log|
  {
    log[k].IsExec() && k > 0 && log[k - 1] == Answered(log[k].index, "y")
  }

  /** Every statement has been answered with "y", or is covered by an "a". */
  ghost predicate Consented(log: seq<Event>) {
    forall k: nat :: k < |log| && log[k].IsExec() ==> Granted(log, k) || SaidYes(log, k)
  }

  /** The statement has been executed, or skipped at the user's request. */
  ghost predicate Handled(log: seq<Event>, i: nat) {
    exists k :: 0 <= k < |log| && ((log[k].IsExec() && log[k].index == i) || log[k] == Answered(i, "s"))
  }

  lemma {:induction false} GrantedPrefix(log: seq<Event>, e: Event, k: nat)
    requires k < |log|
    ensures Granted(log + [e], k) <==> Granted(log, k)
  {
    assert (log + [e])[k] == log[k];
    if k > 0 { GrantedPrefix(log, e, k - 1); }
  }

  /** The log entitles to execute statement `n` now. */
  ghost predicate MayAct(log: seq<Event>, n: nat) {
    log != [] &&
    (log[|log| - 1] == Answered(n, "y") || log[|log| - 1] == Answered(n, "a") ||
     (log[|log| - 1].IsExec() && Granted(log, |log| - 1)))
  }

  /** An "a" is still in force at the end of the log. */
  ghost predicate AllGranted(log: seq<Event>) {
    log != [] && log[|log| - 1].IsExec() && Granted(log, |log| - 1)
  }

  lemma ConsentStays(log: seq<Event>, e: Event)
    requires Consented(log)
    requires e.IsExec() ==> MayAct(log, e.index)
    ensures Consented(log + [e])
    ensures e.IsExec() && log[|log| - 1] != Answered(e.index, "y") ==> Granted(log + [e], |log|)
    ensures e.IsExec() && log[|log| - 1] == Answered(e.index, "y") ==> !Granted(log + [e], |log|)
  {
    var more := log + [e];
    if log != [] { GrantedPrefix(log, e, |log| - 1); }
    forall k: nat | k < |more| && more[k].IsExec() ensures Granted(more, k) || SaidYes(more, k) {
      if k < |log| {
        GrantedPrefix(log, e, k);
        assert more[k] == log[k];
      }
    }
  }

  /** As long as an "a" is in force, only a blocked statement is asked about. */
  ghost predicate CarriesOver(p: Plan, log: seq<Event>) {
    forall k :: 0 < k < |log| && log[k].Answered? && log[k - 1].IsExec() && Granted(log, k - 1) ==>
      log[k].index < |p.ops| && p.Blocked(log[k].index)
  }

  lemma CarriesOn(p: Plan, log: seq<Event>, e: Event)
    requires CarriesOver(p, log)
    requires e.Answered? && AllGranted(log) ==> e.index < |p.ops| && p.Blocked(e.index)
    ensures CarriesOver(p, log + [e])
  {
    var more := log + [e];
    forall k | 0 < k < |more| && more[k].Answered? && more[k - 1].IsExec() && Granted(more, k - 1)
      ensures more[k].index < |p.ops| && p.Blocked(more[k].index)
    {
      GrantedPrefix(log, e, k - 1);
      assert more[k - 1] == log[k - 1];
      if k < |log| { assert more[k] == log[k]; }
    }
  }

  // ----- what may come next

  /** The answer settles statement `i` by having it executed. */
  predicate Agrees(p: Plan, i: nat, answer: string) {
    (answer == "y" || answer == "a") && i < |p.ops| && !p.Blocked(i)
  }

  /** What may come right after an event: agreed to, a statement is executed; after "s" or its
      execution a later one has its turn; "n" and a failure end in a rollback; and any other answer
      is followed by the same question. */
  predicate Follows(p: Plan, e: Event, next: Event) {
    match e
    case Executed(i, _) => next.IsWork() ==> next.index > i
    case ExecFailed(_, _) => next == RolledBack
    case Answered(i, answer) =>
      if Agrees(p, i, answer) then next.IsExec() && next.index == i
      else if answer == "n" then next == RolledBack
      else if answer == "s" then next.IsWork() ==> next.index > i
      else next.Answered? && next.index == i
    case CommitFailed => next == RolledBack
    case Committed => false
    case RolledBack => false
  }

  /** Every answer is heeded, and only statements that render and can run in a transaction are asked
      about. */
  ghost predicate Obeyed(p: Plan, log: seq<Event>) {
    && (forall k :: 0 <= k < |log| - 1 ==> Follows(p, log[k], log[k + 1]))
    && forall k :: 0 <= k < |log| && log[k].Answered? ==>
         log[k].index < |p.ops| && p.Renders(log[k].index) && !p.Stops(log[k].index)
  }

  lemma ObeyedOn(p: Plan, log: seq<Event>, e: Event)
    requires Obeyed(p, log)
    requires log != [] ==> Follows(p, log[|log| - 1], e)
    requires e.Answered? ==> e.index < |p.ops| && p.Renders(e.index) && !p.Stops(e.index)
    ensures Obeyed(p, log + [e])
  {
    var more := log + [e];
    forall k | 0 <= k < |more| - 1 ensures Follows(p, more[k], more[k + 1]) {
      assert more[k] == log[k];
      if k + 1 < |log| { assert more[k + 1] == log[k + 1]; }
    }
  }

  /** The answers of a log, in order. */
  ghost function Replies(log: seq<Event>): seq<string> {
    if log == [] then [] else
    Replies(log[..|log| - 1]) + if log[|log| - 1].Answered? then [log[|log| - 1].answer] else []
  }

  lemma RepliesSnoc(log: seq<Event>, e: Event)
    ensures Replies(log + [e]) == Replies(log) + if e.Answered? then [e.answer] else []
  {
    assert (log + [e])[..|log|] == log;
  }

  // ----- the log of an interactive run

  /** What every log of an interactive run has. */
  ghost predicate Conversation(p: Plan, log: seq<Event>) {
    Faithful(p, log, |p.ops|) && Consented(log) && CarriesOver(p, log) && Obeyed(p, log)
  }

  /** Every rendered statement below `n` has been executed or skipped, and none had to stop the run. */
  ghost predicate HandledBelow(p: Plan, log: seq<Event>, n: nat) {
    n <= |p.ops| && forall i :: 0 <= i < n && p.Renders(i) ==> Handled(log, i) && !p.Stops(i)
  }

  ghost predicate NoFailure(log: seq<Event>) {
    forall i :: 0 <= i < |log| ==> log[i].Executed? || log[i].Answered?
  }

  /** The end of the log leaves the turn to statement `n`. */
  ghost predicate TurnOf(log: seq<Event>, n: nat) {
    log != [] ==>
      var last := log[|log| - 1];
      last.IsWork() && last.index < n && (last.Executed? || (last.Answered? && last.answer == "s"))
  }

  /** The end of the log is an answer about statement `n` that settles nothing. */
  ghost predicate AskAgain(p: Plan, log: seq<Event>, n: nat) {
    && log != [] && log[|log| - 1].Answered? && log[|log| - 1].index == n
    && var answer := log[|log| - 1].answer;
       !Agrees(p, n, answer) && answer != "n" && answer != "s"
  }

  ghost predicate Talked(p: Plan, log: seq<Event>, n: nat) {
    && n <= |p.ops|
    && NoFailure(log) && Faithful(p, log, n) && Consented(log) && CarriesOver(p, log) && Obeyed(p, log)
    && HandledBelow(p, log, n)
  }

  /** Every statement below `n` is settled; `applyAll` says whether an "a" is in force. */
  ghost predicate TalkedSoFar(p: Plan, log: seq<Event>, n: nat, applyAll: bool) {
    Talked(p, log, n) && TurnOf(log, n) && (applyAll <==> AllGranted(log))
  }

  /** Statement `n` is to be asked about: for the first time, or again. */
  ghost predicate Asking(p: Plan, log: seq<Event>, n: nat) {
    && Talked(p, log, n) && n < |p.ops| && p.Renders(n) && !p.Stops(n)
    && (TurnOf(log, n) || AskAgain(p, log, n))
    && (AllGranted(log) ==> p.Blocked(n))
  }

  /** Statement `n` is to be executed. */
  ghost predicate Acting(p: Plan, log: seq<Event>, n: nat) {
    && Talked(p, log, n) && n < |p.ops| && p.MayRun(n) && MayAct(log, n)
    && Follows(p, log[|log| - 1], Executed(n, p.Sql(n))) && Follows(p, log[|log| - 1], ExecFailed(n, p.Sql(n)))
  }

  lemma TalkStarts(p: Plan)
    ensures TalkedSoFar(p, [], 0, false)
  {
  }

  lemma NoFailureIsWork(log: seq<Event>)
    requires NoFailure(log)
    ensures AllWork(log)
  {
  }

  lemma TalkIsWork(p: Plan, log: seq<Event>, n: nat)
    requires Talked(p, log, n)
    ensures AllWork(log) && n <= |p.ops|
  {
    NoFailureIsWork(log);
  }

  lemma HandledStays(log: seq<Event>, e: Event, i: nat)
    ensures Handled(log, i) ==> Handled(log + [e], i)
    ensures (e.IsExec() && e.index == i) || e == Answered(i, "s") ==> Handled(log + [e], i)
  {
    if Handled(log, i) {
      var k :| 0 <= k < |log| && ((log[k].IsExec() && log[k].index == i) || log[k] == Answered(i, "s"));
      assert (log + [e])[k] == log[k];
    }
    assert (log + [e])[|log|] == e;
  }

  lemma HandledOn(p: Plan, log: seq<Event>, n: nat, e: Event)
    requires HandledBelow(p, log, n)
    ensures HandledBelow(p, log + [e], n)
    ensures n < |p.ops| && !p.Stops(n) && ((e.IsExec() && e.index == n) || e == Answered(n, "s")) ==>
              HandledBelow(p, log + [e], n + 1)
  {
    forall i: nat | i <= n && i < |p.ops| ensures Handled(log, i) ==> Handled(log + [e], i) { HandledStays(log, e, i); }
    HandledStays(log, e, n);
  }

  lemma TalkSkips(p: Plan, log: seq<Event>, n: nat, applyAll: bool)
    requires TalkedSoFar(p, log, n, applyAll) && n < |p.ops| && !p.Renders(n)
    ensures TalkedSoFar(p, log, n + 1, applyAll)
  {
    FaithfulMore(p, log, n, n + 1);
  }

  /** The statement has to be asked about: no "a" is in force, or the statement is blocked. */
  lemma TalkAsks(p: Plan, log: seq<Event>, n: nat, applyAll: bool)
    requires TalkedSoFar(p, log, n, applyAll) && n < |p.ops| && p.Renders(n) && !p.Stops(n)
    requires applyAll ==> p.Blocked(n)
    ensures Asking(p, log, n)
  {
  }

  /** An "a" is in force and the statement is not blocked. */
  lemma TalkCovers(p: Plan, log: seq<Event>, n: nat)
    requires TalkedSoFar(p, log, n, true) && n < |p.ops| && p.MayRun(n)
    ensures Acting(p, log, n)
  {
  }

  lemma AnswerFollows(p: Plan, log: seq<Event>, n: nat, answer: string)
    requires Asking(p, log, n)
    ensures log != [] ==> Follows(p, log[|log| - 1], Answered(n, answer))
  {
  }

  /** An answer has been given. */
  lemma TalkAnswers(p: Plan, log: seq<Event>, n: nat, answer: string)
    requires Asking(p, log, n)
    ensures Talked(p, log + [Answered(n, answer)], n)
    ensures !AllGranted(log + [Answered(n, answer)])
  {
    hide Follows, Obeyed, Plan.Renders, Plan.Stops, Plan.Blocked, Handled, HandledBelow, TurnOf, AskAgain;
    hide Consented, CarriesOver, Faithful;
    var e := Answered(n, answer);
    AnswerFollows(p, log, n, answer);
    FaithfulOther(p, log, n, e);
    ConsentStays(log, e);
    CarriesOn(p, log, e);
    ObeyedOn(p, log, e);
    HandledOn(p, log, n, e);
  }

  lemma TalkAgrees(p: Plan, log: seq<Event>, n: nat, answer: string)
    requires Asking(p, log, n) && Agrees(p, n, answer)
    ensures Acting(p, log + [Answered(n, answer)], n)
  {
    TalkAnswers(p, log, n, answer);
  }

  lemma TalkGoesOn(p: Plan, log: seq<Event>, n: nat, answer: string)
    requires Asking(p, log, n) && !Agrees(p, n, answer) && answer != "n" && answer != "s"
    ensures Asking(p, log + [Answered(n, answer)], n)
  {
    TalkAnswers(p, log, n, answer);
  }

  lemma TalkLeavesOut(p: Plan, log: seq<Event>, n: nat)
    requires Asking(p, log, n)
    ensures TalkedSoFar(p, log + [Answered(n, "s")], n + 1, false)
  {
    hide Consented, CarriesOver, Obeyed;
    TalkAnswers(p, log, n, "s");
    HandledOn(p, log, n, Answered(n, "s"));
    FaithfulMore(p, log + [Answered(n, "s")], n, n + 1);
  }

  lemma Acted(p: Plan, log: seq<Event>, n: nat, e: Event)
    requires Acting(p, log, n) && (e == Executed(n, p.Sql(n)) || e == ExecFailed(n, p.Sql(n)))
    ensures Faithful(p, log + [e], n + 1) && Consented(log + [e]) && CarriesOver(p, log + [e])
    ensures Obeyed(p, log + [e]) && HandledBelow(p, log + [e], n + 1)
    ensures AllGranted(log + [e]) <==> log[|log| - 1] != Answered(n, "y")
  {
    hide Follows, Obeyed, Plan.MayRun, Plan.Stops, Handled, HandledBelow, Consented, CarriesOver, Faithful, Agrees;
    RunsOn(p, n);
    FaithfulExec(p, log, n, e);
    ConsentStays(log, e);
    CarriesOn(p, log, e);
    ObeyedOn(p, log, e);
    HandledOn(p, log, n, e);
  }

  /** The statement has been executed. */
  lemma TalkExecutes(p: Plan, log: seq<Event>, n: nat)
    requires Acting(p, log, n)
    ensures TalkedSoFar(p, log + [Executed(n, p.Sql(n))], n + 1, log[|log| - 1] != Answered(n, "y"))
  {
    hide Follows, Obeyed, Plan.MayRun, Consented, CarriesOver, Faithful, HandledBelow;
    Acted(p, log, n, Executed(n, p.Sql(n)));
  }

  // ----- how an interactive run ends

  /** The user has said "n", or the input has ended, and the work has been rolled back. */
  ghost predicate Declined(p: Plan, log: seq<Event>) {
    && |log| >= 2 && log[|log| - 1] == RolledBack
    && log[|log| - 2].Answered? && log[|log| - 2].answer == "n"
    && Closed(log)
  }

  /** Every statement of the plan has been executed or skipped, and the work committed. */
  ghost predicate Settled(p: Plan, log: seq<Event>) {
    && log != [] && log[|log| - 1] == Committed && Closed(log)
    && HandledBelow(p, log, |p.ops|) && NoFailure(log[..|log| - 1])
  }

  /** The run has failed, and for this reason: everything before the statement it failed at had been
      executed or skipped. */
  ghost predicate TalkFailed(p: Plan, log: seq<Event>, f: Failure) {
    && Committed !in log
    && (f.ExecError? || forall e :: e in log ==> !e.ExecFailed?)
    && match f
       case Interrupted => true
       case NonTransactional(i) => i < |p.ops| && p.Stops(i) && HandledBelow(p, log, i)
       case ExecError(i) =>
         i < |p.ops| && ExecFailed(i, p.Sql(i)) in log && HandledBelow(p, log, i)
       case CommitError => CommitFailed in log && HandledBelow(p, log, |p.ops|)
       case ConnectError => false
       case BeginError => false
  }

  lemma TalkClosed(p: Plan, log: seq<Event>, n: nat, e: Event)
    requires Talked(p, log, n) && (log != [] ==> Follows(p, log[|log| - 1], e))
    requires e == RolledBack || e == Committed || e == CommitFailed
    ensures Conversation(p, log + [e]) && HandledBelow(p, log + [e], n)
  {
    hide Follows, Obeyed, Plan.Stops, Plan.Renders, Handled, Consented, CarriesOver;
    FaithfulOther(p, log, n, e);
    FaithfulMore(p, log + [e], n, |p.ops|);
    ConsentStays(log, e);
    CarriesOn(p, log, e);
    ObeyedOn(p, log, e);
    HandledOn(p, log, n, e);
  }

  lemma EndFollows(p: Plan, log: seq<Event>, n: nat, e: Event)
    requires log != [] && TurnOf(log, n) && !e.IsWork()
    ensures Follows(p, log[|log| - 1], e)
  {
  }

  lemma TalkBreaks(p: Plan, log: seq<Event>, n: nat, applyAll: bool, f: Failure)
    requires TalkedSoFar(p, log, n, applyAll)
    requires f == Interrupted || (f == NonTransactional(n) && n < |p.ops| && p.Stops(n))
    ensures Conversation(p, log + [RolledBack]) && TalkFailed(p, log + [RolledBack], f) && Closed(log + [RolledBack])
  {
    hide Follows, Plan.Stops, Conversation, HandledBelow;
    if log != [] { EndFollows(p, log, n, RolledBack); }
    TalkClosed(p, log, n, RolledBack);
    ClosedByRollback(log);
  }

  lemma TalkDeclines(p: Plan, log: seq<Event>, n: nat)
    requires Asking(p, log, n)
    ensures var end := log + [Answered(n, "n")] + [RolledBack];
      Conversation(p, end) && Declined(p, end)
  {
    hide Talked, Conversation, HandledBelow;
    var answered := log + [Answered(n, "n")];
    TalkAnswers(p, log, n, "n");
    TalkIsWork(p, answered, n);
    assert answered[|log|] == Answered(n, "n");
    TalkClosed(p, answered, n, RolledBack);
    ClosedByRollback(answered);
  }

  /** The statement has failed; the rollback is still to come. */
  lemma TalkFails(p: Plan, log: seq<Event>, n: nat)
    requires Acting(p, log, n)
    ensures var end := log + [ExecFailed(n, p.Sql(n))];
      Conversation(p, end) && TalkFailed(p, end, ExecError(n)) && AllWork(end)
  {
    hide Follows, Obeyed, Plan.MayRun, Consented, CarriesOver;
    var end := log + [ExecFailed(n, p.Sql(n))];
    Acted(p, log, n, ExecFailed(n, p.Sql(n)));
    FaithfulMore(p, end, n + 1, |p.ops|);
    assert end[|log|] == ExecFailed(n, p.Sql(n));
  }

  lemma TalkEndsIn(p: Plan, log: seq<Event>, applyAll: bool, e: Event)
    requires TalkedSoFar(p, log, |p.ops|, applyAll) && (e == Committed || e == CommitFailed)
    ensures Conversation(p, log + [e]) && HandledBelow(p, log + [e], |p.ops|) && NoFailure(log) && AllWork(log)
  {
    hide Follows, Conversation, HandledBelow, Plan.Stops, Faithful, Consented, CarriesOver, Obeyed;
    if log != [] { EndFollows(p, log, |p.ops|, e); }
    TalkClosed(p, log, |p.ops|, e);
    NoFailureIsWork(log);
  }

  lemma TalkCommits(p: Plan, log: seq<Event>, applyAll: bool)
    requires TalkedSoFar(p, log, |p.ops|, applyAll)
    ensures Conversation(p, log + [Committed]) && Settled(p, log + [Committed])
    ensures Conversation(p, log + [CommitFailed]) && TalkFailed(p, log + [CommitFailed], CommitError)
  {
    hide TalkedSoFar, Conversation, HandledBelow, AllWork;
    TalkEndsIn(p, log, applyAll, Committed);
    TalkEndsIn(p, log, applyAll, CommitFailed);
    assert (log + [Committed])[..|log|] == log;
    assert (log + [CommitFailed])[|log|] == CommitFailed;
  }

  /** The rollback that ends a run whose transaction is still open. */
  lemma TalkRolledBack(p: Plan, log: seq<Event>, f: Failure)
    requires Conversation(p, log) && TalkFailed(p, log, f)
    requires log != [] && (log[|log| - 1].ExecFailed? || log[|log| - 1] == CommitFailed)
    ensures Conversation(p, log + [RolledBack]) && TalkFailed(p, log + [RolledBack], f)
  {
    hide Obeyed, Plan.Stops, Handled, Consented, CarriesOver, HandledBelow;
    var e := RolledBack;
    FaithfulOther(p, log, |p.ops|, e);
    ConsentStays(log, e);
    CarriesOn(p, log, e);
    ObeyedOn(p, log, e);
    forall n: nat ensures HandledBelow(p, log, n) ==> HandledBelow(p, log + [e], n) {
      if HandledBelow(p, log, n) { HandledOn(p, log, n, e); }
    }
    assert forall f :: f in log + [e] ==> f in log || f == e;
  }

  // ----- the log of an automatic run

  /** Exactly the statements below `n` that may run have been attempted, and none had to stop the run. */
  ghost predicate Ran(p: Plan, log: seq<Event>, n: nat) {
    n <= |p.ops| && Attempts(log) == Runnable(p, n) && forall i :: 0 <= i < n ==> !p.Stops(i)
  }

  /** Everything below `n` that may run has been executed. */
  ghost predicate AutoSoFar(p: Plan, log: seq<Event>, n: nat) {
    Ran(p, log, n) && Faithful(p, log, n) && forall i :: 0 <= i < |log| ==> log[i].Executed?
  }

  /** The run has failed, and for this reason: exactly the statements up to the failure that may run
      had been attempted. */
  ghost predicate AutoFailed(p: Plan, log: seq<Event>, f: Failure) {
    && Faithful(p, log, |p.ops|) && Committed !in log
    && match f
       case Interrupted => exists n: nat :: Ran(p, log, n)
       case NonTransactional(i) => i < |p.ops| && p.Stops(i) && Ran(p, log, i)
       case ExecError(i) =>
         i < |p.ops| && p.MayRun(i) && ExecFailed(i, p.Sql(i)) in log && Ran(p, log, i + 1)
       case CommitError => CommitFailed in log && Ran(p, log, |p.ops|)
       case ConnectError => false
       case BeginError => false
  }

  /** Exactly the statements that may run have been executed, all of them successfully, and the
      transaction has been committed. */
  ghost predicate AutoCommitted(p: Plan, log: seq<Event>) {
    && log != [] && log[|log| - 1] == Committed && Ran(p, log, |p.ops|)
    && forall i :: 0 <= i < |log| - 1 ==> log[i].Executed?
  }

  lemma AutoStarts(p: Plan)
    ensures AutoSoFar(p, [], 0)
  {
  }

  lemma AutoIsWork(p: Plan, log: seq<Event>, n: nat)
    requires AutoSoFar(p, log, n)
    ensures AllWork(log)
  {
  }

  lemma AutoSkips(p: Plan, log: seq<Event>, n: nat)
    requires AutoSoFar(p, log, n) && n < |p.ops| && !p.MayRun(n) && !p.Stops(n)
    ensures AutoSoFar(p, log, n + 1)
  {
    FaithfulMore(p, log, n, n + 1);
  }

  lemma RunsOn(p: Plan, n: nat)
    requires n < |p.ops| && p.MayRun(n)
    ensures !p.Stops(n)
  {
  }

  lemma RanOn(p: Plan, log: seq<Event>, n: nat, e: Event)
    requires Ran(p, log, n) && n < |p.ops| && p.MayRun(n) && e.IsExec() && e.index == n
    ensures Ran(p, log + [e], n + 1)
  {
    hide Plan.MayRun, Plan.Stops, Attempts;
    RunsOn(p, n);
    AttemptsSnoc(log, e);
    assert Runnable(p, n + 1) == Runnable(p, n) + [n];
  }

  lemma RanStays(p: Plan, log: seq<Event>, n: nat, e: Event)
    requires Ran(p, log, n) && !e.IsExec()
    ensures Ran(p, log + [e], n)
  {
    AttemptsSnoc(log, e);
  }

  lemma AutoExecutes(p: Plan, log: seq<Event>, n: nat)
    requires AutoSoFar(p, log, n) && n < |p.ops| && p.MayRun(n)
    ensures AutoSoFar(p, log + [Executed(n, p.Sql(n))], n + 1)
  {
    hide Plan.MayRun, Faithful, Ran;
    FaithfulExec(p, log, n, Executed(n, p.Sql(n)));
    RanOn(p, log, n, Executed(n, p.Sql(n)));
  }

  lemma AutoFails(p: Plan, log: seq<Event>, n: nat)
    requires AutoSoFar(p, log, n) && n < |p.ops| && p.MayRun(n)
    ensures var end := log + [ExecFailed(n, p.Sql(n))] + [RolledBack];
      AutoFailed(p, end, ExecError(n)) && Closed(end)
  {
    hide Plan.MayRun, Closed, Ran;
    var failed := log + [ExecFailed(n, p.Sql(n))];
    FaithfulExec(p, log, n, ExecFailed(n, p.Sql(n)));
    FaithfulOther(p, failed, n + 1, RolledBack);
    FaithfulMore(p, failed + [RolledBack], n + 1, |p.ops|);
    RanOn(p, log, n, ExecFailed(n, p.Sql(n)));
    RanStays(p, failed, n + 1, RolledBack);
    ClosedByRollback(failed);
    assert (failed + [RolledBack])[|log|] == ExecFailed(n, p.Sql(n));
  }

  lemma AutoRolledBack(p: Plan, log: seq<Event>, n: nat, f: Failure)
    requires AutoSoFar(p, log, n)
    requires f == Interrupted || (f == NonTransactional(n) && n < |p.ops| && p.Stops(n))
    ensures AutoFailed(p, log + [RolledBack], f) && Closed(log + [RolledBack])
  {
    hide Plan.Stops, Attempts;
    FaithfulOther(p, log, n, RolledBack);
    FaithfulMore(p, log + [RolledBack], n, |p.ops|);
    RanStays(p, log, n, RolledBack);
    ClosedByRollback(log);
  }

  lemma ClosedByRollback(log: seq<Event>)
    requires AllWork(log)
    ensures Closed(log + [RolledBack])
  {
    assert (log + [RolledBack])[..|log|] == log;
  }

  lemma AutoCommits(p: Plan, log: seq<Event>)
    requires AutoSoFar(p, log, |p.ops|)
    ensures AutoCommitted(p, log + [Committed]) && Faithful(p, log + [Committed], |p.ops|)
    ensures AutoFailed(p, log + [CommitFailed], CommitError)
  {
    hide Ran;
    RanStays(p, log, |p.ops|, Committed);
    RanStays(p, log, |p.ops|, CommitFailed);
    FaithfulOther(p, log, |p.ops|, Committed);
    FaithfulOther(p, log, |p.ops|, CommitFailed);
    assert (log + [CommitFailed])[|log|] == CommitFailed;
  }

  lemma AutoRollsBack(p: Plan, log: seq<Event>, f: Failure)
    requires AutoFailed(p, log, f)
    ensures AutoFailed(p, log + [RolledBack], f)
  {
    hide Ran, Plan.Stops, Plan.MayRun;
    FaithfulOther(p, log, |p.ops|, RolledBack);
    forall n: nat ensures Ran(p, log, n) ==> Ran(p, log + [RolledBack], n) {
      if Ran(p, log, n) { RanStays(p, log, n, RolledBack); }
    }
  }
}
