/** Executing a plan in one transaction: automatically, or with a prompt for every statement.
    Which statements fail, whether the commit fails, when the run is cancelled and what the user
    types are arbitrary; what a run leaves in its log is the subject of module RunLog. */
module Push {
  import opened Catalog
  import opened Contexts
  import opened Operations
  import opened RunLog

  // ----- the user

  /** White space as unicode.IsSpace has it. */
  predicate IsSpace(c: char) {
    '\t' <= c <= '\r' || c == ' ' || c == '\U{0085}' || c == '\U{00A0}' || c == '\U{1680}' ||
    '\U{2000}' <= c <= '\U{200A}' || c == '\U{2028}' || c == '\U{2029}' || c == '\U{202F}' ||
    c == '\U{205F}' || c == '\U{3000}'
  }

  function TrimLeft(s: string): string {
    if s != [] && IsSpace(s[0]) then TrimLeft(s[1..]) else s
  }

  function TrimRight(s: string): string {
    if s != [] && IsSpace(s[|s| - 1]) then TrimRight(s[..|s| - 1]) else s
  }

  /** Lower-casing of the letters that an answer can be made of. */
  function LowerChar(c: char): char {
    if 'A' <= c <= 'Z' then (c as int + 32) as char else c
  }

  function Lower(s: string): string {
    seq(|s|, i requires 0 <= i < |s| => LowerChar(s[i]))
  }

  function Normal(s: string): string {
    Lower(TrimRight(TrimLeft(s)))
  }

  ghost predicate AllSpace(s: string) {
    forall i :: 0 <= i < |s| ==> IsSpace(s[i])
  }

  /** The text between the white space at either end. */
  ghost predicate IsCore(s: string, a: string, core: string, b: string) {
    && s == a + core + b && AllSpace(a) && AllSpace(b)
    && (core != [] ==> !IsSpace(core[0]) && !IsSpace(core[|core| - 1]))
  }

  lemma {:induction false} TrimmedLeft(s: string) returns (a: string)
    ensures s == a + TrimLeft(s) && AllSpace(a)
    ensures TrimLeft(s) != [] ==> !IsSpace(TrimLeft(s)[0])
  {
    if s != [] && IsSpace(s[0]) {
      var rest := TrimmedLeft(s[1..]);
      a := [s[0]] + rest;
      assert s == [s[0]] + s[1..];
    } else {
      a := [];
    }
  }

  lemma {:induction false} TrimmedRight(s: string) returns (b: string)
    ensures s == TrimRight(s) + b && AllSpace(b)
    ensures TrimRight(s) != [] ==> !IsSpace(TrimRight(s)[|TrimRight(s)| - 1])
  {
    if s != [] && IsSpace(s[|s| - 1]) {
      var rest := TrimmedRight(s[..|s| - 1]);
      b := rest + [s[|s| - 1]];
      assert s == s[..|s| - 1] + [s[|s| - 1]];
    } else {
      b := [];
    }
  }

  /** Trimming leaves what stands between the white space. */
  lemma TrimmedIsCore(s: string) returns (a: string, b: string)
    ensures IsCore(s, a, TrimRight(TrimLeft(s)), b)
  {
    a := TrimmedLeft(s);
    b := TrimmedRight(TrimLeft(s));
    var core := TrimRight(TrimLeft(s));
    assert a + TrimLeft(s) == a + core + b;
    if core != [] { assert TrimLeft(s)[0] == core[0]; }
  }

  lemma {:induction false} TrimsLeft(a: string, s: string)
    requires AllSpace(a) && (s != [] ==> !IsSpace(s[0]))
    ensures TrimLeft(a + s) == s
  {
    if a == [] {
      assert a + s == s;
    } else {
      assert (a + s)[1..] == a[1..] + s;
      TrimsLeft(a[1..], s);
    }
  }

  lemma {:induction false} TrimsRight(s: string, b: string)
    requires AllSpace(b) && (s != [] ==> !IsSpace(s[|s| - 1]))
    ensures TrimRight(s + b) == s
  {
    if b == [] {
      assert s + b == s;
    } else {
      assert (s + b)[..|s + b| - 1] == s + b[..|b| - 1];
      TrimsRight(s, b[..|b| - 1]);
    }
  }

  /** There is only one such text. */
  lemma CoreIsTrimmed(s: string, a: string, core: string, b: string)
    requires IsCore(s, a, core, b)
    ensures TrimRight(TrimLeft(s)) == core
  {
    if core == [] {
      assert s == (a + b) + [] && AllSpace(a + b);
      TrimsLeft(a + b, []);
    } else {
      assert s == a + (core + b) && (core + b)[0] == core[0];
      TrimsLeft(a, core + b);
      TrimsRight(core, b);
    }
  }

  /** The letters that an answer consists of, in lower case and in upper case. */
  const LETTERS: seq<(char, char)> := [('y', 'Y'), ('n', 'N'), ('a', 'A'), ('s', 'S')]

  lemma LetterOfAnswer(core: string, small: char, large: char)
    requires (small, large) in LETTERS
    ensures Lower(core) == [small] <==> core == [small] || core == [large]
    ensures !IsSpace(small) && !IsSpace(large)
  {
    assert LowerChar(small) == small && LowerChar(large) == small;
    if Lower(core) == [small] {
      assert LowerChar(core[0]) == Lower(core)[0];
    }
    assert Lower([small]) == [small] && Lower([large]) == [small];
  }

  /** An answer is one of the four letters exactly when that letter has been typed, in lower case or
      in upper case, with nothing but white space around it. */
  lemma AnswerExact(s: string, small: char, large: char)
    requires (small, large) in LETTERS
    ensures Normal(s) == [small] <==>
            exists a, b :: AllSpace(a) && AllSpace(b) && (s == a + [small] + b || s == a + [large] + b)
  {
    hide IsSpace, LowerChar, Lower, TrimLeft, TrimRight, AllSpace;
    var a, b := TrimmedIsCore(s);
    LetterOfAnswer(TrimRight(TrimLeft(s)), small, large);
    forall a, b | AllSpace(a) && AllSpace(b) && (s == a + [small] + b || s == a + [large] + b)
      ensures Normal(s) == [small]
    {
      var c := if s == a + [small] + b then small else large;
      CoreIsTrimmed(s, a, [c], b);
    }
  }

  lemma LowerCharTwice(c: char)
    ensures LowerChar(LowerChar(c)) == LowerChar(c) && IsSpace(LowerChar(c)) == IsSpace(c)
  {
  }

  lemma LowerTwice(s: string)
    ensures Lower(Lower(s)) == Lower(s)
    ensures |Lower(s)| == |s| && forall i :: 0 <= i < |s| ==> IsSpace(Lower(s)[i]) == IsSpace(s[i])
  {
    hide IsSpace, LowerChar;
    forall i | 0 <= i < |s|
      ensures LowerChar(Lower(s)[i]) == Lower(s)[i] && IsSpace(Lower(s)[i]) == IsSpace(s[i]) { LowerCharTwice(s[i]); }
    assert forall i :: 0 <= i < |s| ==> Lower(Lower(s))[i] == LowerChar(Lower(s)[i]);
  }

  /** Reading an answer a second time does not change it. */
  lemma NormalTwice(s: string)
    ensures Normal(Normal(s)) == Normal(s)
  {
    hide IsSpace, LowerChar, TrimLeft, TrimRight, Lower;
    var a, b := TrimmedIsCore(s);
    var core := TrimRight(TrimLeft(s));
    LowerTwice(core);
    assert Lower(core) == [] + Lower(core) + [];
    CoreIsTrimmed(Lower(core), [], Lower(core), []);
  }

  lemma EndIsNo()
    ensures Normal("n") == "n"
  {
    assert TrimLeft("n") == "n" && TrimRight("n") == "n";
    assert Lower("n") == "n";
  }

  function Answers(lines: seq<string>): (r: seq<string>)
    ensures |r| == |lines|
  {
    seq(|lines|, i requires 0 <= i < |lines| => Normal(lines[i]))
  }

  /** What the user types: the lines that are ended by a line break.  Whatever comes after the last of
      them reads as the end of the input. */
  class Console {
    var lines: seq<string>

    constructor (lines: seq<string>)
      ensures this.lines == lines
    {
      this.lines := lines;
    }

    /** The next line; the end of the input reads as "n". */
    method ReadUserInput() returns (input: string)
      modifies this
      ensures old(lines) == [] ==> input == "n" && lines == []
      ensures old(lines) != [] ==> input == Normal(old(lines)[0]) && lines == old(lines)[1..]
    {
      if |lines| == 0 {
        return "n";
      }
      input := Normal(lines[0]);
      lines := lines[1..];
    }
  }

  /** The answers in the log are the lines that have been read; past the last line, the answer is
      "n", once. */
  ghost predicate Heard(lines: seq<string>, replies: seq<string>, rest: seq<string>) {
    || replies + Answers(rest) == Answers(lines)
    || (rest == [] && replies == Answers(lines) + ["n"])
  }

  /** There has always been a line to read. */
  ghost predicate HeardSoFar(lines: seq<string>, log: seq<Event>, rest: seq<string>) {
    Replies(log) + Answers(rest) == Answers(lines)
  }

  lemma HearsLine(lines: seq<string>, log: seq<Event>, rest: seq<string>, i: nat)
    requires HeardSoFar(lines, log, rest) && rest != []
    ensures HeardSoFar(lines, log + [Answered(i, Normal(rest[0]))], rest[1..])
  {
    RepliesSnoc(log, Answered(i, Normal(rest[0])));
    assert Answers(rest) == [Normal(rest[0])] + Answers(rest[1..]);
  }

  lemma HearsEnd(lines: seq<string>, log: seq<Event>, i: nat)
    requires HeardSoFar(lines, log, [])
    ensures Heard(lines, Replies(log + [Answered(i, "n")]), [])
  {
    RepliesSnoc(log, Answered(i, "n"));
  }

  lemma HearsOn(lines: seq<string>, log: seq<Event>, rest: seq<string>, e: Event)
    requires !e.Answered?
    ensures HeardSoFar(lines, log, rest) ==> HeardSoFar(lines, log + [e], rest)
    ensures Heard(lines, Replies(log), rest) ==> Heard(lines, Replies(log + [e]), rest)
  {
    RepliesSnoc(log, e);
  }

  // ----- the transaction

  class Tx {
    const execFails: nat -> bool
    const commitFails: bool
    var execs: nat
    var log: seq<Event>

    constructor (execFails: nat -> bool, commitFails: bool)
      ensures this.execFails == execFails && this.commitFails == commitFails
      ensures execs == 0 && log == []
    {
      this.execFails, this.commitFails := execFails, commitFails;
      execs, log := 0, [];
    }

    /** One of the executions from number `since` on has failed. */
    ghost predicate Failed(since: nat)
      reads this`execs
    {
      exists k: nat :: since <= k < execs && execFails(k)
    }

    lemma NoneFailed()
      ensures !Failed(execs)
    {
    }

    /** Failures add up. */
    twostate lemma FailedOn(since: nat)
      requires since <= old(execs) <= execs
      ensures Failed(since) <==> old(Failed(since)) || Failed(old(execs))
    {
      if Failed(since) {
        var k: nat :| since <= k < execs && execFails(k);
        assert k < old(execs) || old(execs) <= k;
      }
    }

    method Exec(index: nat, sql: string) returns (failed: bool)
      modifies this
      ensures failed == execFails(old(execs)) && execs == old(execs) + 1
      ensures log == old(log) + [if failed then ExecFailed(index, sql) else Executed(index, sql)]
    {
      failed := execFails(execs);
      execs := execs + 1;
      log := log + [if failed then ExecFailed(index, sql) else Executed(index, sql)];
    }

    method Commit() returns (failed: bool)
      modifies this`log
      ensures failed == commitFails && log == old(log) + [if failed then CommitFailed else Committed]
    {
      failed := commitFails;
      log := log + [if failed then CommitFailed else Committed];
    }

    method Rollback()
      modifies this`log
      ensures log == old(log) + [RolledBack]
    {
      log := log + [RolledBack];
    }
  }

  /** The work has not been committed or rolled back. */
  ghost predicate Open(log: seq<Event>) {
    AllWork(log) || (log != [] && log[|log| - 1] == CommitFailed && AllWork(log[..|log| - 1]))
  }

  /** A run of a plan succeeds, or ends with the failure that its circumstances call for. */
  ghost predicate Explained(p: Plan, err: Option<Failure>, cancelled: bool, failed: bool, commitFails: bool) {
    && (err == Some(Interrupted) <==> p.ops != [] && cancelled)
    && (err.Some? && err.value.ExecError? <==> failed)
    && (err == Some(CommitError) ==> commitFails)
  }

  class TransactionState {
    const tx: Tx
    var active: bool

    constructor (tx: Tx)
      ensures this.tx == tx && active
    {
      this.tx := tx;
      active := true;
    }

    /** The flag says whether the transaction is open. */
    ghost predicate Valid()
      reads this, tx
    {
      if active then Open(tx.log) else Closed(tx.log)
    }

    method Rollback()
      requires Valid()
      modifies this`active, tx`log
      ensures Valid() && !active
      ensures tx.log == if old(active) then old(tx.log) + [RolledBack] else old(tx.log)
    {
      if active {
        tx.Rollback();
        active := false;
        assert tx.log[..|tx.log| - 1] == old(tx.log);
      }
    }

    method FailWithRollback(f: Failure) returns (err: Option<Failure>)
      requires Valid()
      modifies this`active, tx`log
      ensures Valid() && !active && err == Some(f)
      ensures tx.log == if old(active) then old(tx.log) + [RolledBack] else old(tx.log)
    {
      Rollback();
      return Some(f);
    }

    method CommitTransaction() returns (err: Option<Failure>)
      requires active && AllWork(tx.log)
      modifies this`active, tx`log
      ensures Valid() && tx.log == old(tx.log) + [if tx.commitFails then CommitFailed else Committed]
      ensures err == if tx.commitFails then Some(CommitError) else None
      ensures active == tx.commitFails
    {
      var failed := tx.Commit();
      assert tx.log[..|tx.log| - 1] == old(tx.log);
      if failed {
        return Some(CommitError);
      }
      active := false;
      return None;
    }

    method ExecuteOne(index: nat, sql: string) returns (err: Option<Failure>)
      requires active && AllWork(tx.log)
      modifies tx
      ensures AllWork(tx.log) && tx.execs == old(tx.execs) + 1
      ensures err == if tx.execFails(old(tx.execs)) then Some(ExecError(index)) else None
      ensures tx.log == old(tx.log) + [if err.Some? then ExecFailed(index, sql) else Executed(index, sql)]
    {
      var failed := tx.Exec(index, sql);
      return if failed then Some(ExecError(index)) else None;
    }

    // ----- with a prompt for every statement

    method Note(index: nat, answer: string)
      requires active && AllWork(tx.log)
      modifies tx`log
      ensures AllWork(tx.log) && tx.log == old(tx.log) + [Answered(index, answer)]
    {
      tx.log := tx.log + [Answered(index, answer)];
    }

    /** Reads an answer and writes it down. */
    method Ask(console: Console, i: nat, ghost lines: seq<string>) returns (input: string)
      requires active && AllWork(tx.log) && HeardSoFar(lines, tx.log, console.lines)
      modifies tx`log, console
      ensures AllWork(tx.log) && tx.log == old(tx.log) + [Answered(i, input)]
      ensures Heard(lines, Replies(tx.log), console.lines)
      ensures if old(console.lines) == [] then input == "n" && console.lines == []
              else HeardSoFar(lines, tx.log, console.lines) && |console.lines| < |old(console.lines)|
    {
      hide HeardSoFar, Heard, Normal;
      ghost var before, rest := tx.log, console.lines;
      var line := console.ReadUserInput();
      input := Normal(line);
      EndIsNo();
      if rest != [] {
        NormalTwice(rest[0]);
        HearsLine(lines, before, rest, i);
      } else {
        HearsEnd(lines, before, i);
      }
      Note(i, input);
      HeardIsHeard(lines, tx.log, console.lines);
    }

    /** Executes a statement that has been consented to. */
    method ActOn(p: Plan, i: nat, sql: string, ghost lines: seq<string>, ghost rest: seq<string>)
      returns (err: Option<Failure>)
      requires active && Acting(p, tx.log, i) && sql == p.Sql(i) && HeardSoFar(lines, tx.log, rest)
      modifies tx
      ensures err.None? ==> TalkedSoFar(p, tx.log, i + 1, old(tx.log[|tx.log| - 1]) != Answered(i, "y"))
      ensures err.None? ==> HeardSoFar(lines, tx.log, rest)
      ensures err.Some? ==> err == Some(ExecError(i)) && BrokenOff(p, tx.log, err.value)
      ensures err.Some? ==> Heard(lines, Replies(tx.log), rest)
      ensures err.Some? == tx.Failed(old(tx.execs)) && old(tx.execs) <= tx.execs
    {
      hide Talked, TalkedSoFar, Plan.MayRun, Conversation, TalkFailed, AllWork, Follows, MayAct, HeardSoFar, Heard;
      TalkIsWork(p, tx.log, i);
      ghost var before := tx.log;
      err := ExecuteOne(i, sql);
      if err.Some? {
        TalkFails(p, before, i);
        HeardIsHeard(lines, before, rest);
      } else {
        TalkExecutes(p, before, i);
      }
      HearsOn(lines, before, rest, tx.log[|tx.log| - 1]);
    }

    /** Asks until an answer settles the statement; "a" is remembered for the statements to come.
        The end of the input settles it with "n", which rolls back and is no error. */
    method PromptAndExecute(console: Console, p: Plan, i: nat, sql: string, applyAll0: bool,
      ghost lines: seq<string>)
      returns (err: Option<Failure>, applyAll: bool)
      requires active && TalkedSoFar(p, tx.log, i, applyAll0) && HeardSoFar(lines, tx.log, console.lines)
      requires i < |p.ops| && p.Renders(i) && !p.Stops(i) && sql == p.Sql(i)
      modifies this`active, tx, console
      ensures err.None? && active ==> TalkedSoFar(p, tx.log, i + 1, applyAll)
      ensures err.None? && active ==> HeardSoFar(lines, tx.log, console.lines)
      ensures err.None? && !active ==> Conversation(p, tx.log) && Declined(p, tx.log)
      ensures err.Some? ==> active && err == Some(ExecError(i)) && BrokenOff(p, tx.log, err.value)
      ensures err.Some? || !active ==> Heard(lines, Replies(tx.log), console.lines)
      ensures err.Some? == tx.Failed(old(tx.execs)) && old(tx.execs) <= tx.execs
    {
      hide Talked, TalkedSoFar, Acting, Asking, Conversation, TalkFailed, Closed, Declined, AllWork, HeardSoFar, Heard,
        BrokenOff, Tx.Failed;
      tx.NoneFailed();
      applyAll := applyAll0;
      var isDestructive := p.ops[i].IsDestructive();
      if applyAll {
        if isDestructive && !p.unsafeDrop {
          applyAll := false;
        } else {
          TalkCovers(p, tx.log, i);
          CoveredByAll(p, tx.log, i);
          err := ActOn(p, i, sql, lines, console.lines);
          return;
        }
      }
      TalkAsks(p, tx.log, i, applyAll0);
      while true
        invariant active && !applyAll && Asking(p, tx.log, i) && HeardSoFar(lines, tx.log, console.lines)
        invariant tx.execs == old(tx.execs)
        decreases |console.lines|
      {
        AskingIsWork(p, tx.log, i);
        ghost var before := tx.log;
        var input := Ask(console, i, lines);
        if input == "y" {
          if isDestructive && !p.unsafeDrop {
            TalkGoesOn(p, before, i, input);
            continue;
          }
          TalkAgrees(p, before, i, input);
          err := ActOn(p, i, sql, lines, console.lines);
          return;
        } else if input == "n" {
          TalkDeclines(p, before, i);
          HearsOn(lines, tx.log, console.lines, RolledBack);
          Rollback();
          return None, applyAll;
        } else if input == "a" {
          applyAll := true;
          if isDestructive && !p.unsafeDrop {
            applyAll := false;
            TalkGoesOn(p, before, i, input);
            continue;
          }
          TalkAgrees(p, before, i, input);
          err := ActOn(p, i, sql, lines, console.lines);
          return;
        } else if input == "s" {
          TalkLeavesOut(p, before, i);
          return None, applyAll;
        }
        TalkGoesOn(p, before, i, input);
      }
    }

    /** One operation of an interactive run. */
    method TalkStep(ctx: Context, console: Console, p: Plan, i: nat, applyAll0: bool, ghost lines: seq<string>)
      returns (err: Option<Failure>, applyAll: bool)
      requires active && i < |p.ops| && TalkedSoFar(p, tx.log, i, applyAll0)
      requires HeardSoFar(lines, tx.log, console.lines)
      modifies this`active, tx, ctx, console
      ensures err.None? && active ==> TalkedSoFar(p, tx.log, i + 1, applyAll)
      ensures err.None? && active ==> HeardSoFar(lines, tx.log, console.lines)
      ensures err.None? && !active ==> Conversation(p, tx.log) && Declined(p, tx.log)
      ensures err.Some? ==> Conversation(p, tx.log) && TalkFailed(p, tx.log, err.value)
      ensures err.Some? ==> if active then BrokenOff(p, tx.log, err.value) else Closed(tx.log)
      ensures err.Some? || !active ==> Heard(lines, Replies(tx.log), console.lines)
      ensures err.Some? ==> err.value in {Interrupted, NonTransactional(i), ExecError(i)}
      ensures ctx.polls == old(ctx.polls) + 1 && (err == Some(Interrupted) <==> ctx.Cancelled())
      ensures err == Some(Interrupted) ==> tx.log == old(tx.log) + [RolledBack]
      ensures err == Some(ExecError(i)) <==> tx.Failed(old(tx.execs))
      ensures old(tx.execs) <= tx.execs
    {
      hide TalkedSoFar, Conversation, TalkFailed, Closed, Declined, HeardSoFar, Heard;
      TalkedIsWork(p, tx.log, i, applyAll0);
      applyAll := applyAll0;
      var cancelled := ctx.Err();
      if cancelled {
        TalkStops(p, tx.log, i, applyAll, Interrupted, lines, console.lines);
        err := FailWithRollback(Interrupted);
        return;
      }
      var sql := p.render(p.ops[i]);
      if sql == "" || "-- Unknown" <= sql {
        TalkSkips(p, tx.log, i, applyAll);
        return None, applyAll;
      }
      if p.isNonTransactional(sql) {
        TalkStops(p, tx.log, i, applyAll, NonTransactional(i), lines, console.lines);
        err := FailWithRollback(NonTransactional(i));
        return;
      }
      err, applyAll := PromptAndExecute(console, p, i, sql, applyAll, lines);
    }

    /** Asks for every statement; commits once all have been executed or skipped. */
    method ExecuteInteractive(ctx: Context, console: Console, p: Plan) returns (err: Option<Failure>)
      requires active && tx.log == []
      modifies this`active, tx, ctx, console
      ensures Valid() && Conversation(p, tx.log)
      ensures err.None? ==> !active && (Settled(p, tx.log) || Declined(p, tx.log))
      ensures err.Some? ==> TalkFailed(p, tx.log, err.value)
      ensures err.Some? && active ==> BrokenOff(p, tx.log, err.value)
      ensures Explained(p, err, ctx.Cancelled(), tx.Failed(old(tx.execs)), tx.commitFails)
      ensures old(ctx.Due()) && p.ops != [] ==> err == Some(Interrupted) && tx.log == [RolledBack]
      ensures Heard(old(console.lines), Replies(tx.log), console.lines)
    {
      hide Tx.Failed, TalkedSoFar, Conversation, TalkFailed, Closed, Open, BrokenOff, Declined, Settled, HeardSoFar,
        Heard;
      var applyAll := false;
      tx.NoneFailed();
      TalkStarts(p);
      HearsStart(console.lines);
      for i := 0 to |p.ops|
        invariant active && TalkedSoFar(p, tx.log, i, applyAll)
        invariant HeardSoFar(old(console.lines), tx.log, console.lines)
        invariant old(tx.execs) <= tx.execs && !tx.Failed(old(tx.execs))
        invariant if i == 0 then tx.log == [] && ctx.polls == old(ctx.polls) else !ctx.Cancelled() && !old(ctx.Due())
      {
        label Turn:
        err, applyAll := TalkStep(ctx, console, p, i, applyAll, old(console.lines));
        tx.FailedOn@Turn(old(tx.execs));
        if err.Some? {
          if active { BrokenOffIsOpen(p, tx.log, err.value); }
          return;
        }
        if !active {
          DeclinedIsClosed(p, tx.log);
          return;
        }
      }
      TalkEnds(p, tx.log, applyAll, old(console.lines), console.lines);
      err := CommitTransaction();
    }

    // ----- automatic execution

    /** One operation of an automatic run. */
    method AutoStep(ctx: Context, p: Plan, i: nat) returns (err: Option<Failure>)
      requires active && i < |p.ops| && AutoSoFar(p, tx.log, i)
      modifies this`active, tx, ctx
      ensures err.None? ==> active && AutoSoFar(p, tx.log, i + 1)
      ensures err.Some? ==> !active && AutoFailed(p, tx.log, err.value) && Closed(tx.log)
      ensures err.Some? ==> err.value in {Interrupted, NonTransactional(i), ExecError(i)}
      ensures ctx.polls == old(ctx.polls) + 1 && (err == Some(Interrupted) <==> ctx.Cancelled())
      ensures err == Some(Interrupted) ==> tx.log == old(tx.log) + [RolledBack]
      ensures err == Some(ExecError(i)) <==> tx.Failed(old(tx.execs))
      ensures old(tx.execs) <= tx.execs
    {
      hide AutoSoFar, AutoFailed, Closed;
      AutoIsWork(p, tx.log, i);
      var cancelled := ctx.Err();
      if cancelled {
        AutoRolledBack(p, tx.log, i, Interrupted);
        err := FailWithRollback(Interrupted);
        return;
      }
      var sql := p.render(p.ops[i]);
      if sql == "" || "-- Unknown" <= sql {
        AutoSkips(p, tx.log, i);
        return None;
      }
      if p.isNonTransactional(sql) {
        AutoRolledBack(p, tx.log, i, NonTransactional(i));
        err := FailWithRollback(NonTransactional(i));
        return;
      }
      if p.ops[i].IsDestructive() && !p.unsafeDrop {
        AutoSkips(p, tx.log, i);
        return None;
      }
      AutoExecutes(p, tx.log, i);
      AutoFails(p, tx.log, i);
      err := ExecuteOne(i, sql);
      if err.Some? {
        err := FailWithRollback(err.value);
        return;
      }
    }

    /** Stops at the first interruption, at the first statement that cannot run in a transaction,
        and at the first failure; otherwise executes every statement that may run, and commits. */
    method ExecuteAuto(ctx: Context, p: Plan) returns (err: Option<Failure>)
      requires active && tx.log == []
      modifies this`active, tx, ctx
      ensures Valid() && Faithful(p, tx.log, |p.ops|)
      ensures err.None? ==> !active && AutoCommitted(p, tx.log)
      ensures err.Some? ==> AutoFailed(p, tx.log, err.value) && (active ==> err == Some(CommitError))
      ensures Explained(p, err, ctx.Cancelled(), tx.Failed(old(tx.execs)), tx.commitFails)
      ensures old(ctx.Due()) && p.ops != [] ==> err == Some(Interrupted) && tx.log == [RolledBack]
      ensures err.None? <==> Undisturbed(p, ctx.Cancelled(), tx.Failed(old(tx.execs)), tx.commitFails)
    {
      hide Tx.Failed, AutoSoFar, AutoFailed, Closed, Plan.MayRun, Plan.Stops, Faithful, AutoCommitted;
      AutoStarts(p);
      tx.NoneFailed();
      for i := 0 to |p.ops|
        invariant active && AutoSoFar(p, tx.log, i)
        invariant old(tx.execs) <= tx.execs && !tx.Failed(old(tx.execs))
        invariant if i == 0 then tx.log == [] && ctx.polls == old(ctx.polls) else !ctx.Cancelled() && !old(ctx.Due())
      {
        label Turn:
        err := AutoStep(ctx, p, i);
        tx.FailedOn@Turn(old(tx.execs));
        if err.Some? {
          AutoFailedIsFaithful(p, tx.log, err.value);
          return;
        }
      }
      AutoIsWork(p, tx.log, |p.ops|);
      AutoCommits(p, tx.log);
      AutoNeverStopped(p, tx.log);
      AutoFailedIsFaithful(p, tx.log + [CommitFailed], CommitError);
      err := CommitTransaction();
    }
  }

  /** Nothing stands in the way of an automatic run. */
  ghost predicate Undisturbed(p: Plan, cancelled: bool, failed: bool, commitFails: bool) {
    !(p.ops != [] && cancelled) && !failed && !commitFails && forall i :: 0 <= i < |p.ops| ==> !p.Stops(i)
  }

  // ----- how a run ends

  /** The run has failed and the rollback is still to come. */
  ghost predicate BrokenOff(p: Plan, log: seq<Event>, f: Failure) {
    && Conversation(p, log) && TalkFailed(p, log, f)
    && log != [] && (log[|log| - 1].ExecFailed? || log[|log| - 1] == CommitFailed)
    && Open(log)
  }

  lemma BrokenOffIsOpen(p: Plan, log: seq<Event>, f: Failure)
    requires BrokenOff(p, log, f)
    ensures Open(log)
  {
  }

  lemma HeardIsHeard(lines: seq<string>, log: seq<Event>, rest: seq<string>)
    ensures HeardSoFar(lines, log, rest) ==> Heard(lines, Replies(log), rest)
  {
  }

  lemma HearsStart(lines: seq<string>)
    ensures HeardSoFar(lines, [], lines)
  {
    assert Replies([]) + Answers(lines) == Answers(lines);
  }

  lemma AskingIsWork(p: Plan, log: seq<Event>, n: nat)
    requires Asking(p, log, n)
    ensures AllWork(log)
  {
    TalkIsWork(p, log, n);
  }

  lemma TalkedIsWork(p: Plan, log: seq<Event>, n: nat, applyAll: bool)
    requires TalkedSoFar(p, log, n, applyAll)
    ensures AllWork(log)
  {
    TalkIsWork(p, log, n);
  }

  lemma CoveredByAll(p: Plan, log: seq<Event>, n: nat)
    requires TalkedSoFar(p, log, n, true)
    ensures log != [] && log[|log| - 1] != Answered(n, "y")
  {
  }

  lemma TalkStops(p: Plan, log: seq<Event>, n: nat, applyAll: bool, f: Failure, lines: seq<string>, rest: seq<string>)
    requires TalkedSoFar(p, log, n, applyAll) && HeardSoFar(lines, log, rest)
    requires f == Interrupted || (f == NonTransactional(n) && n < |p.ops| && p.Stops(n))
    ensures Conversation(p, log + [RolledBack]) && TalkFailed(p, log + [RolledBack], f)
    ensures Heard(lines, Replies(log + [RolledBack]), rest)
  {
    hide TalkedSoFar, Conversation, TalkFailed, Closed, HeardSoFar, Heard;
    TalkBreaks(p, log, n, applyAll, f);
    HeardIsHeard(lines, log, rest);
    HearsOn(lines, log, rest, RolledBack);
  }

  lemma DeclinedIsClosed(p: Plan, log: seq<Event>)
    requires Declined(p, log)
    ensures Closed(log)
  {
  }

  lemma TalkEnds(p: Plan, log: seq<Event>, applyAll: bool, lines: seq<string>, rest: seq<string>)
    requires TalkedSoFar(p, log, |p.ops|, applyAll) && HeardSoFar(lines, log, rest)
    ensures AllWork(log)
    ensures Conversation(p, log + [Committed]) && Settled(p, log + [Committed])
    ensures Heard(lines, Replies(log + [Committed]), rest)
    ensures BrokenOff(p, log + [CommitFailed], CommitError) && Heard(lines, Replies(log + [CommitFailed]), rest)
    ensures Conversation(p, log + [CommitFailed]) && TalkFailed(p, log + [CommitFailed], CommitError)
  {
    hide TalkedSoFar, Conversation, TalkFailed, Settled, HeardSoFar, Heard;
    TalkedIsWork(p, log, |p.ops|, applyAll);
    TalkCommits(p, log, applyAll);
    HeardIsHeard(lines, log, rest);
    HearsOn(lines, log, rest, Committed);
    HearsOn(lines, log, rest, CommitFailed);
    assert (log + [CommitFailed])[..|log|] == log;
  }

  lemma AutoFailedIsFaithful(p: Plan, log: seq<Event>, f: Failure)
    requires AutoFailed(p, log, f)
    ensures Faithful(p, log, |p.ops|)
    ensures f.NonTransactional? ==> f.index < |p.ops| && p.Stops(f.index)
  {
  }

  lemma AutoNeverStopped(p: Plan, log: seq<Event>)
    requires AutoSoFar(p, log, |p.ops|)
    ensures forall i :: 0 <= i < |p.ops| ==> !p.Stops(i)
  {
  }

  // ----- the whole run

  /** Connects, begins, runs, and rolls back on every way out if the transaction is still open.
      Without a transaction there is an error and nothing has happened. */
  method ExecutePlan(ctx: Context, console: Console, tx: Tx, p: Plan, execute: bool, connectFails: bool,
    beginFails: bool)
    returns (err: Option<Failure>)
    requires tx.log == []
    modifies tx, ctx, console
    ensures err == Some(ConnectError) <==> connectFails
    ensures err == Some(BeginError) <==> !connectFails && beginFails
    ensures connectFails || beginFails ==> tx.log == []
    ensures !connectFails && !beginFails ==>
              && Closed(tx.log) && Faithful(p, tx.log, |p.ops|)
              && Explained(p, err, ctx.Cancelled(), tx.Failed(old(tx.execs)), tx.commitFails)
              && (old(ctx.Due()) && p.ops != [] ==> err == Some(Interrupted) && tx.log == [RolledBack])
              && (execute ==> Automatic(p, tx.log, err))
              && (execute ==>
                    (err.None? <==> Undisturbed(p, ctx.Cancelled(), tx.Failed(old(tx.execs)), tx.commitFails)))
              && (!execute ==> Conversation(p, tx.log) && Talk(p, tx.log, err))
              && (!execute ==> Heard(old(console.lines), Replies(tx.log), console.lines))
  {
    hide Closed, Conversation, Faithful, Open, AutoCommitted, AutoFailed, Declined, Settled, TalkFailed;
    hide Heard, Explained, Undisturbed;
    if connectFails {
      return Some(ConnectError);
    }
    if beginFails {
      return Some(BeginError);
    }
    var ts := new TransactionState(tx);
    if execute {
      err := ts.ExecuteAuto(ctx, p);
      AutoRollsBackIfOpen(p, tx.log, err);
    } else {
      err := ts.ExecuteInteractive(ctx, console, p);
      TalkRollsBackIfOpen(p, tx.log, err, old(console.lines), console.lines);
      ConversationIsFaithful(p, tx.log);
    }
    ts.Rollback();
    if !execute { ConversationIsFaithful(p, tx.log); }
    NeitherBeforeBegin(p, tx.log, err, execute);
  }

  ghost predicate Automatic(p: Plan, log: seq<Event>, err: Option<Failure>) {
    if err.None? then AutoCommitted(p, log) else AutoFailed(p, log, err.value)
  }

  ghost predicate Talk(p: Plan, log: seq<Event>, err: Option<Failure>) {
    if err.None? then Settled(p, log) || Declined(p, log) else TalkFailed(p, log, err.value)
  }

  lemma NeitherBeforeBegin(p: Plan, log: seq<Event>, err: Option<Failure>, execute: bool)
    requires if execute then Automatic(p, log, err) else Talk(p, log, err)
    ensures err != Some(ConnectError) && err != Some(BeginError)
  {
  }

  lemma AutoRollsBackIfOpen(p: Plan, log: seq<Event>, err: Option<Failure>)
    requires Automatic(p, log, err)
    ensures err.Some? ==> Automatic(p, log + [RolledBack], err) && Faithful(p, log + [RolledBack], |p.ops|)
  {
    hide Faithful;
    if err.Some? {
      AutoRollsBack(p, log, err.value);
      AutoFailedIsFaithful(p, log + [RolledBack], err.value);
    }
  }

  lemma TalkRollsBackIfOpen(p: Plan, log: seq<Event>, err: Option<Failure>, lines: seq<string>, rest: seq<string>)
    requires Heard(lines, Replies(log), rest)
    ensures err.Some? && BrokenOff(p, log, err.value) ==>
              Conversation(p, log + [RolledBack]) && TalkFailed(p, log + [RolledBack], err.value)
    ensures Heard(lines, Replies(log + [RolledBack]), rest)
  {
    hide Conversation, TalkFailed, Heard;
    if err.Some? && BrokenOff(p, log, err.value) { TalkRolledBack(p, log, err.value); }
    HearsOn(lines, log, rest, RolledBack);
  }

  lemma ConversationIsFaithful(p: Plan, log: seq<Event>)
    requires Conversation(p, log)
    ensures Faithful(p, log, |p.ops|)
  {
  }
}
