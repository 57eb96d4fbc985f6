/** Backup, restore preparation, close and its preflight take the owner, broker, store, journal and
    history locks, nested and in that order; close runs a backup and a restore while it holds them
    all.  Any number of threads run them, and any of them may fail at any point. */
module LockOrder {

  datatype Lock = OwnerLock | BrokerLock | StoreLock | JournalLock | HistoryLock

  function Rank(l: Lock): nat {
    match l
    case OwnerLock => 0
    case BrokerLock => 1
    case StoreLock => 2
    case JournalLock => 3
    case HistoryLock => 4
  }

  datatype Op = Acquire(l: Lock) | Release(l: Lock)

  // ---------- the procedures ----------

  function Acquires(locks: seq<Lock>): seq<Op> {
    if locks == [] then [] else [Acquire(locks[0])] + Acquires(locks[1..])
  }

  function Releases(locks: seq<Lock>): seq<Op> {
    if locks == [] then [] else Releases(locks[1..]) + [Release(locks[0])]
  }

  /** with locks[0], locks[1], ...: body */
  function Nest(locks: seq<Lock>, body: seq<Op>): seq<Op> {
    Acquires(locks) + body + Releases(locks)
  }

  /** What backup and restore nest.  The live context takes the broker lock again and the stable
      snapshot the store lock; the history lock is taken only when the graph admits conversation
      content. */
  function Sources(content: bool): seq<Lock> {
    [OwnerLock, BrokerLock, BrokerLock, StoreLock, StoreLock, JournalLock] + (if content then [HistoryLock] else [])
  }

  /** What close nests: the same, without a stable snapshot. */
  function OwnedSources(content: bool): seq<Lock> {
    [OwnerLock, BrokerLock, BrokerLock, StoreLock, JournalLock] + (if content then [HistoryLock] else [])
  }

  datatype Procedure =
    | Backup(content: bool)
    | PrepareRestore(content: bool)
    | PreflightClose(content: bool)
    | Close(content: bool, backup: bool, prepared: bool, restore: bool)

  /** Close nests a whole backup and, when a destination is prepared, a whole restore. */
  function Code(p: Procedure): seq<Op> {
    match p
    case Backup(content) => Nest(Sources(content), [])
    case PrepareRestore(content) => Nest(Sources(content), [])
    case PreflightClose(content) => Nest(OwnedSources(content), [])
    case Close(content, backup, prepared, restore) =>
      Nest(OwnedSources(content), Nest(Sources(backup), []) + (if prepared then Nest(Sources(restore), []) else []))
  }

  // ---------- the discipline ----------

  /** A lock may be taken when it is held already or ranks above everything held. */
  predicate Admissible(l: Lock, held: seq<Lock>) {
    l in held || forall i :: 0 <= i < |held| ==> Rank(held[i]) < Rank(l)
  }

  /** What a straight run of the code holds at its end; false when it breaks the discipline or
      releases out of order. */
  predicate Runs(code: seq<Op>, before: seq<Lock>, after: seq<Lock>) {
    if code == [] then after == before
    else
      match code[0]
      case Acquire(l) => Admissible(l, before) && Runs(code[1..], before + [l], after)
      case Release(l) => before != [] && before[|before| - 1] == l && Runs(code[1..], before[..|before| - 1], after)
  }

  lemma {:induction false} RunsConcat(a: seq<Op>, b: seq<Op>, before: seq<Lock>, mid: seq<Lock>, after: seq<Lock>)
    requires Runs(a, before, mid) && Runs(b, mid, after)
    ensures Runs(a + b, before, after)
  {
    if a == [] {
      assert a + b == b;
    } else {
      assert (a + b)[1..] == a[1..] + b;
      match a[0]
      case Acquire(l) => RunsConcat(a[1..], b, before + [l], mid, after);
      case Release(l) => RunsConcat(a[1..], b, before[..|before| - 1], mid, after);
    }
  }

  /** Every lock of the list is admissible once the earlier ones are held. */
  predicate AdmissibleList(locks: seq<Lock>, held: seq<Lock>) {
    locks == [] || (Admissible(locks[0], held) && AdmissibleList(locks[1..], held + [locks[0]]))
  }

  /** One lock around a program that leaves it held. */
  lemma WrapRuns(l: Lock, inner: seq<Op>, held: seq<Lock>)
    requires Admissible(l, held) && Runs(inner, held + [l], held + [l])
    ensures Runs([Acquire(l)] + (inner + [Release(l)]), held, held)
  {
    hide Admissible;
    assert (held + [l])[..|held|] == held;
    assert [Release(l)][1..] == [];
    assert Runs([Release(l)], held + [l], held);
    RunsConcat(inner, [Release(l)], held + [l], held + [l], held);
    assert ([Acquire(l)] + (inner + [Release(l)]))[1..] == inner + [Release(l)];
  }

  lemma {:induction false} NestRuns(locks: seq<Lock>, body: seq<Op>, held: seq<Lock>)
    requires AdmissibleList(locks, held)
    requires Runs(body, held + locks, held + locks)
    ensures Runs(Nest(locks, body), held, held)
  {
    hide Admissible, Runs;
    if locks == [] {
      assert Nest(locks, body) == body && held + locks == held;
    } else {
      var l, rest := locks[0], locks[1..];
      assert held + locks == held + [l] + rest;
      NestRuns(rest, body, held + [l]);
      WrapRuns(l, Nest(rest, body), held);
      assert Nest(locks, body) == [Acquire(l)] + (Nest(rest, body) + [Release(l)]);
    }
  }

  predicate Ascending(locks: seq<Lock>) {
    forall i, j :: 0 <= i < j < |locks| ==> locks[i] == locks[j] || Rank(locks[i]) < Rank(locks[j])
  }

  /** A list in order, with repetitions, is admissible when everything held is in it or below it. */
  lemma {:induction false} AscendingIsAdmissible(locks: seq<Lock>, held: seq<Lock>)
    requires Ascending(locks)
    requires forall l, h :: l in locks && h in held ==> l in held || Rank(h) < Rank(l)
    ensures AdmissibleList(locks, held)
  {
    if locks != [] {
      assert Admissible(locks[0], held);
      forall l, h | l in locks[1..] && h in held + [locks[0]]
        ensures l in held + [locks[0]] || Rank(h) < Rank(l)
      {
        assert l in locks;
        var j :| 0 <= j < |locks[1..]| && locks[1..][j] == l;
        assert locks[0] == locks[j + 1] || Rank(locks[0]) < Rank(locks[j + 1]);
        if h in held { assert l in held || Rank(h) < Rank(l); }
      }
      AscendingIsAdmissible(locks[1..], held + [locks[0]]);
    }
  }

  lemma SourcesAdmissible(content: bool, outer: bool)
    ensures AdmissibleList(Sources(content), []) && AdmissibleList(OwnedSources(content), [])
    ensures AdmissibleList(Sources(content), OwnedSources(outer))
  {
    hide AdmissibleList;
    AscendingIsAdmissible(Sources(content), []);
    AscendingIsAdmissible(OwnedSources(content), []);
    AscendingIsAdmissible(Sources(content), OwnedSources(outer));
  }

  lemma NestHoldingNothing(locks: seq<Lock>, body: seq<Op>)
    requires AdmissibleList(locks, []) && Runs(body, locks, locks)
    ensures Runs(Nest(locks, body), [], [])
  {
    assert [] + locks == locks;
    NestRuns(locks, body, []);
  }

  /** Every procedure keeps the order and returns with nothing held. */
  lemma ProceduresKeepTheOrder(p: Procedure)
    ensures Runs(Code(p), [], [])
  {
    hide AdmissibleList, Nest, Sources, OwnedSources;
    match p
    case Close(content, backup, prepared, restore) =>
      hide Runs;
      var held := OwnedSources(content);
      SourcesAdmissible(content, content);
      SourcesAdmissible(backup, content);
      SourcesAdmissible(restore, content);
      EmptyBody(held + Sources(backup));
      EmptyBody(held + Sources(restore));
      EmptyBody(held);
      NestRuns(Sources(backup), [], held);
      NestRuns(Sources(restore), [], held);
      var second := if prepared then Nest(Sources(restore), []) else [];
      RunsConcat(Nest(Sources(backup), []), second, held, held, held);
      NestHoldingNothing(held, Nest(Sources(backup), []) + second);
    case PreflightClose(content) =>
      SourcesAdmissible(content, content);
      NestHoldingNothing(OwnedSources(content), []);
    case _ =>
      SourcesAdmissible(p.content, p.content);
      NestHoldingNothing(Sources(p.content), []);
  }

  lemma EmptyBody(held: seq<Lock>)
    ensures Runs([], held, held)
  {
  }

  // ---------- threads ----------

  /** A thread at some point of its procedure: the code it has left, the locks it holds in the order
      it took them, and whether an exception is releasing them. */
  datatype Thread = Thread(left: seq<Op>, held: seq<Lock>, unwinding: bool) {
    predicate Finished() {
      if unwinding then held == [] else left == []
    }
  }

  type System = seq<Thread>

  predicate HeldElsewhere(s: System, t: nat, l: Lock) {
    exists u :: 0 <= u < |s| && u != t && l in s[u].held
  }

  datatype Event = Take | GiveBack | Fail | Unwind

  /** One step of thread t.  Failing covers every exception and every timed-out wait. */
  predicate Step(s: System, t: nat, e: Event, s': System) {
    && t < |s|
    && var me := s[t];
       match e
       case Take =>
         && !me.unwinding && me.left != [] && me.left[0].Acquire?
         && !HeldElsewhere(s, t, me.left[0].l)
         && s' == s[t := me.(left := me.left[1..], held := me.held + [me.left[0].l])]
       case GiveBack =>
         && !me.unwinding && me.left != [] && me.left[0].Release? && me.held != []
         && s' == s[t := me.(left := me.left[1..], held := me.held[..|me.held| - 1])]
       case Fail =>
         && !me.unwinding && me.left != []
         && s' == s[t := me.(unwinding := true)]
       case Unwind =>
         && me.unwinding && me.held != []
         && s' == s[t := me.(held := me.held[..|me.held| - 1])]
  }

  predicate Start(s: System, procedures: seq<Procedure>) {
    && |s| == |procedures|
    && forall t :: 0 <= t < |s| ==> s[t] == Thread(Code(procedures[t]), [], false)
  }

  /** A run: consecutive systems, each one step of some thread after the one before. */
  predicate IsRun(run: seq<System>, procedures: seq<Procedure>) {
    && run != [] && Start(run[0], procedures)
    && forall i :: 0 <= i < |run| - 1 ==> Moves(run[i], run[i + 1])
  }

  predicate Moves(s: System, s': System) {
    exists t, e :: 0 <= t < |s| && Step(s, t, e, s')
  }

  // ---------- the invariant ----------

  predicate ThreadOrderly(me: Thread) {
    me.unwinding || Runs(me.left, me.held, [])
  }

  /** Every thread is on its way to holding nothing, and no lock has two holders. */
  predicate Orderly(s: System) {
    && (forall t :: 0 <= t < |s| ==> ThreadOrderly(s[t]))
    && (forall t, u, l :: 0 <= t < u < |s| && l in s[t].held ==> l !in s[u].held)
  }

  lemma StepKeepsOrder(s: System, t: nat, e: Event, s': System)
    requires Orderly(s) && Step(s, t, e, s')
    ensures Orderly(s') && |s'| == |s|
  {
    var me := s[t];
    assert ThreadOrderly(me);
    assert ThreadOrderly(s'[t]);
    assert forall u :: 0 <= u < |s| && u != t ==> s'[u] == s[u];
    assert forall l :: l in s'[t].held ==> l in me.held || (e == Take && l == me.left[0].l);
    forall a, b, l | 0 <= a < b < |s'| && l in s'[a].held
      ensures l !in s'[b].held
    {
      if a == t && l !in me.held { assert !HeldElsewhere(s, t, l); }
    }
  }

  lemma {:induction false} RunsStayOrderly(run: seq<System>, procedures: seq<Procedure>, i: nat)
    requires IsRun(run, procedures) && i < |run|
    ensures Orderly(run[i]) && |run[i]| == |procedures|
  {
    if i == 0 {
      forall t | 0 <= t < |procedures|
        ensures ThreadOrderly(run[0][t])
      {
        ProceduresKeepTheOrder(procedures[t]);
      }
    } else {
      RunsStayOrderly(run, procedures, i - 1);
      assert Moves(run[i - 1], run[i - 1 + 1]);
      var t, e :| 0 <= t < |run[i - 1]| && Step(run[i - 1], t, e, run[i]);
      StepKeepsOrder(run[i - 1], t, e, run[i]);
    }
  }

  // ---------- no cyclic wait ----------

  /** Thread t cannot go on because thread u holds the lock it asks for. */
  predicate WaitsFor(s: System, t: nat, u: nat) {
    && t < |s| && u < |s| && t != u
    && !s[t].unwinding && s[t].left != [] && s[t].left[0].Acquire?
    && s[t].left[0].l in s[u].held
  }

  lemma WantsAboveHeld(s: System, t: nat, u: nat)
    requires Orderly(s) && WaitsFor(s, t, u)
    ensures forall l :: l in s[t].held ==> Rank(l) < Rank(s[t].left[0].l)
  {
    assert ThreadOrderly(s[t]);
    var wanted := s[t].left[0].l;
    assert wanted !in s[t].held;
  }

  /** Threads that each wait for the next never come back to the first. */
  lemma {:induction false} WaitsClimb(s: System, chain: seq<nat>, i: nat)
    requires Orderly(s) && |chain| >= 2 && i < |chain| - 1
    requires forall k :: 0 <= k < |chain| - 1 ==> WaitsFor(s, chain[k], chain[k + 1])
    ensures WaitsFor(s, chain[0], chain[1]) && WaitsFor(s, chain[i], chain[i + 1])
    ensures Rank(s[chain[0]].left[0].l) <= Rank(s[chain[i]].left[0].l)
    ensures i > 0 ==> Rank(s[chain[0]].left[0].l) < Rank(s[chain[i]].left[0].l)
  {
    assert WaitsFor(s, chain[0], chain[0 + 1]) && WaitsFor(s, chain[i], chain[i + 1]);
    if i > 0 {
      WaitsClimb(s, chain, i - 1);
      assert WaitsFor(s, chain[i - 1], chain[i - 1 + 1]) && WaitsFor(s, chain[i], chain[i + 1]);
      WantsAboveHeld(s, chain[i], chain[i + 1]);
    }
  }

  /** In every reachable state no chain of waiting threads is a cycle. */
  lemma NoCyclicWait(run: seq<System>, procedures: seq<Procedure>, i: nat, chain: seq<nat>)
    requires IsRun(run, procedures) && i < |run|
    requires |chain| >= 2 && forall k :: 0 <= k < |chain| - 1 ==> WaitsFor(run[i], chain[k], chain[k + 1])
    ensures chain[0] != chain[|chain| - 1]
  {
    RunsStayOrderly(run, procedures, i);
    var s, last := run[i], |chain| - 2;
    WaitsClimb(s, chain, last);
    assert WaitsFor(s, chain[last], chain[last + 1]);
    WantsAboveHeld(s, chain[last], chain[last + 1]);
    if chain[last + 1] == chain[0] && last > 0 {
      assert WaitsFor(s, chain[0], chain[1]);
      WantsAboveHeld(s, chain[0], chain[1]);
    }
  }

  /** Some unfinished thread can take a step that is no failure: the system never stands still. */
  lemma SomeoneCanMove(run: seq<System>, procedures: seq<Procedure>, i: nat, t: nat)
    requires IsRun(run, procedures) && i < |run|
    requires t < |run[i]| && !run[i][t].Finished()
    ensures exists u, e, s' :: 0 <= u < |run[i]| && e != Fail && Step(run[i], u, e, s')
  {
    RunsStayOrderly(run, procedures, i);
    FindMover(run[i], t);
  }

  /** Follow the waits from t: the wanted rank grows, so the chain ends at a thread that can move. */
  lemma {:induction false} FindMover(s: System, t: nat)
    requires Orderly(s) && t < |s| && !s[t].Finished()
    ensures exists u, e, s' :: 0 <= u < |s| && e != Fail && Step(s, u, e, s')
    decreases if !s[t].unwinding && s[t].left != [] then 5 - Rank(s[t].left[0].l) else 0
  {
    var me := s[t];
    assert ThreadOrderly(me);
    if me.unwinding {
      assert Step(s, t, Unwind, s[t := me.(held := me.held[..|me.held| - 1])]);
    } else if me.left[0].Release? {
      assert Step(s, t, GiveBack, s[t := me.(left := me.left[1..], held := me.held[..|me.held| - 1])]);
    } else if !HeldElsewhere(s, t, me.left[0].l) {
      assert Step(s, t, Take, s[t := me.(left := me.left[1..], held := me.held + [me.left[0].l])]);
    } else {
      var u :| 0 <= u < |s| && u != t && me.left[0].l in s[u].held;
      assert ThreadOrderly(s[u]);
      if s[u].unwinding {
        assert Step(s, u, Unwind, s[u := s[u].(held := s[u].held[..|s[u].held| - 1])]);
      } else if s[u].left[0].Release? {
        assert Step(s, u, GiveBack, s[u := s[u].(left := s[u].left[1..], held := s[u].held[..|s[u].held| - 1])]);
      } else if !HeldElsewhere(s, u, s[u].left[0].l) {
        assert Step(s, u, Take, s[u := s[u].(left := s[u].left[1..], held := s[u].held + [s[u].left[0].l])]);
      } else {
        var v :| 0 <= v < |s| && v != u && s[u].left[0].l in s[v].held;
        WantsAboveHeld(s, u, v);
        FindMover(s, u);
      }
    }
  }

  /** A thread that left, by return or by exception, holds no lock. */
  lemma FinishedHoldsNothing(run: seq<System>, procedures: seq<Procedure>, i: nat, t: nat)
    requires IsRun(run, procedures) && i < |run|
    requires t < |run[i]| && run[i][t].Finished()
    ensures run[i][t].held == []
  {
    RunsStayOrderly(run, procedures, i);
    assert ThreadOrderly(run[i][t]);
  }

  // ---------- every run ends ----------

  /** Every step of a thread, a failure included, leaves it less to do. */
  function ThreadWork(me: Thread): nat {
    if me.unwinding then |me.held| else 2 * |me.left| + |me.held|
  }

  function Work(s: System): nat {
    if s == [] then 0 else ThreadWork(s[0]) + Work(s[1..])
  }

  function AllCode(procedures: seq<Procedure>): nat {
    if procedures == [] then 0 else |Code(procedures[0])| + AllCode(procedures[1..])
  }

  lemma {:induction false} LessWork(s: System, t: nat, me: Thread)
    requires t < |s| && ThreadWork(me) < ThreadWork(s[t])
    ensures Work(s[t := me]) < Work(s)
  {
    if t == 0 {
      assert s[0 := me][1..] == s[1..];
    } else {
      assert s[t := me][1..] == s[1..][t - 1 := me];
      LessWork(s[1..], t - 1, me);
    }
  }

  lemma StepIsWork(s: System, t: nat, e: Event, s': System)
    requires Step(s, t, e, s')
    ensures Work(s') < Work(s)
  {
    LessWork(s, t, s'[t]);
  }

  lemma {:induction false} StartingWork(s: System, procedures: seq<Procedure>)
    requires Start(s, procedures)
    ensures Work(s) == 2 * AllCode(procedures)
  {
    if s != [] {
      StartingWork(s[1..], procedures[1..]);
    }
  }

  lemma {:induction false} WorkGoesDown(run: seq<System>, procedures: seq<Procedure>, i: nat)
    requires IsRun(run, procedures) && i < |run|
    ensures i + Work(run[i]) <= 2 * AllCode(procedures)
  {
    if i == 0 {
      StartingWork(run[0], procedures);
    } else {
      WorkGoesDown(run, procedures, i - 1);
      assert Moves(run[i - 1], run[i - 1 + 1]);
      var t, e :| 0 <= t < |run[i - 1]| && Step(run[i - 1], t, e, run[i]);
      StepIsWork(run[i - 1], t, e, run[i]);
    }
  }

  ghost predicate StandsStill(s: System) {
    forall next :: !Moves(s, next)
  }

  predicate AllLeft(s: System) {
    forall t :: 0 <= t < |s| ==> s[t].Finished() && s[t].held == []
  }

  /** No run is longer than twice the code of its procedures, and one that cannot go on has ended: every
      thread has left, and no lock is held. */
  lemma EveryRunEnds(run: seq<System>, procedures: seq<Procedure>)
    requires IsRun(run, procedures)
    ensures |run| <= 1 + 2 * AllCode(procedures)
    ensures StandsStill(run[|run| - 1]) ==> |run[|run| - 1]| == |procedures| && AllLeft(run[|run| - 1])
  {
    var last := |run| - 1;
    WorkGoesDown(run, procedures, last);
    RunsStayOrderly(run, procedures, last);
    if StandsStill(run[last]) {
      forall t | 0 <= t < |procedures|
        ensures run[last][t].Finished() && run[last][t].held == []
      {
        if !run[last][t].Finished() {
          SomeoneCanMove(run, procedures, last, t);
          var u, e, s' :| 0 <= u < |run[last]| && e != Fail && Step(run[last], u, e, s');
          assert Moves(run[last], s');
        } else {
          FinishedHoldsNothing(run, procedures, last, t);
        }
      }
    }
  }
}
