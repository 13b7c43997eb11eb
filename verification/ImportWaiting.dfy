/**
  Waiting for locks: no run reaches a cyclic wait, and from every thread there is a way on.
*/
module ImportWaiting {
  import opened Options
  import opened ImportProtocol
  import opened ImportLocks
  import opened ImportReload
  import opened ImportSafety

  /** The thread waits, without a time limit, for a lock that is taken. */
  ghost predicate Blocked(s: State, t: Thread) {
    t in s.pc && WaitsFor(s.pc[t]).Some? && WaitsFor(s.pc[t]).value in s.owner
  }

  ghost function Blocker(s: State, t: Thread): Thread
    requires Blocked(s, t)
  {
    s.owner[WaitsFor(s.pc[t]).value]
  }

  ghost function WaitRank(s: State, t: Thread): nat
    requires Blocked(s, t)
  {
    Rank(WaitsFor(s.pc[t]).value)
  }

  /** Locks are waited for in one fixed order: everything held ranks below what is waited for. */
  lemma WaitsUpwards(pc: Pc, held: Lock, wanted: Lock)
    requires Holds(pc, held) && WaitsFor(pc) == Some(wanted)
    ensures Rank(held) < Rank(wanted)
  {
  }

  lemma BlockerWaitsHigher(s: State, t: Thread)
    requires LockInv(s.pc, s.owner) && Blocked(s, t) && Blocked(s, Blocker(s, t))
    ensures WaitRank(s, t) < WaitRank(s, Blocker(s, t))
  {
    var u, l := Blocker(s, t), WaitsFor(s.pc[t]).value;
    assert Holds(s.pc[u], l);
    WaitsUpwards(s.pc[u], l, WaitsFor(s.pc[u]).value);
  }

  /** Each thread of the sequence waits for a lock the next one holds, and the last for one the first holds. */
  ghost predicate CyclicWait(s: State, cycle: seq<Thread>) {
    && |cycle| > 0
    && (forall i :: 0 <= i < |cycle| ==> Blocked(s, cycle[i]))
    && (forall i :: 0 <= i < |cycle| ==> Blocker(s, cycle[i]) == cycle[if i + 1 < |cycle| then i + 1 else 0])
  }

  lemma {:induction false} ChainRises(s: State, cycle: seq<Thread>, i: nat)
    requires LockInv(s.pc, s.owner) && CyclicWait(s, cycle) && i < |cycle|
    ensures WaitRank(s, cycle[0]) + i <= WaitRank(s, cycle[i])
  {
    if i > 0 {
      ChainRises(s, cycle, i - 1);
      assert Blocker(s, cycle[i - 1]) == cycle[i];
      BlockerWaitsHigher(s, cycle[i - 1]);
    }
  }

  /** No run reaches a cyclic wait of any length. */
  lemma NoCyclicWait(s0: State, schedule: seq<(Thread, Action)>, cycle: seq<Thread>)
    requires Init(s0)
    ensures !CyclicWait(Run(s0, schedule), cycle)
  {
    var s := Run(s0, schedule);
    RunInv(s0, schedule);
    if CyclicWait(s, cycle) {
      var n := |cycle| - 1;
      ChainRises(s, cycle, n);
      assert Blocker(s, cycle[n]) == cycle[0];
      BlockerWaitsHigher(s, cycle[n]);
    }
  }

  /** An action, none of them a failure, that moves a thread on when no taken lock stops it. */
  function Advance(pc: Pc): Action {
    match pc
    case Idle => Begin(ImportData)
    case Import(ITry) => TimeOut
    case Import(ITimedOut) => Answer(false)
    case Reload(_, RAdd(snap, fetched)) => if fetched < |snap.rows| then Batch(|snap.rows| - fetched) else Proceed
    case _ => Proceed
  }

  lemma ReloadAdvances(s: State, rc: ReloadCaller, at: ReloadAt, worker: nat)
    requires StoreInv(s.store) && ThreadReload(Reload(rc, at), worker, s.store)
    requires WaitsFor(Reload(rc, at)).Some? ==> WaitsFor(Reload(rc, at)).value !in s.owner
    ensures DecideReload(s, rc, at, Advance(Reload(rc, at))).pc != Reload(rc, at)
  {
  }

  lemma UnblockedAdvances(s: State, t: Thread)
    requires Inv(s) && t in s.pc && !Blocked(s, t)
    ensures Next(s, t, Advance(s.pc[t])).pc[t] != s.pc[t]
  {
    var pc := s.pc[t];
    if pc.Reload? {
      assert ThreadReload(pc, t.worker, s.store);
      ReloadAdvances(s, pc.rc, pc.rat, t.worker);
    }
  }

  /** Each thread of the chain but the last waits for a lock that the next one holds. */
  ghost predicate WaitChain(s: State, chain: seq<Thread>) {
    && |chain| > 0
    && forall i :: 0 <= i < |chain| - 1 ==> WaitsForNext(s, chain, i)
  }

  ghost predicate WaitsForNext(s: State, chain: seq<Thread>, i: int)
    requires 0 <= i < |chain| - 1
  {
    Blocked(s, chain[i]) && Blocker(s, chain[i]) == chain[i + 1]
  }

  lemma ChainPrepend(s: State, t: Thread, chain: seq<Thread>, longer: seq<Thread>)
    requires WaitChain(s, chain) && Blocked(s, t) && Blocker(s, t) == chain[0] && longer == [t] + chain
    ensures WaitChain(s, longer)
  {
    forall i | 0 <= i < |longer| - 1
      ensures WaitsForNext(s, longer, i)
    {
      if i > 0 {
        assert WaitsForNext(s, chain, i - 1);
      }
    }
  }

  ghost function ChainBound(s: State, t: Thread): int {
    if Blocked(s, t) then 5 - WaitRank(s, t) else 1
  }

  /** The thread is not blocked, and a step of its own takes it on. */
  ghost predicate CanAdvance(s: State, t: Thread) {
    t in s.pc && !Blocked(s, t) && Next(s, t, Advance(s.pc[t])).pc[t] != s.pc[t]
  }

  /** From any thread, following lock owners upwards ends, within the number of locks, at one that is not blocked. */
  lemma {:induction false} FindRunnable(s: State, t: Thread) returns (chain: seq<Thread>)
    requires LockInv(s.pc, s.owner) && t in s.pc
    ensures WaitChain(s, chain) && chain[0] == t
    ensures |chain| <= ChainBound(s, t)
    ensures chain[|chain| - 1] in s.pc && !Blocked(s, chain[|chain| - 1])
    decreases ChainBound(s, t)
  {
    if Blocked(s, t) {
      if Blocked(s, Blocker(s, t)) {
        BlockerWaitsHigher(s, t);
      }
      var rest := FindRunnable(s, Blocker(s, t));
      chain := [t] + rest;
      ChainPrepend(s, t, rest, chain);
    } else {
      chain := [t];
    }
  }

  /**
    In every run and from every thread, blocked or not: the chain of lock owners, at most five long, leads to
    a thread that is not blocked and can make its next step.
  */
  lemma NeverDeadlocked(s0: State, schedule: seq<(Thread, Action)>, s: State, t: Thread) returns (chain: seq<Thread>)
    requires Init(s0) && s == Run(s0, schedule) && t in s.pc
    ensures WaitChain(s, chain) && chain[0] == t && |chain| <= 5
    ensures CanAdvance(s, chain[|chain| - 1])
  {
    RunInv(s0, schedule);
    chain := FindRunnable(s, t);
    UnblockedAdvances(s, chain[|chain| - 1]);
  }
}
