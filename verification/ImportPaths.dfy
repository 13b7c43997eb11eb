/**
  Calls that go their way undisturbed, step by step from any state: when `import_data` imports, what a time-out, a
  failure or a closed connection pool leads to, and what an import that failed leaves for the next call.
*/
module ImportPaths {
  import opened Options
  import opened ImportProtocol
  import opened ImportLocks
  import opened ImportReload
  import opened ImportSafety

  ghost predicate StepAt(path: seq<State>, t: Thread, acts: seq<Action>, i: nat)
    requires i < |acts| && |path| == |acts| + 1
  {
    path[i + 1] == Next(path[i], t, acts[i])
  }

  ghost predicate IsPath(path: seq<State>, t: Thread, acts: seq<Action>) {
    |path| == |acts| + 1 && forall i {:trigger StepAt(path, t, acts, i)} :: 0 <= i < |acts| ==> StepAt(path, t, acts, i)
  }

  /** Taking these actions, with nothing in between, the thread leads from the one state to the other. */
  ghost predicate Leads(s0: State, t: Thread, acts: seq<Action>, s: State) {
    exists path :: IsPath(path, t, acts) && path[0] == s0 && path[|acts|] == s
  }

  ghost function Schedule(t: Thread, acts: seq<Action>): seq<(Thread, Action)> {
    seq(|acts|, i requires 0 <= i < |acts| => (t, acts[i]))
  }

  lemma {:induction false} PathIsRun(path: seq<State>, t: Thread, acts: seq<Action>)
    requires IsPath(path, t, acts)
    ensures Run(path[0], Schedule(t, acts)) == path[|acts|]
    decreases |acts|
  {
    if acts != [] {
      var k := |acts| - 1;
      var most, init := path[..k + 1], acts[..k];
      forall i | 0 <= i < k
        ensures StepAt(most, t, init, i)
      {
        assert StepAt(path, t, acts, i);
      }
      PathIsRun(most, t, init);
      assert Schedule(t, acts)[..k] == Schedule(t, init);
      assert StepAt(path, t, acts, k);
    }
  }

  /** Such a stretch is a run, and leads to one state only. */
  lemma LeadsIsRun(s0: State, t: Thread, acts: seq<Action>, s: State)
    requires Leads(s0, t, acts, s)
    ensures Run(s0, Schedule(t, acts)) == s
  {
    var path :| IsPath(path, t, acts) && path[0] == s0 && path[|acts|] == s;
    PathIsRun(path, t, acts);
  }

  lemma NoSteps(s: State, t: Thread)
    ensures Leads(s, t, [], s)
  {
    assert IsPath([s], t, []);
  }

  /** One more step of the thread, with the move it makes. */
  lemma Then(s0: State, t: Thread, done: seq<Action>, s: State, act: Action, m: Move, acts: seq<Action>)
    returns (s': State)
    requires acts == done + [act]
    requires Leads(s0, t, done, s) && t in s.pc && !act.Tick? && m == Decide(s, t.worker, s.pc[t], act)
    ensures s' == Apply(s, t, m) && Leads(s0, t, acts, s')
  {
    s' := Next(s, t, act);
    var path :| IsPath(path, t, done) && path[0] == s0 && path[|done|] == s;
    var longer := path + [s'];
    forall i | 0 <= i < |acts|
      ensures StepAt(longer, t, acts, i)
    {
      assert i < |done| ==> StepAt(path, t, done, i);
    }
    assert IsPath(longer, t, acts);
  }

  // ---------------------------------------------------------------- when a call imports

  /** `import_data` up to the start of the import, if the lock is free. */
  function Call(): seq<Action> {
    [Begin(ImportData), Proceed, Proceed, Proceed, Proceed, Proceed]
  }

  lemma CallLooks(s: State, t: Thread) returns (s': State)
    requires t in s.pc && s.pc[t] == Idle
    ensures Leads(s, t, [Begin(ImportData), Proceed, Proceed], s')
    ensures s' == s.(pc := s.pc[t := if Due(s.clock) then Import(ITry) else Idle])
  {
    var last := s.clock.lastImport;
    NoSteps(s, t);
    s' := Then(s, t, [], s, Begin(ImportData), Move(Import(ICheck), Nothing), [Begin(ImportData)]);
    assert s' == s.(pc := s.pc[t := Import(ICheck)]);
    s' := Then(s, t, [Begin(ImportData)], s', Proceed, Move(Import(IFast(last)), Nothing),
      [Begin(ImportData), Proceed]);
    assert s' == s.(pc := s.pc[t := Import(IFast(last))]);
    s' := Then(s, t, [Begin(ImportData), Proceed], s', Proceed,
      Move(if Due(s.clock) then Import(ITry) else Idle, Nothing), [Begin(ImportData), Proceed, Proceed]);
  }

  /** Three steps after it went for a free lock, a call has begun to import or is about to give the lock back. */
  lemma CallEnters(s0: State, t: Thread, done: seq<Action>, s: State) returns (s': State)
    requires Leads(s0, t, done, s) && t in s.pc && s.pc[t] in {Import(ITry), Import(IWait)}
    requires ImportLock !in s.owner
    ensures Leads(s0, t, done + [Proceed, Proceed, Proceed], s')
    ensures s' == s.(pc := s.pc[t := Import(if Due(s.clock) then IStart else IExit)], owner := s.owner[ImportLock := t])
  {
    var last, held := s.clock.lastImport, s.owner[ImportLock := t];
    s' := Then(s0, t, done, s, Proceed, Move(Import(IRecheck), Take(ImportLock)), done + [Proceed]);
    assert s' == s.(pc := s.pc[t := Import(IRecheck)], owner := held);
    s' := Then(s0, t, done + [Proceed], s', Proceed, Move(Import(ICompare(last)), Nothing), done + [Proceed, Proceed]);
    assert s' == s.(pc := s.pc[t := Import(ICompare(last))], owner := held);
    s' := Then(s0, t, done + [Proceed, Proceed], s', Proceed,
      Move(Import(if Due(s.clock) then IStart else IExit), Nothing), done + [Proceed, Proceed, Proceed]);
  }

  lemma IdleStays(s0: State, t: Thread, done: seq<Action>, s: State)
    requires Leads(s0, t, done, s) && t in s.pc && s.pc[t] == Idle
    ensures Leads(s0, t, done + [Proceed, Proceed, Proceed], s)
  {
    assert s.pc[t := Idle] == s.pc;
    var s' := Then(s0, t, done, s, Proceed, Move(Idle, Nothing), done + [Proceed]);
    s' := Then(s0, t, done + [Proceed], s', Proceed, Move(Idle, Nothing), done + [Proceed, Proceed]);
    s' := Then(s0, t, done + [Proceed, Proceed], s', Proceed, Move(Idle, Nothing), done + [Proceed, Proceed, Proceed]);
  }

  /**
    A call that finds the lock free starts an import if and only if no success is recorded or the last one is five
    minutes old; otherwise it returns, and has changed nothing.
  */
  lemma ImportsIffDue(s: State, t: Thread)
    requires t in s.pc && s.pc[t] == Idle && ImportLock !in s.owner
    ensures Due(s.clock) ==>
              Leads(s, t, Call(), s.(pc := s.pc[t := Import(IStart)], owner := s.owner[ImportLock := t]))
    ensures !Due(s.clock) ==> Leads(s, t, Call(), s)
  {
    var look := [Begin(ImportData), Proceed, Proceed];
    var s' := CallLooks(s, t);
    assert look + [Proceed, Proceed, Proceed] == Call();
    if Due(s.clock) {
      s' := CallEnters(s, t, look, s');
    } else {
      assert s'.pc == s.pc;
      IdleStays(s, t, look, s');
    }
  }

  /** In every reachable state, whatever the others do: under the lock, the body starts if and only if it is due. */
  lemma StartsIffDue(s: State, t: Thread)
    requires Inv(s) && t in s.pc && s.pc[t].Import? && s.pc[t].iat.ICompare?
    ensures Next(s, t, Proceed).pc[t] == Import(if Due(s.clock) then IStart else IExit)
  {
    assert ThreadTime(s.pc[t], s.clock);
  }

  /** A call that times out on the lock returns, and has changed nothing, if set-up is complete; otherwise it waits. */
  lemma TimedOutCall(s: State, t: Thread, complete: bool, pc: Pc)
    requires t in s.pc && s.pc[t] == Import(ITry) && pc == if complete then Idle else Import(IWait)
    ensures Leads(s, t, [TimeOut, Answer(complete)], s.(pc := s.pc[t := pc]))
  {
    NoSteps(s, t);
    var s' := Then(s, t, [], s, TimeOut, Move(Import(ITimedOut), Nothing), [TimeOut]);
    assert s' == s.(pc := s.pc[t := Import(ITimedOut)]);
    s' := Then(s, t, [TimeOut], s', Answer(complete), Move(pc, Nothing), [TimeOut, Answer(complete)]);
  }

  /** Once the lock is free, a call that waited imports if and only if an import is still due. */
  lemma WaitedCall(s: State, t: Thread)
    requires t in s.pc && s.pc[t] == Import(IWait) && ImportLock !in s.owner
    ensures Leads(s, t, [Proceed, Proceed, Proceed],
                  s.(pc := s.pc[t := Import(if Due(s.clock) then IStart else IExit)],
                     owner := s.owner[ImportLock := t]))
  {
    NoSteps(s, t);
    var s' := CallEnters(s, t, [], s);
    assert [] + [Proceed, Proceed, Proceed] == [Proceed, Proceed, Proceed];
  }

  // ---------------------------------------------------------------- imports and rebuilds that fail

  /** An import that fails gives the lock back, and moves on neither the time of the last success nor the generation. */
  lemma FailedImport(s: State, t: Thread)
    requires t in s.pc && s.pc[t] in {Import(IWrite), Import(IBackfill)}
    ensures Leads(s, t, [Fail, Proceed], s.(pc := s.pc[t := Idle], owner := s.owner - {ImportLock}))
  {
    NoSteps(s, t);
    var s' := Then(s, t, [], s, Fail, Move(Import(IExit), Nothing), [Fail]);
    ImportLetsGo(s, t, [Fail], s', [Fail, Proceed]);
    assert s'.pc[t := Idle] == s.pc[t := Idle];
  }

  /** An import that fails on the cards can be repeated at once; one that fails after them waits its five minutes. */
  lemma RetryAfterFailure(s: State, t: Thread, u: Thread) returns (failed: State)
    requires t in s.pc && s.pc[t] in {Import(IWrite), Import(IBackfill)} && u in s.pc && (u == t || s.pc[u] == Idle)
    ensures failed == s.(pc := s.pc[t := Idle], owner := s.owner - {ImportLock}) && Leads(s, t, [Fail, Proceed], failed)
    ensures Leads(failed, u, Call(),
                  if Due(s.clock)
                  then failed.(pc := failed.pc[u := Import(IStart)], owner := failed.owner[ImportLock := u])
                  else failed)
  {
    FailedImport(s, t);
    failed := s.(pc := s.pc[t := Idle], owner := s.owner - {ImportLock});
    ImportsIffDue(failed, u);
  }

  /** Migrations that fail leave the event unset for the next caller, and end the import that called for them. */
  lemma FailedSetup(s: State, t: Thread, sc: SchemaCaller)
    requires t in s.pc && s.pc[t] == Schema(sc, SBody)
    ensures Leads(s, t, [Fail, Proceed],
                  s.(pc := s.pc[t := if sc in {ImportRun, ImportUpsert} then Import(IExit) else Idle],
                     owner := s.owner - {ImportGuard}))
  {
    NoSteps(s, t);
    var s' := Then(s, t, [], s, Fail, Move(Schema(sc, SExit(false)), Nothing), [Fail]);
    assert s' == s.(pc := s.pc[t := Schema(sc, SExit(false))]);
    s' := Then(s, t, [Fail], s', Proceed, Move(AfterSchema(sc, false), Drop(ImportGuard)), [Fail, Proceed]);
  }

  /** A closed connection pool is let pass; any other error is raised. */
  function Ending(broken: Action): Outcome {
    if broken == PoolClosed then Skipped else Raised
  }

  /** A rebuild that breaks off before anything is staged gives the guard back. */
  lemma BrokenBeforeStaging(s: State, t: Thread, rc: ReloadCaller, broken: Action, out: Outcome)
    requires t in s.pc && s.pc[t] == Reload(rc, RSelect) && broken in {PoolClosed, Fail} && out == Ending(broken)
    ensures Leads(s, t, [broken, Proceed],
                  s.(pc := s.pc[t := AfterReload(rc, out)], owner := s.owner - {ReloadGuard}))
  {
    NoSteps(s, t);
    var s' := Then(s, t, [], s, broken, Move(Reload(rc, RExit(out)), Nothing), [broken]);
    assert s' == s.(pc := s.pc[t := Reload(rc, RExit(out))]);
    s' := Then(s, t, [broken], s', Proceed, Move(AfterReload(rc, out), Drop(ReloadGuard)), [broken, Proceed]);
  }

  lemma StagingAborts(s: State, t: Thread, rc: ReloadCaller, snap: Snapshot, fetched: nat, broken: Action, out: Outcome)
    requires t in s.pc && s.pc[t] == Reload(rc, RAdd(snap, fetched))
    requires broken in {PoolClosed, Fail} && out == Ending(broken)
    ensures Leads(s, t, [broken], s.(pc := s.pc[t := Reload(rc, RAbort(true, out))]))
  {
    NoSteps(s, t);
    var s' := Then(s, t, [], s, broken, Move(Reload(rc, RAbort(true, out)), Nothing), [broken]);
  }

  lemma StagingDropped(s0: State, t: Thread, broken: Action, s: State, rc: ReloadCaller, out: Outcome, cleared: Store)
    requires Leads(s0, t, [broken], s) && t in s.pc && s.pc[t] == Reload(rc, RAbort(true, out))
    requires cleared == s.store.(staging := s.store.staging - {t.worker})
    ensures Leads(s0, t, [broken, Proceed, Proceed],
                  s.(pc := s.pc[t := AfterReload(rc, out)], owner := s.owner - {WriteLock, ReloadGuard},
                     store := cleared))
  {
    var s' := Then(s0, t, [broken], s, Proceed, Move(Reload(rc, RExit(out)), Unstage), [broken, Proceed]);
    assert s' == s.(pc := s.pc[t := Reload(rc, RExit(out))], owner := s.owner - {WriteLock}, store := cleared);
    s' := Then(s0, t, [broken, Proceed], s', Proceed, Move(AfterReload(rc, out), Drop(ReloadGuard)),
               [broken, Proceed, Proceed]);
    assert s.owner - {WriteLock} - {ReloadGuard} == s.owner - {WriteLock, ReloadGuard};
  }

  /** One that breaks off among the batches: the staged rows go, the published archive stays. */
  lemma BrokenWhileStaging(
    s: State, t: Thread, rc: ReloadCaller, snap: Snapshot, fetched: nat, broken: Action, out: Outcome)
    requires t in s.pc && s.pc[t] == Reload(rc, RAdd(snap, fetched))
    requires broken in {PoolClosed, Fail} && out == Ending(broken)
    ensures Leads(s, t, [broken, Proceed, Proceed],
                  s.(pc := s.pc[t := AfterReload(rc, out)], owner := s.owner - {WriteLock, ReloadGuard},
                     store := s.store.(staging := s.store.staging - {t.worker})))
  {
    StagingAborts(s, t, rc, snap, fetched, broken, out);
    var s' := s.(pc := s.pc[t := Reload(rc, RAbort(true, out))]);
    StagingDropped(s, t, broken, s', rc, out, s.store.(staging := s.store.staging - {t.worker}));
    assert s'.pc[t := AfterReload(rc, out)] == s.pc[t := AfterReload(rc, out)];
  }

  /** The end of an import: the lock is given back. */
  lemma ImportLetsGo(s0: State, t: Thread, done: seq<Action>, s: State, acts: seq<Action>)
    requires Leads(s0, t, done, s) && t in s.pc && s.pc[t] == Import(IExit) && acts == done + [Proceed]
    ensures Leads(s0, t, acts, s.(pc := s.pc[t := Idle], owner := s.owner - {ImportLock}))
  {
    var s' := Then(s0, t, done, s, Proceed, Move(Idle, Drop(ImportLock)), acts);
  }

  lemma ImportConcludes(s: State, t: Thread, bumped: Serving, recorded: Clock)
    requires t in s.pc && s.pc[t] == Import(IFinalBump(None))
    requires bumped == s.serving.(bumps := s.serving.bumps + [Bump(s.store.pubs, PublishedVer(s.store), None)])
    requires recorded == Clock(s.clock.now, s.clock.now, s.clock.timeline + [Succeeded(s.clock.now)])
    ensures Leads(s, t, [Proceed, Proceed],
                  s.(pc := s.pc[t := Import(IExit)], clock := recorded, serving := bumped))
  {
    NoSteps(s, t);
    var s' := Then(s, t, [], s, Proceed, Move(Import(IFinalRecord), BumpGen(None)), [Proceed]);
    assert s' == s.(pc := s.pc[t := Import(IFinalRecord)], serving := bumped);
    s' := Then(s, t, [Proceed], s', Proceed, Move(Import(IExit), MarkSuccess), [Proceed, Proceed]);
  }

  /**
    What the import does with it: after a closed pool it ends as after a rebuild, generation moved on and success
    recorded; after an error it ends with neither.
  */
  lemma ImportAfterBrokenRebuild(
    s: State, t: Thread, need: nat, broken: Action, bumped: Serving, recorded: Clock)
    requires t in s.pc && broken in {PoolClosed, Fail} && s.pc[t] == AfterReload(ForImport(need), Ending(broken))
    requires bumped == s.serving.(bumps := s.serving.bumps + [Bump(s.store.pubs, PublishedVer(s.store), None)])
    requires recorded == Clock(s.clock.now, s.clock.now, s.clock.timeline + [Succeeded(s.clock.now)])
    ensures broken == PoolClosed ==>
              Leads(s, t, [Proceed, Proceed, Proceed],
                    s.(pc := s.pc[t := Idle], owner := s.owner - {ImportLock}, clock := recorded, serving := bumped))
    ensures broken == Fail ==> Leads(s, t, [Proceed], s.(pc := s.pc[t := Idle], owner := s.owner - {ImportLock}))
  {
    if broken == PoolClosed {
      ImportConcludes(s, t, bumped, recorded);
      var s' := s.(pc := s.pc[t := Import(IExit)], clock := recorded, serving := bumped);
      ImportLetsGo(s, t, [Proceed, Proceed], s', [Proceed, Proceed, Proceed]);
      assert s'.pc[t := Idle] == s.pc[t := Idle];
    } else {
      NoSteps(s, t);
      ImportLetsGo(s, t, [], s, [Proceed]);
    }
  }

  /** A commit that fails has dropped what was staged; the published archive stays. */
  lemma CommitFails(s: State, t: Thread, rc: ReloadCaller, snap: Snapshot, cleared: Store)
    requires t in s.pc && s.pc[t] == Reload(rc, RCommit(snap))
    requires cleared == s.store.(staging := s.store.staging - {t.worker})
    ensures Leads(s, t, [Fail],
                  s.(pc := s.pc[t := Reload(rc, RAbort(false, Raised))], owner := s.owner - {WriteLock},
                     store := cleared))
  {
    NoSteps(s, t);
    var s' := Then(s, t, [], s, Fail, Move(Reload(rc, RAbort(false, Raised)), Unstage), [Fail]);
  }

  lemma AbortEnds(s0: State, t: Thread, s: State, rc: ReloadCaller)
    requires Leads(s0, t, [Fail], s) && t in s.pc && s.pc[t] == Reload(rc, RAbort(false, Raised))
    ensures Leads(s0, t, [Fail, Proceed, Proceed],
                  s.(pc := s.pc[t := AfterReload(rc, Raised)], owner := s.owner - {ReloadGuard}))
  {
    var s' := Then(s0, t, [Fail], s, Proceed, Move(Reload(rc, RExit(Raised)), Nothing), [Fail, Proceed]);
    assert s' == s.(pc := s.pc[t := Reload(rc, RExit(Raised))]);
    s' := Then(s0, t, [Fail, Proceed], s', Proceed, Move(AfterReload(rc, Raised), Drop(ReloadGuard)),
               [Fail, Proceed, Proceed]);
  }

  /** And the error is raised. */
  lemma BrokenCommit(s: State, t: Thread, rc: ReloadCaller, snap: Snapshot, cleared: Store)
    requires t in s.pc && s.pc[t] == Reload(rc, RCommit(snap))
    requires cleared == s.store.(staging := s.store.staging - {t.worker})
    ensures Leads(s, t, [Fail, Proceed, Proceed],
                  s.(pc := s.pc[t := AfterReload(rc, Raised)], owner := s.owner - {WriteLock, ReloadGuard},
                     store := cleared))
  {
    CommitFails(s, t, rc, snap, cleared);
    var aborting := s.(pc := s.pc[t := Reload(rc, RAbort(false, Raised))], owner := s.owner - {WriteLock},
                       store := cleared);
    AbortEnds(s, t, aborting, rc);
    assert s.owner - {WriteLock} - {ReloadGuard} == s.owner - {WriteLock, ReloadGuard};
    assert aborting.pc[t := AfterReload(rc, Raised)] == s.pc[t := AfterReload(rc, Raised)];
  }

  /** An error raises, wherever in the rebuild it strikes. */
  lemma ErrorsRaise(s: State, t: Thread)
    requires t in s.pc && s.pc[t].Reload?
    requires var at := s.pc[t].rat; at.RSelect? || at.RInode? || at.RBegin? || at.RAdd? || at.RCommit?
    ensures var pc := Next(s, t, Fail).pc[t];
            pc.Reload? && pc.rc == s.pc[t].rc && (pc.rat == RExit(Raised) || (pc.rat.RAbort? && pc.rat.out == Raised))
  {
  }

  /** The rebuild is waiting, or under way, or has published. */
  predicate GoesOn(rc: ReloadCaller, pc: Pc) {
    pc.Reload? && pc.rc == rc && !pc.rat.RAbort? && (pc.rat.RExit? ==> pc.rat.out == Published)
  }

  lemma MoveGoesOn(s: State, rc: ReloadCaller, at: ReloadAt, act: Action)
    requires !rc.ForWarming? && act != Fail && act != PoolClosed && !at.RAbort? && !at.RExit?
    requires at.RBegin? && s.store.published.Some? ==> s.store.pubs == at.inode
    ensures GoesOn(rc, DecideReload(s, rc, at, act).pc)
  {
  }

  /**
    In every reachable state: a rebuild after a change of the data is never given up.  Unless an error or a closed
    pool strikes it, it waits for what it needs, goes on, or has published.
  */
  lemma ForcedGoesOn(s: State, t: Thread, act: Action)
    requires Inv(s) && t in s.pc && s.pc[t].Reload? && !s.pc[t].rc.ForWarming? && act != Fail && act != PoolClosed
    requires !s.pc[t].rat.RAbort? && !s.pc[t].rat.RExit?
    ensures GoesOn(s.pc[t].rc, Next(s, t, act).pc[t])
  {
    if !act.Tick? {
      assert ThreadReload(s.pc[t], t.worker, s.store);
      MoveGoesOn(s, s.pc[t].rc, s.pc[t].rat, act);
    }
  }

  /** What is staged for a worker is dropped before it begins, and an archive published in between turns it away. */
  lemma BeginsAfresh(s: State, t: Thread, rc: ReloadCaller, snap: Snapshot, inode: nat)
    requires t in s.pc
    ensures s.pc[t] == Reload(rc, RInode(snap)) ==>
              Leads(s, t, [Proceed],
                    s.(pc := s.pc[t := Reload(rc, RBegin(snap, s.store.pubs))],
                       store := s.store.(staging := s.store.staging - {t.worker})))
    ensures s.pc[t] == Reload(rc, RBegin(snap, inode)) && WriteLock !in s.owner && s.store.published.Some? &&
            s.store.pubs != inode ==>
              Leads(s, t, [Proceed], s.(pc := s.pc[t := Reload(rc, RExit(Skipped))]))
  {
    NoSteps(s, t);
    if s.pc[t] == Reload(rc, RInode(snap)) {
      var s' := Then(s, t, [], s, Proceed, Move(Reload(rc, RBegin(snap, s.store.pubs)), Discard), [Proceed]);
    } else if s.pc[t] == Reload(rc, RBegin(snap, inode)) && WriteLock !in s.owner && s.store.published.Some? &&
              s.store.pubs != inode {
      var s' := Then(s, t, [], s, Proceed, Move(Reload(rc, RExit(Skipped)), Nothing), [Proceed]);
    }
  }

  // ---------------------------------------------------------------- the other calls

  /** A card import or an ingest that fails moves the generation on by nothing and rebuilds nothing. */
  lemma FailedWrite(s: State, t: Thread)
    requires t in s.pc && s.pc[t] in {SearchImport(CWrite), Ingest(GWrite)}
    ensures Leads(s, t, [Fail], s.(pc := s.pc[t := Idle]))
  {
    NoSteps(s, t);
    var s' := Then(s, t, [], s, Fail, Move(Idle, Nothing), [Fail]);
  }

  lemma IngestWrites(s: State, t: Thread, rows: seq<Row>, written: Store)
    requires t in s.pc && s.pc[t] == Idle && written == s.store.(tables := s.store.tables + [rows])
    ensures Leads(s, t, [Begin(IngestCubes), Write(rows)], s.(pc := s.pc[t := Ingest(GWrite)], store := written))
  {
    NoSteps(s, t);
    var s' := Then(s, t, [], s, Begin(IngestCubes), Move(Ingest(GWrite), Nothing), [Begin(IngestCubes)]);
    assert s' == s.(pc := s.pc[t := Ingest(GWrite)]);
    s' := Then(s, t, [Begin(IngestCubes)], s', Write(rows), Move(Ingest(GWrite), WriteTable(rows)),
               [Begin(IngestCubes), Write(rows)]);
  }

  /** The CubeCobra ingest writes the table and moves the generation on, and leaves the archive as it is. */
  lemma IngestAlone(s: State, t: Thread, rows: seq<Row>, written: Store, bumped: Serving)
    requires t in s.pc && s.pc[t] == Idle && written == s.store.(tables := s.store.tables + [rows])
    requires bumped == s.serving.(bumps := s.serving.bumps + [Bump(s.store.pubs, PublishedVer(s.store), None)])
    ensures Leads(s, t, [Begin(IngestCubes), Write(rows), Proceed, Proceed], s.(store := written, serving := bumped))
  {
    IngestWrites(s, t, rows, written);
    var s' := s.(pc := s.pc[t := Ingest(GWrite)], store := written);
    s' := Then(s, t, [Begin(IngestCubes), Write(rows)], s', Proceed, Move(Ingest(GBump), Nothing),
               [Begin(IngestCubes), Write(rows), Proceed]);
    assert s' == s.(pc := s.pc[t := Ingest(GBump)], store := written);
    s' := Then(s, t, [Begin(IngestCubes), Write(rows), Proceed], s', Proceed, Move(Idle, BumpGen(None)),
               [Begin(IngestCubes), Write(rows), Proceed, Proceed]);
    assert s'.pc == s.pc;
  }

  /** An archive without cards is as good as none: a search takes nothing from it, and warming rebuilds it. */
  lemma NoCardsIsEmpty(s: State, t: Thread, key: Key, gen: nat)
    requires t in s.pc && s.store.published.Some? && s.store.published.value.rows == []
    ensures s.pc[t] == Query(key, QEngine(gen)) ==> Leads(s, t, [Proceed], s.(pc := s.pc[t := Idle]))
    ensures s.pc[t] == Idle ==> Leads(s, t, [Begin(Warm)], s.(pc := s.pc[t := Reload(ForWarming, REnter)]))
  {
    NoSteps(s, t);
    if s.pc[t] == Idle {
      var s' := Then(s, t, [], s, Begin(Warm), Move(Reload(ForWarming, REnter), Nothing), [Begin(Warm)]);
    } else if s.pc[t] == Query(key, QEngine(gen)) {
      var s' := Then(s, t, [], s, Proceed, Move(Idle, Nothing), [Proceed]);
    }
  }

  lemma Expires(s: State, t: Thread, key: Key, c: GenCache, aged: Serving)
    requires t in s.pc && s.pc[t] == Idle && t.worker in s.serving.caches && s.serving.caches[t.worker] == c
    requires aged == s.serving.(caches := s.serving.caches[t.worker := GenCache(c.gen, c.entries - {key})])
    ensures Leads(s, t, [Expire(key)], s.(serving := aged))
  {
    NoSteps(s, t);
    var s' := Then(s, t, [], s, Expire(key), Move(Idle, Forget(key)), [Expire(key)]);
    assert s'.pc == s.pc;
  }

  /** An answer that has expired is not given again: the next search for its key goes to the engine. */
  lemma ExpiredIsAskedAgain(s: State, t: Thread, key: Key, c: GenCache, aged: Serving)
    requires t in s.pc && s.pc[t] == Idle && t.worker in s.serving.caches && s.serving.caches[t.worker] == c
    requires aged == s.serving.(caches := s.serving.caches[t.worker := GenCache(c.gen, c.entries - {key})])
    requires |s.serving.bumps| == c.gen + 1
    ensures Leads(s, t, [Expire(key), Begin(Search(key)), Proceed, Proceed],
                  s.(pc := s.pc[t := Query(key, QEngine(c.gen))], serving := aged))
  {
    Expires(s, t, key, c, aged);
    var s' := s.(serving := aged);
    s' := Then(s, t, [Expire(key)], s', Begin(Search(key)), Move(Query(key, QGen), Nothing),
               [Expire(key), Begin(Search(key))]);
    assert s' == s.(pc := s.pc[t := Query(key, QGen)], serving := aged);
    s' := Then(s, t, [Expire(key), Begin(Search(key))], s', Proceed, Move(Query(key, QLookup(c.gen)), Nothing),
               [Expire(key), Begin(Search(key)), Proceed]);
    assert s' == s.(pc := s.pc[t := Query(key, QLookup(c.gen))], serving := aged);
    s' := Then(s, t, [Expire(key), Begin(Search(key)), Proceed], s', Proceed, Move(Query(key, QEngine(c.gen)), Nothing),
               [Expire(key), Begin(Search(key)), Proceed, Proceed]);
  }

  /** Warming a store that has cards changes nothing, whether the request or the guard comes to see that. */
  lemma WarmingIsIdle(s: State, t: Thread)
    requires t in s.pc && s.store.published.Some? && s.store.published.value.rows != []
    ensures s.pc[t] == Idle ==> Leads(s, t, [Begin(Warm)], s)
    ensures s.pc[t] == Reload(ForWarming, RHeld) ==>
              Leads(s, t, [Proceed, Proceed], s.(pc := s.pc[t := Idle], owner := s.owner - {ReloadGuard}))
  {
    if s.pc[t] == Idle {
      assert s.pc[t := Idle] == s.pc;
      NoSteps(s, t);
      var s' := Then(s, t, [], s, Begin(Warm), Move(Idle, Nothing), [Begin(Warm)]);
    } else if s.pc[t] == Reload(ForWarming, RHeld) {
      NoSteps(s, t);
      var s' := Then(s, t, [], s, Proceed, Move(Reload(ForWarming, RExit(Skipped)), Nothing), [Proceed]);
      assert s' == s.(pc := s.pc[t := Reload(ForWarming, RExit(Skipped))]);
      s' := Then(s, t, [Proceed], s', Proceed, Move(Idle, Drop(ReloadGuard)), [Proceed, Proceed]);
    }
  }
}
