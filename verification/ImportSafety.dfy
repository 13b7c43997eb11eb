/**
  The invariant of the import protocol, and what holds in every run.
*/
module ImportSafety {
  import opened Options
  import opened ImportProtocol
  import opened ImportLocks
  import opened ImportReload
  import opened ImportFreshness

  ghost predicate Inv(s: State) {
    && LockInv(s.pc, s.owner)
    && SchemaInv(s.pc, s.owner, s.schema)
    && TimeInv(s.pc, s.clock)
    && ReloadInv(s.pc, s.owner, s.store)
    && FreshInv(s.pc, s.store, s.serving)
  }

  lemma InitInv(s: State)
    requires Init(s)
    ensures Inv(s)
  {
  }

  lemma StepInv(s: State, t: Thread, act: Action)
    requires Inv(s)
    ensures Inv(Next(s, t, act))
  {
    if !act.Tick? && t in s.pc {
      LockStep(s, t, act);
      SchemaStep(s, t, act);
      TimeStep(s, t, act);
      ReloadStep(s, t, act);
      FreshStep(s, t, act);
    }
  }

  lemma {:induction false} RunInv(s: State, schedule: seq<(Thread, Action)>)
    requires Init(s)
    ensures Inv(Run(s, schedule))
    decreases |schedule|
  {
    if schedule == [] {
      InitInv(s);
    } else {
      var n := |schedule| - 1;
      RunInv(s, schedule[..n]);
      StepInv(Run(s, schedule[..n]), schedule[n].0, schedule[n].1);
    }
  }

  /** In every run, at most one thread of all workers is in the import body, and bodies keep their distance. */
  lemma ImportsExcludeAndSpace(s0: State, schedule: seq<(Thread, Action)>)
    requires Init(s0)
    ensures var s := Run(s0, schedule);
            && (forall t, u :: t in s.pc && u in s.pc && InImportBody(s.pc[t]) && InImportBody(s.pc[u]) ==> t == u)
            && Spaced(s.clock.timeline)
  {
    var s := Run(s0, schedule);
    RunInv(s0, schedule);
    forall t, u | t in s.pc && u in s.pc && InImportBody(s.pc[t]) && InImportBody(s.pc[u])
      ensures t == u
    {
      Exclusive(s, t, u, ImportLock);
    }
  }

  lemma LeavesSchema(s: State, sc: SchemaCaller, at: SchemaAt, act: Action)
    requires at != SExit(false) && !DecideSchema(s, sc, at, act).pc.Schema?
    ensures PastSchema(Schema(sc, at)) || s.schema.eventSet
  {
  }

  /**
    In every run the migrations finish at most once, and a thread whose step leaves `setup_schema`
    normally finds them finished.
  */
  lemma SchemaFirst(s0: State, schedule: seq<(Thread, Action)>, t: Thread, act: Action)
    requires Init(s0)
    ensures var s := Run(s0, schedule);
            && s.schema.runs <= 1
            && (t in s.pc && s.pc[t].Schema? && !Next(s, t, act).pc[t].Schema? && s.pc[t].sat != SExit(false) ==>
                  s.schema.eventSet && s.schema.runs == 1)
            && (t in s.pc && PastSchema(s.pc[t]) ==> s.schema.eventSet)
  {
    var s := Run(s0, schedule);
    RunInv(s0, schedule);
    if t in s.pc && s.pc[t].Schema? && !Next(s, t, act).pc[t].Schema? && s.pc[t].sat != SExit(false) {
      LeavesSchema(s, s.pc[t].sc, s.pc[t].sat, act);
    }
  }

  /**
    The published archive is all the rows of one version of the table, and a staged build exists only under its
    builder's write lock.
  */
  ghost predicate ArchiveComplete(s: State) {
    && (s.store.published.Some? ==>
          Complete(s.store, s.store.published.value.ver, s.store.published.value.rows))
    && (forall w :: w in s.store.staging ==> WriteLock in s.owner && s.owner[WriteLock].worker == w)
  }

  lemma InvArchive(s: State, t: Thread)
    requires Inv(s)
    ensures ArchiveComplete(s)
    ensures t in s.pc ==> (Holds(s.pc[t], ReloadGuard) <==> ReloadGuard in s.owner && s.owner[ReloadGuard] == t)
  {
  }

  /**
    That holds in every run, and the cross-worker guard is held by one thread at most, exactly while that thread is
    between taking it and the release on its way out.
  */
  lemma ArchiveIsComplete(s0: State, schedule: seq<(Thread, Action)>, s: State, t: Thread)
    requires Init(s0) && s == Run(s0, schedule)
    ensures ArchiveComplete(s)
    ensures t in s.pc ==> (Holds(s.pc[t], ReloadGuard) <==> ReloadGuard in s.owner && s.owner[ReloadGuard] == t)
  {
    RunInv(s0, schedule);
    InvArchive(s, t);
  }

  lemma CommitPublishes(s: State, worker: nat, pc: Pc, act: Action, m: Move)
    requires StoreInv(s.store) && ThreadReload(pc, worker, s.store) && m == Decide(s, worker, pc, act) && m.eff.Publish?
    ensures pc.Reload? && pc.rat.RCommit? && act == Proceed
    ensures StoreAfter(s.store, worker, m.eff).published ==
            Some(Archive(s.store.pubs + 1, pc.rat.snap.ver, pc.rat.snap.rows))
  {
    MoveReload(s, worker, pc, act);
  }

  /** In every run only a commit changes the published archive, and it publishes the whole snapshot. */
  lemma OnlyCommitPublishes(s0: State, schedule: seq<(Thread, Action)>, t: Thread, act: Action, s: State, s': State)
    requires Init(s0) && s == Run(s0, schedule) && s' == Next(s, t, act) && s'.store.published != s.store.published
    ensures t in s.pc && s.pc[t].Reload? && s.pc[t].rat.RCommit? && act == Proceed
    ensures s'.store.published == Some(Archive(s.store.pubs + 1, s.pc[t].rat.snap.ver, s.pc[t].rat.snap.rows))
  {
    assert Inv(s) by {
      RunInv(s0, schedule);
    }
    assert t in s.pc && !act.Tick?;
    CommitPublishes(s, t.worker, s.pc[t], act, Decide(s, t.worker, s.pc[t], act));
  }

  lemma GuardFreed(pc: map<Thread, Pc>, owner: map<Lock, Thread>, t: Thread, m: Move, pc': map<Thread, Pc>,
                   owner': map<Lock, Thread>, st: Store)
    requires LockInv(pc, owner) && t in pc && LockMove(pc[t], owner, m, ReloadGuard)
    requires pc' == pc[t := m.pc] && owner' == OwnerAfter(owner, t, m.eff) && LockInv(pc', owner') &&
             StagingInv(owner', st)
    requires Holds(pc[t], ReloadGuard) && !m.pc.Reload?
    ensures ReloadGuard !in owner' && t.worker !in st.staging
  {
    assert owner[ReloadGuard] == t;
    assert ReloadGuard !in owner';
    if WriteLock in owner' {
      assert Holds(pc'[owner'[WriteLock]], WriteLock);
      assert !Holds(pc'[owner'[WriteLock]], ReloadGuard);
    }
  }

  /**
    In every run, a step by which the holder of the cross-worker guard leaves `_reload_engine`, normally or
    by an error, leaves the guard free and nothing of its worker staged.
  */
  lemma ReloadLeavesClean(s0: State, schedule: seq<(Thread, Action)>, t: Thread, act: Action, s: State, s': State)
    requires Init(s0) && s == Run(s0, schedule) && s' == Next(s, t, act) && t in s.pc
    requires Holds(s.pc[t], ReloadGuard) && !s'.pc[t].Reload?
    ensures ReloadGuard !in s'.owner && t.worker !in s'.store.staging
  {
    assert Inv(s) by {
      RunInv(s0, schedule);
    }
    assert LockInv(s'.pc, s'.owner) && StagingInv(s'.owner, s'.store) by {
      StepInv(s, t, act);
    }
    MoveLocks(s, t.worker, s.pc[t], act, ReloadGuard);
    GuardFreed(s.pc, s.owner, t, Decide(s, t.worker, s.pc[t], act), s'.pc, s'.owner, s'.store);
  }

  /** A rebuild at `reload_begin`, under the cross-worker guard, never finds a foreign publication. */
  lemma NeverTurnedAway(s0: State, schedule: seq<(Thread, Action)>, s: State, t: Thread)
    requires Init(s0) && s == Run(s0, schedule)
    requires t in s.pc && s.pc[t].Reload? && s.pc[t].rat.RBegin? && WriteLock !in s.owner
    ensures Next(s, t, Proceed).pc[t] == Reload(s.pc[t].rc, RAdd(s.pc[t].rat.snap, 0))
  {
    RunInv(s0, schedule);
    NotTurnedAway(s, t);
  }

  lemma NotTurnedAway(s: State, t: Thread)
    requires Inv(s) && t in s.pc && s.pc[t].Reload? && s.pc[t].rat.RBegin? && WriteLock !in s.owner
    ensures Next(s, t, Proceed).pc[t] == Reload(s.pc[t].rc, RAdd(s.pc[t].rat.snap, 0))
  {
    assert ThreadReload(s.pc[t], t.worker, s.store);
  }

  /**
    In every run, an answer served under a generation is at least as new as the archive published when
    that generation began; so every answer served under the generation that ended an import, or a later
    one, shows at least the table version that import had written and rebuilt from.
  */
  lemma AnswersAreFresh(s0: State, schedule: seq<(Thread, Action)>, i: nat, g: nat)
    requires Init(s0)
    ensures var v, st := Run(s0, schedule).serving, Run(s0, schedule).store;
            i < |v.served| ==>
              && AtLeast(v, st, v.served[i].res, v.served[i].gen)
              && (g <= v.served[i].gen ==>
                    && v.bumps[g].no <= v.served[i].res.no
                    && v.bumps[g].ver <= v.served[i].res.ver
                    && (v.bumps[g].need.Some? ==> v.bumps[g].need.value <= v.served[i].res.ver))
  {
    RunInv(s0, schedule);
  }
}
