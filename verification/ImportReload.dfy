/**
  What every step keeps of the staged builds and of the published archive.
*/
module ImportReload {
  import opened ImportProtocol
  import opened ImportLocks

  /** The rows are all the rows of one version of the table. */
  ghost predicate Complete(st: Store, ver: nat, rows: seq<Row>) {
    ver < |st.tables| && rows == st.tables[ver]
  }

  predicate Selected(at: ReloadAt) {
    at.RInode? || at.RBegin? || at.RAdd? || at.RCommit?
  }

  ghost predicate ThreadReload(pc: Pc, worker: nat, st: Store) {
    match pc
    case Reload(rc, at) =>
      && (rc.ForImport? ==> rc.need < |st.tables|)
      && (Selected(at) ==>
            && Complete(st, at.snap.ver, at.snap.rows)
            && PublishedVer(st) <= at.snap.ver
            && (rc.ForImport? ==> rc.need <= at.snap.ver))
      && (at.RBegin? ==> at.inode == st.pubs)
      && (at.RAdd? ==> at.fetched <= |at.snap.rows| && Staged(st, worker, at.snap.rows[..at.fetched]))
      && (at.RCommit? ==> Staged(st, worker, at.snap.rows))
      && (at.RAbort? ==> !at.out.Published?)
      && (at.RExit? && at.out.Published? && rc.ForImport? ==> rc.need <= PublishedVer(st))
    case Import(IFinalBump(Some(need))) => need <= PublishedVer(st)
    case _ => true
  }

  ghost predicate Staged(st: Store, worker: nat, rows: seq<Row>) {
    worker in st.staging && st.staging[worker] == rows
  }

  ghost predicate StoreInv(st: Store) {
    && |st.tables| > 0
    && (st.published.None? ==> st.pubs == 0)
    && (st.published.Some? ==>
          && st.published.value.no == st.pubs
          && Complete(st, st.published.value.ver, st.published.value.rows))
  }

  /** A staged build exists only while the thread that is building it holds the write lock. */
  ghost predicate StagingInv(owner: map<Lock, Thread>, st: Store) {
    forall w :: w in st.staging ==> WriteLock in owner && owner[WriteLock].worker == w
  }

  ghost predicate ReloadInv(pc: map<Thread, Pc>, owner: map<Lock, Thread>, st: Store) {
    && StoreInv(st)
    && StagingInv(owner, st)
    && (forall t :: t in pc ==> ThreadReload(pc[t], t.worker, st))
  }

  /** The effects through which a thread touches the staged or the published archive. */
  predicate TouchesArchive(e: Effect) {
    e.Discard? || e.Stage? || e.Append? || e.Publish? || e.Unstage?
  }

  ghost predicate ReloadMove(pc: Pc, worker: nat, st: Store, m: Move) {
    && (TouchesArchive(m.eff) ==> Holds(pc, ReloadGuard))
    && (m.eff.Publish? ==> pc.Reload? && pc.rat.RCommit? && m.eff.ver == pc.rat.snap.ver)
    && (m.eff.Append? ==> pc.Reload? && pc.rat.RAdd?)
    && (m.eff.Unstage? ==> Holds(pc, WriteLock))
    && m.eff != Drop(WriteLock)
    && ThreadReload(m.pc, worker, StoreAfter(st, worker, m.eff))
  }

  /** Adding batches keeps the staged build a prefix of the snapshot, and a commit waits for all of it. */
  lemma MoveAdding(s: State, worker: nat, rc: ReloadCaller, at: ReloadAt, act: Action)
    requires StoreInv(s.store) && ThreadReload(Reload(rc, at), worker, s.store) && at.RAdd?
    ensures ReloadMove(Reload(rc, at), worker, s.store, DecideReload(s, rc, at, act))
  {
    var rows := at.snap.rows;
    assert rows[..|rows|] == rows;
    if act.Batch? && at.fetched + act.count <= |rows| {
      assert rows[..at.fetched] + rows[at.fetched..at.fetched + act.count] == rows[..at.fetched + act.count];
    }
  }

  /** The other steps of a reload from the SELECT to the commit. */
  lemma MoveBuilding(s: State, worker: nat, rc: ReloadCaller, at: ReloadAt, act: Action)
    requires StoreInv(s.store) && ThreadReload(Reload(rc, at), worker, s.store)
    requires at.RInode? || at.RBegin? || at.RCommit?
    ensures ReloadMove(Reload(rc, at), worker, s.store, DecideReload(s, rc, at, act))
  {
  }

  /** Steps of a reload before the SELECT and after the commit or the abort. */
  lemma MoveAroundBuilding(s: State, worker: nat, rc: ReloadCaller, at: ReloadAt, act: Action)
    requires StoreInv(s.store) && ThreadReload(Reload(rc, at), worker, s.store) && !Selected(at)
    ensures ReloadMove(Reload(rc, at), worker, s.store, DecideReload(s, rc, at, act))
  {
  }

  lemma MoveReloadImport(s: State, worker: nat, at: ImportAt, act: Action)
    requires StoreInv(s.store) && ThreadReload(Import(at), worker, s.store)
    ensures ReloadMove(Import(at), worker, s.store, DecideImport(s, at, act))
  {
  }

  lemma MoveReload(s: State, worker: nat, pc: Pc, act: Action)
    requires StoreInv(s.store) && ThreadReload(pc, worker, s.store)
    ensures ReloadMove(pc, worker, s.store, Decide(s, worker, pc, act))
  {
    match pc
    case Import(at) => MoveReloadImport(s, worker, at, act);
    case Reload(rc, at) =>
      if at.RAdd? {
        MoveAdding(s, worker, rc, at, act);
      } else if Selected(at) {
        MoveBuilding(s, worker, rc, at, act);
      } else {
        MoveAroundBuilding(s, worker, rc, at, act);
      }
    case _ =>
  }

  /** What another thread knows of the archive survives a step that does not touch it, or that excludes it. */
  lemma OtherReload(pc: Pc, worker: nat, st: Store, actor: nat, e: Effect)
    requires StoreInv(st) && ThreadReload(pc, worker, st)
    requires TouchesArchive(e) ==> !Holds(pc, ReloadGuard)
    requires e.Publish? ==> PublishedVer(st) <= e.ver
    ensures ThreadReload(pc, worker, StoreAfter(st, actor, e))
  {
  }

  lemma StoreStep(st: Store, worker: nat, pc: Pc, m: Move)
    requires StoreInv(st) && ThreadReload(pc, worker, st) && ReloadMove(pc, worker, st, m)
    ensures StoreInv(StoreAfter(st, worker, m.eff))
  {
  }

  lemma StagingStep(owner: map<Lock, Thread>, st: Store, t: Thread, pc: Pc, m: Move)
    requires StagingInv(owner, st) && ReloadMove(pc, t.worker, st, m) && ThreadReload(pc, t.worker, st)
    requires forall l :: Holds(pc, l) <==> l in owner && owner[l] == t
    requires forall l :: LockMove(pc, owner, m, l)
    ensures StagingInv(OwnerAfter(owner, t, m.eff), StoreAfter(st, t.worker, m.eff))
  {
    assert LockMove(pc, owner, m, WriteLock);
    assert Holds(pc, WriteLock) <==> WriteLock in owner && owner[WriteLock] == t;
  }

  lemma ReloadStep(s: State, t: Thread, act: Action)
    requires LockInv(s.pc, s.owner) && ReloadInv(s.pc, s.owner, s.store) && t in s.pc && !act.Tick?
    ensures var s' := Next(s, t, act); ReloadInv(s'.pc, s'.owner, s'.store)
  {
    var m := Decide(s, t.worker, s.pc[t], act);
    MoveReload(s, t.worker, s.pc[t], act);
    forall l
      ensures LockMove(s.pc[t], s.owner, m, l)
    {
      MoveLocks(s, t.worker, s.pc[t], act, l);
    }
    StoreStep(s.store, t.worker, s.pc[t], m);
    StagingStep(s.owner, s.store, t, s.pc[t], m);
    forall u | u in s.pc && u != t
      ensures ThreadReload(s.pc[u], u.worker, StoreAfter(s.store, t.worker, m.eff))
    {
      if TouchesArchive(m.eff) && Holds(s.pc[u], ReloadGuard) {
        Exclusive(s, t, u, ReloadGuard);
      }
      OtherReload(s.pc[u], u.worker, s.store, t.worker, m.eff);
    }
  }
}
