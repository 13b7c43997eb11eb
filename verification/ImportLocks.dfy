/**
  What every step keeps of the locks, of the schema event and of the import times.
*/
module ImportLocks {
  import opened Options
  import opened ImportProtocol

  // ---------------------------------------------------------------- locks

  /** A lock has an owner exactly while that owner is at a point of the code that holds it. */
  ghost predicate LockInv(pc: map<Thread, Pc>, owner: map<Lock, Thread>) {
    && (forall t, l :: t in pc ==> (Holds(pc[t], l) <==> l in owner && owner[l] == t))
    && (forall l :: l in owner ==> owner[l] in pc)
  }

  /** A move changes what is held by exactly the lock its effect takes or drops. */
  ghost predicate LockMove(pc: Pc, owner: map<Lock, Thread>, m: Move, l: Lock) {
    && (Holds(m.pc, l) <==> Takes(m.eff) == Some(l) || (Holds(pc, l) && Drops(m.eff) != Some(l)))
    && (Takes(m.eff) == Some(l) ==> l !in owner)
    && (Drops(m.eff) == Some(l) ==> Holds(pc, l))
  }

  lemma MoveLocksImport(s: State, at: ImportAt, act: Action, l: Lock)
    ensures LockMove(Import(at), s.owner, DecideImport(s, at, act), l)
  {
  }

  lemma MoveLocksReload(s: State, rc: ReloadCaller, at: ReloadAt, act: Action, l: Lock)
    ensures LockMove(Reload(rc, at), s.owner, DecideReload(s, rc, at, act), l)
  {
  }

  lemma MoveLocksSchema(s: State, sc: SchemaCaller, at: SchemaAt, act: Action, l: Lock)
    ensures LockMove(Schema(sc, at), s.owner, DecideSchema(s, sc, at, act), l)
  {
  }

  /** Control flow and lock operations agree at every program point. */
  lemma MoveLocks(s: State, worker: nat, pc: Pc, act: Action, l: Lock)
    ensures LockMove(pc, s.owner, Decide(s, worker, pc, act), l)
  {
    match pc
    case Import(at) => MoveLocksImport(s, at, act, l);
    case Reload(rc, at) => MoveLocksReload(s, rc, at, act, l);
    case Schema(sc, at) => MoveLocksSchema(s, sc, at, act, l);
    case _ =>
  }

  lemma ApplyLocks(pc: map<Thread, Pc>, owner: map<Lock, Thread>, t: Thread, m: Move)
    requires LockInv(pc, owner) && t in pc
    requires forall l :: LockMove(pc[t], owner, m, l)
    ensures LockInv(pc[t := m.pc], OwnerAfter(owner, t, m.eff))
  {
    var pc', owner' := pc[t := m.pc], OwnerAfter(owner, t, m.eff);
    forall u, l | u in pc'
      ensures Holds(pc'[u], l) <==> l in owner' && owner'[l] == u
    {
      assert LockMove(pc[t], owner, m, l);
      assert Holds(pc[u], l) <==> l in owner && owner[l] == u;
    }
  }

  lemma LockStep(s: State, t: Thread, act: Action)
    requires LockInv(s.pc, s.owner) && t in s.pc && !act.Tick?
    ensures var s' := Next(s, t, act); LockInv(s'.pc, s'.owner)
  {
    var m := Decide(s, t.worker, s.pc[t], act);
    forall l
      ensures LockMove(s.pc[t], s.owner, m, l)
    {
      MoveLocks(s, t.worker, s.pc[t], act, l);
    }
    ApplyLocks(s.pc, s.owner, t, m);
  }

  /** Mutual exclusion: two threads holding the same lock are one thread. */
  lemma Exclusive(s: State, t: Thread, u: Thread, l: Lock)
    requires LockInv(s.pc, s.owner) && t in s.pc && u in s.pc
    requires Holds(s.pc[t], l) && Holds(s.pc[u], l)
    ensures t == u
  {
    assert s.owner[l] == t;
  }

  // ---------------------------------------------------------------- schema

  ghost predicate SchemaInv(pc: map<Thread, Pc>, owner: map<Lock, Thread>, sch: SchemaState) {
    && sch.runs <= 1
    && (sch.eventSet ==> sch.runs == 1)
    && (sch.runs == 1 && !sch.eventSet ==>
          ImportGuard in owner && owner[ImportGuard] in pc && AtSet(pc[owner[ImportGuard]]))
    && (forall t :: t in pc && AtBody(pc[t]) ==> !sch.eventSet && sch.runs == 0)
    && (forall t :: t in pc && AtSet(pc[t]) ==> !sch.eventSet && sch.runs == 1)
    && (forall t :: t in pc && PastSchema(pc[t]) ==> sch.eventSet)
  }

  predicate AtBody(pc: Pc) {
    pc.Schema? && pc.sat.SBody?
  }

  predicate AtSet(pc: Pc) {
    pc.Schema? && pc.sat.SSet?
  }

  /** How a move bears on the migrations, the event and what lies past `setup_schema`. */
  ghost predicate SchemaMove(eventSet: bool, pc: Pc, m: Move) {
    && (m.eff == Migrate <==> AtBody(pc) && AtSet(m.pc))
    && (m.eff == SetEvent <==> AtSet(pc) && !AtSet(m.pc))
    && (AtSet(m.pc) ==> AtSet(pc) || AtBody(pc))
    && (AtBody(m.pc) ==> AtBody(pc) || (!eventSet && Holds(pc, ImportGuard) && !AtSet(pc)))
    && (PastSchema(m.pc) ==> PastSchema(pc) || eventSet || m.eff == SetEvent)
    && (AtSet(pc) ==> Drops(m.eff) != Some(ImportGuard))
  }

  lemma MoveSchemaImport(s: State, at: ImportAt, act: Action)
    ensures SchemaMove(s.schema.eventSet, Import(at), DecideImport(s, at, act))
  {
  }

  lemma MoveSchemaReload(s: State, rc: ReloadCaller, at: ReloadAt, act: Action)
    ensures SchemaMove(s.schema.eventSet, Reload(rc, at), DecideReload(s, rc, at, act))
  {
  }

  lemma MoveSchemaItself(s: State, sc: SchemaCaller, at: SchemaAt, act: Action)
    ensures SchemaMove(s.schema.eventSet, Schema(sc, at), DecideSchema(s, sc, at, act))
  {
  }

  lemma MoveSchema(s: State, worker: nat, pc: Pc, act: Action)
    ensures SchemaMove(s.schema.eventSet, pc, Decide(s, worker, pc, act))
  {
    match pc
    case Import(at) => MoveSchemaImport(s, at, act);
    case Reload(rc, at) => MoveSchemaReload(s, rc, at, act);
    case Schema(sc, at) => MoveSchemaItself(s, sc, at, act);
    case _ =>
  }

  lemma SchemaStep(s: State, t: Thread, act: Action)
    requires LockInv(s.pc, s.owner) && SchemaInv(s.pc, s.owner, s.schema) && t in s.pc && !act.Tick?
    ensures var s' := Next(s, t, act); SchemaInv(s'.pc, s'.owner, s'.schema)
  {
    var m := Decide(s, t.worker, s.pc[t], act);
    MoveSchema(s, t.worker, s.pc[t], act);
    MoveLocks(s, t.worker, s.pc[t], act, ImportGuard);
    forall u | u in s.pc && (AtBody(s.pc[u]) || AtSet(s.pc[u])) && Holds(s.pc[t], ImportGuard)
      ensures u == t
    {
      Exclusive(s, t, u, ImportGuard);
    }
  }

  // ---------------------------------------------------------------- import interval

  /** No body starts within five minutes of a success recorded before it. */
  ghost predicate Spaced(timeline: seq<Mark>) {
    forall i, j :: 0 <= i < j < |timeline| && timeline[i].Succeeded? && timeline[j].Started? ==>
                     timeline[i].time + 300 <= timeline[j].time
  }

  /** No success is recorded, or the last one is five minutes old. */
  predicate Due(c: Clock) {
    c.lastImport == 0 || c.lastImport + 300 <= c.now
  }

  ghost predicate ClockInv(c: Clock) {
    && 0 < c.now
    && c.lastImport <= c.now
    && Spaced(c.timeline)
    && (forall i :: 0 <= i < |c.timeline| && c.timeline[i].Succeeded? ==> 0 < c.timeline[i].time <= c.lastImport)
  }

  ghost predicate ThreadTime(pc: Pc, c: Clock) {
    && (pc.Import? && pc.iat.ICompare? ==> pc.iat.t == c.lastImport)
    && (pc.Import? && pc.iat.IStart? ==> Due(c))
  }

  ghost predicate TimeInv(pc: map<Thread, Pc>, c: Clock) {
    ClockInv(c) && forall t :: t in pc ==> ThreadTime(pc[t], c)
  }

  lemma MoveTime(s: State, worker: nat, pc: Pc, act: Action)
    requires ThreadTime(pc, s.clock)
    ensures var m := Decide(s, worker, pc, act);
            && (m.eff == MarkStart ==> pc == Import(IStart))
            && (m.eff == MarkSuccess ==> Holds(pc, ImportLock))
            && ThreadTime(m.pc, ClockAfter(s.clock, m.eff))
  {
  }

  lemma ClockStep(c: Clock, e: Effect)
    requires ClockInv(c)
    requires e == MarkStart ==> ThreadTime(Import(IStart), c)
    ensures ClockInv(ClockAfter(c, e))
  {
  }

  lemma TimeStep(s: State, t: Thread, act: Action)
    requires LockInv(s.pc, s.owner) && TimeInv(s.pc, s.clock) && t in s.pc && !act.Tick?
    ensures var s' := Next(s, t, act); TimeInv(s'.pc, s'.clock)
  {
    var m := Decide(s, t.worker, s.pc[t], act);
    var c' := ClockAfter(s.clock, m.eff);
    MoveTime(s, t.worker, s.pc[t], act);
    ClockStep(s.clock, m.eff);
    forall u | u in s.pc && u != t
      ensures ThreadTime(s.pc[u], c')
    {
      if m.eff == MarkSuccess && Holds(s.pc[u], ImportLock) {
        Exclusive(s, t, u, ImportLock);
      }
    }
  }
}
