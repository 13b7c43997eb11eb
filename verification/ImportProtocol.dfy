/**
  The protocol by which the worker processes set up the schema, import data, rebuild the engine
  archive and serve cached searches.  Every thread of every worker is a program counter over shared
  state.  `Decide` is the control flow: where a thread goes next and what it does to the shared state;
  `Apply` carries that effect out.  A step that is not enabled leaves the state as it is, so a run is
  any sequence of (thread, action) pairs.
*/
module ImportProtocol {
  import opened Options

  const MIN_IMPORT_INTERVAL: nat := 300

  type Row = string
  type Key = string

  // ---------------------------------------------------------------- program points

  /** A thread of a worker process. */
  datatype Thread = Thread(worker: nat, index: nat)

  /** The four locks a thread can block on, in the order in which the code nests them. */
  datatype Lock = ImportLock | ImportGuard | ReloadGuard | WriteLock

  /** Who called `setup_schema`. */
  datatype SchemaCaller = Startup | ImportRun | ImportUpsert | SearchUpsert

  datatype SchemaAt = SCheck | SWait | SRecheck | SBody | SSet | SExit(ok: bool)

  /** `import_data` and `_run_import_under_lock`. */
  datatype ImportAt =
    | ICheck | IFast(t: nat) | ITry | ITimedOut | IWait
    | IRecheck | ICompare(t: nat) | IStart
    | IWrite | IBump | IRecord | IBackfill
    | IFinalBump(seen: Option<nat>) | IFinalRecord
    | IExit

  /** `import_cards_by_search`, once the schema is there. */
  datatype SearchImportAt = CWrite | CBump

  /** The CubeCobra ingest: it writes cards and moves the generation on, and rebuilds nothing. */
  datatype IngestAt = GWrite | GBump

  /** Who called `_reload_engine`; `need` is the table version the import has to see published. */
  datatype ReloadCaller = ForImport(need: nat) | ForSearchImport | ForWarming

  /** The result of one SELECT: the table version it saw and the rows it returned. */
  datatype Snapshot = Snapshot(ver: nat, rows: seq<Row>)

  datatype Outcome = Published | Skipped | Raised

  datatype ReloadAt =
    | REnter | RHeld | RSelect
    | RInode(snap: Snapshot)
    | RBegin(snap: Snapshot, inode: nat)
    | RAdd(snap: Snapshot, fetched: nat)
    | RCommit(snap: Snapshot)
    | RAbort(staged: bool, out: Outcome)
    | RExit(out: Outcome)

  /** A published archive; `no` counts publications and plays the part of the file's inode. */
  datatype Archive = Archive(no: nat, ver: nat, rows: seq<Row>)

  /** The caching part of `_search`. */
  datatype QueryAt = QGen | QLookup(gen: nat) | QEngine(gen: nat) | QStore(gen: nat, res: Archive)

  datatype Pc =
    | Idle
    | Schema(sc: SchemaCaller, sat: SchemaAt)
    | Import(iat: ImportAt)
    | SearchImport(cat: SearchImportAt)
    | Ingest(gat: IngestAt)
    | Reload(rc: ReloadCaller, rat: ReloadAt)
    | Query(key: Key, qat: QueryAt)

  // ---------------------------------------------------------------- shared state

  /** The schema event, and how often the migrations ran to their end. */
  datatype SchemaState = SchemaState(eventSet: bool, runs: nat)

  /** What the clock said when an import body started, or when a success was recorded. */
  datatype Mark = Started(time: nat) | Succeeded(time: nat)

  datatype Clock = Clock(now: nat, lastImport: nat, timeline: seq<Mark>)

  /** Every version the card table went through, the published archive and the staged builds by worker. */
  datatype Store = Store(tables: seq<seq<Row>>, published: Option<Archive>, pubs: nat, staging: map<nat, seq<Row>>)

  /**
    How a generation became current: the archive published at that moment, and, for the bump that ends
    an import whose own rebuild was published, the table version that import had written.
  */
  datatype Bump = Bump(no: nat, ver: nat, need: Option<nat>)

  datatype GenCache = GenCache(gen: nat, entries: map<Key, Archive>)

  datatype Response = Response(gen: nat, key: Key, res: Archive)

  /** Generation counter (the last index of `bumps`), each worker's search cache, all answers given. */
  datatype Serving = Serving(bumps: seq<Bump>, caches: map<nat, GenCache>, served: seq<Response>)

  datatype State = State(
    pc: map<Thread, Pc>,
    owner: map<Lock, Thread>,
    schema: SchemaState,
    clock: Clock,
    store: Store,
    serving: Serving)

  /**
    The workers have just started.  The card table may have a history, and an archive of one of its versions may
    lie there from earlier processes.
  */
  ghost predicate Init(s: State) {
    && (forall t :: t in s.pc ==> s.pc[t] == Idle)
    && s.owner == map[]
    && s.schema == SchemaState(false, 0)
    && s.clock.now > 0 && s.clock.lastImport == 0 && s.clock.timeline == []
    && |s.store.tables| > 0 && s.store.staging == map[]
    && (s.store.published.None? ==> s.store.pubs == 0)
    && (s.store.published.Some? ==> LeftOver(s.store, s.store.published.value))
    && s.serving == Serving([Bump(s.store.pubs, PublishedVer(s.store), None)], map[], [])
  }

  ghost predicate LeftOver(st: Store, archive: Archive) {
    archive.no == st.pubs && archive.ver < |st.tables| && archive.rows == st.tables[archive.ver]
  }

  function PublishedVer(st: Store): nat {
    if st.published.Some? then st.published.value.ver else 0
  }

  /** `_engine.size() == 0`: nothing is published, or an archive without cards is. */
  predicate EngineEmpty(st: Store) {
    st.published.None? || st.published.value.rows == []
  }

  /** `_import_recent` on a timestamp already read. */
  predicate Recent(c: Clock, t: nat) {
    t != 0 && c.now - t < MIN_IMPORT_INTERVAL
  }

  // ---------------------------------------------------------------- control flow

  datatype Op = SetupSchema | ImportData | ImportBySearch | IngestCubes | Warm | Search(key: Key)

  /** The choices a step leaves open: what arrives, what fails, what the database answers. */
  datatype Action =
    | Begin(op: Op)
    | Proceed
    | Fail
    | TimeOut
    | PoolClosed
    | Answer(complete: bool)
    | Write(rows: seq<Row>)
    | Batch(count: nat)
    | Expire(stale: Key)
    | Tick(seconds: nat)

  datatype Effect =
    | Nothing
    | Take(l: Lock)
    | Drop(l: Lock)
    | Migrate
    | SetEvent
    | MarkStart
    | MarkSuccess
    | WriteTable(rows: seq<Row>)
    | BumpGen(need: Option<nat>)
    | Discard
    | Stage
    | Append(rows: seq<Row>)
    | Publish(ver: nat)
    | Unstage
    | OpenCache(gen: nat)
    | Forget(key: Key)
    | Serve(answer: Response)
    | StoreAndServe(answer: Response)

  /** Where the thread goes and what it does on the way. */
  datatype Move = Move(pc: Pc, eff: Effect)

  function AfterSchema(sc: SchemaCaller, ok: bool): Pc {
    match sc
    case Startup => Idle
    case ImportRun => if ok then Schema(ImportUpsert, SCheck) else Import(IExit)
    case ImportUpsert => if ok then Import(IWrite) else Import(IExit)
    case SearchUpsert => if ok then SearchImport(CWrite) else Idle
  }

  function AfterReload(rc: ReloadCaller, out: Outcome): Pc {
    match rc
    case ForImport(need) =>
      if out.Raised? then Import(IExit)
      else Import(IFinalBump(if out.Published? then Some(need) else None))
    case ForSearchImport => Idle
    case ForWarming => Idle
  }

  function DecideIdle(s: State, act: Action): Move {
    match act
    case Begin(SetupSchema) => Move(Schema(Startup, SCheck), Nothing)
    case Begin(ImportData) => Move(Import(ICheck), Nothing)
    case Begin(ImportBySearch) => Move(Schema(SearchUpsert, SCheck), Nothing)
    case Begin(IngestCubes) => Move(Ingest(GWrite), Nothing)
    case Begin(Warm) => Move(if EngineEmpty(s.store) then Reload(ForWarming, REnter) else Idle, Nothing)
    case Begin(Search(key)) => Move(Query(key, QGen), Nothing)
    case Expire(key) => Move(Idle, Forget(key))
    case _ => Move(Idle, Nothing)
  }

  function DecideSchema(s: State, sc: SchemaCaller, at: SchemaAt, act: Action): Move {
    var stay := Move(Schema(sc, at), Nothing);
    match at
    case SCheck =>
      if act != Proceed then stay
      else if s.schema.eventSet then Move(AfterSchema(sc, true), Nothing)
      else Move(Schema(sc, SWait), Nothing)
    case SWait =>
      if act == Proceed && ImportGuard !in s.owner then Move(Schema(sc, SRecheck), Take(ImportGuard)) else stay
    case SRecheck =>
      if act != Proceed then stay
      else Move(Schema(sc, if s.schema.eventSet then SExit(true) else SBody), Nothing)
    case SBody =>
      if act == Proceed then Move(Schema(sc, SSet), Migrate)
      else if act == Fail then Move(Schema(sc, SExit(false)), Nothing)
      else stay
    case SSet => if act == Proceed then Move(Schema(sc, SExit(true)), SetEvent) else stay
    case SExit(ok) => if act == Proceed then Move(AfterSchema(sc, ok), Drop(ImportGuard)) else stay
  }

  function DecideImport(s: State, at: ImportAt, act: Action): Move {
    var stay := Move(Import(at), Nothing);
    match at
    case ICheck => if act == Proceed then Move(Import(IFast(s.clock.lastImport)), Nothing) else stay
    case IFast(t) =>
      if act == Proceed then Move(if Recent(s.clock, t) then Idle else Import(ITry), Nothing) else stay
    case ITry =>
      if act == Proceed && ImportLock !in s.owner then Move(Import(IRecheck), Take(ImportLock))
      else if act == TimeOut then Move(Import(ITimedOut), Nothing)
      else stay
    case ITimedOut =>
      if act.Answer? then Move(if act.complete then Idle else Import(IWait), Nothing) else stay
    case IWait =>
      if act == Proceed && ImportLock !in s.owner then Move(Import(IRecheck), Take(ImportLock)) else stay
    case IRecheck => if act == Proceed then Move(Import(ICompare(s.clock.lastImport)), Nothing) else stay
    case ICompare(t) =>
      if act == Proceed then Move(Import(if Recent(s.clock, t) then IExit else IStart), Nothing) else stay
    case IStart => if act == Proceed then Move(Schema(ImportRun, SCheck), MarkStart) else stay
    case IWrite =>
      if act.Write? then Move(Import(at), WriteTable(act.rows))
      else if act == Proceed then Move(Import(IBump), Nothing)
      else if act == Fail then Move(Import(IExit), Nothing)
      else stay
    case IBump => if act == Proceed then Move(Import(IRecord), BumpGen(None)) else stay
    case IRecord => if act == Proceed then Move(Import(IBackfill), MarkSuccess) else stay
    case IBackfill =>
      if act.Write? then Move(Import(at), WriteTable(act.rows))
      else if act == Proceed && |s.store.tables| > 0
      then Move(Reload(ForImport(|s.store.tables| - 1), REnter), Nothing)
      else if act == Fail then Move(Import(IExit), Nothing)
      else stay
    case IFinalBump(seen) => if act == Proceed then Move(Import(IFinalRecord), BumpGen(seen)) else stay
    case IFinalRecord => if act == Proceed then Move(Import(IExit), MarkSuccess) else stay
    case IExit => if act == Proceed then Move(Idle, Drop(ImportLock)) else stay
  }

  function DecideSearchImport(at: SearchImportAt, act: Action): Move {
    match at
    case CWrite =>
      if act.Write? then Move(SearchImport(at), WriteTable(act.rows))
      else if act == Proceed then Move(SearchImport(CBump), Nothing)
      else if act == Fail then Move(Idle, Nothing)
      else Move(SearchImport(at), Nothing)
    case CBump =>
      if act == Proceed then Move(Reload(ForSearchImport, REnter), BumpGen(None))
      else Move(SearchImport(at), Nothing)
  }

  function DecideIngest(at: IngestAt, act: Action): Move {
    match at
    case GWrite =>
      if act.Write? then Move(Ingest(at), WriteTable(act.rows))
      else if act == Proceed then Move(Ingest(GBump), Nothing)
      else if act == Fail then Move(Idle, Nothing)
      else Move(Ingest(at), Nothing)
    case GBump => if act == Proceed then Move(Idle, BumpGen(None)) else Move(Ingest(at), Nothing)
  }

  function DecideReload(s: State, rc: ReloadCaller, at: ReloadAt, act: Action): Move {
    var stay := Move(Reload(rc, at), Nothing);
    match at
    case REnter =>
      if act != Proceed then stay
      else if ReloadGuard !in s.owner then Move(Reload(rc, RHeld), Take(ReloadGuard))
      else if rc.ForWarming? then Move(AfterReload(rc, Skipped), Nothing)
      else stay
    case RHeld =>
      if act != Proceed then stay
      else Move(Reload(rc, if rc.ForWarming? && !EngineEmpty(s.store) then RExit(Skipped) else RSelect), Nothing)
    case RSelect =>
      if act == Proceed && |s.store.tables| > 0 then
        var ver := |s.store.tables| - 1;
        Move(Reload(rc, RInode(Snapshot(ver, s.store.tables[ver]))), Nothing)
      else if act == PoolClosed then Move(Reload(rc, RExit(Skipped)), Nothing)
      else if act == Fail then Move(Reload(rc, RExit(Raised)), Nothing)
      else stay
    case RInode(snap) =>
      if act == Proceed then Move(Reload(rc, RBegin(snap, s.store.pubs)), Discard)
      else if act == Fail then Move(Reload(rc, RExit(Raised)), Nothing)
      else stay
    case RBegin(snap, inode) =>
      if act == Fail then Move(Reload(rc, RExit(Raised)), Nothing)
      else if act != Proceed || WriteLock in s.owner then stay
      else if s.store.published.Some? && s.store.pubs != inode then Move(Reload(rc, RExit(Skipped)), Nothing)
      else Move(Reload(rc, RAdd(snap, 0)), Stage)
    case RAdd(snap, fetched) =>
      if act == Fail then Move(Reload(rc, RAbort(true, Raised)), Nothing)
      else if act == PoolClosed then Move(Reload(rc, RAbort(true, Skipped)), Nothing)
      else if act.Batch? && 0 < act.count && fetched + act.count <= |snap.rows| then
        Move(Reload(rc, RAdd(snap, fetched + act.count)), Append(snap.rows[fetched..fetched + act.count]))
      else if act == Proceed && fetched == |snap.rows| then Move(Reload(rc, RCommit(snap)), Nothing)
      else stay
    case RCommit(snap) =>
      if act == Fail then Move(Reload(rc, RAbort(false, Raised)), Unstage)
      else if act == Proceed then Move(Reload(rc, RExit(Published)), Publish(snap.ver))
      else stay
    case RAbort(staged, out) =>
      if act == Proceed then Move(Reload(rc, RExit(out)), if staged then Unstage else Nothing) else stay
    case RExit(out) =>
      if act == Proceed then Move(AfterReload(rc, out), Drop(ReloadGuard)) else stay
  }

  function DecideQuery(s: State, worker: nat, key: Key, at: QueryAt, act: Action): Move {
    var stay := Move(Query(key, at), Nothing);
    if act != Proceed then stay else
    match at
    case QGen =>
      if |s.serving.bumps| > 0 then Move(Query(key, QLookup(|s.serving.bumps| - 1)), Nothing) else stay
    case QLookup(gen) =>
      if worker in s.serving.caches && s.serving.caches[worker].gen == gen then
        var entries := s.serving.caches[worker].entries;
        if key in entries then Move(Idle, Serve(Response(gen, key, entries[key])))
        else Move(Query(key, QEngine(gen)), Nothing)
      else Move(Query(key, QEngine(gen)), OpenCache(gen))
    case QEngine(gen) =>
      if EngineEmpty(s.store) then Move(Idle, Nothing)
      else Move(Query(key, QStore(gen, s.store.published.value)), Nothing)
    case QStore(gen, res) => Move(Idle, StoreAndServe(Response(gen, key, res)))
  }

  function Decide(s: State, worker: nat, pc: Pc, act: Action): Move {
    match pc
    case Idle => DecideIdle(s, act)
    case Schema(sc, at) => DecideSchema(s, sc, at, act)
    case Import(at) => DecideImport(s, at, act)
    case SearchImport(at) => DecideSearchImport(at, act)
    case Ingest(at) => DecideIngest(at, act)
    case Reload(rc, at) => DecideReload(s, rc, at, act)
    case Query(key, at) => DecideQuery(s, worker, key, at, act)
  }

  // ---------------------------------------------------------------- effects

  function Takes(e: Effect): Option<Lock> {
    match e case Take(l) => Some(l) case Stage => Some(WriteLock) case _ => None
  }

  function Drops(e: Effect): Option<Lock> {
    match e
    case Drop(l) => Some(l)
    case Publish(_) => Some(WriteLock)
    case Unstage => Some(WriteLock)
    case _ => None
  }

  function OwnerAfter(owner: map<Lock, Thread>, t: Thread, e: Effect): map<Lock, Thread> {
    match (Takes(e), Drops(e))
    case (Some(l), _) => owner[l := t]
    case (None, Some(l)) => owner - {l}
    case (None, None) => owner
  }

  function SchemaAfter(sch: SchemaState, e: Effect): SchemaState {
    match e
    case Migrate => sch.(runs := sch.runs + 1)
    case SetEvent => sch.(eventSet := true)
    case _ => sch
  }

  function ClockAfter(c: Clock, e: Effect): Clock {
    match e
    case MarkStart => c.(timeline := c.timeline + [Started(c.now)])
    case MarkSuccess => c.(lastImport := c.now, timeline := c.timeline + [Succeeded(c.now)])
    case _ => c
  }

  /** The engine's staged store: `reload_begin`, `add_batch`, `reload_commit`, `reload_abort`. */
  function StoreAfter(st: Store, worker: nat, e: Effect): Store {
    match e
    case WriteTable(rows) => st.(tables := st.tables + [rows])
    case Discard => st.(staging := st.staging - {worker})
    case Stage => st.(staging := st.staging[worker := []])
    case Append(rows) =>
      if worker in st.staging then st.(staging := st.staging[worker := st.staging[worker] + rows]) else st
    case Publish(ver) =>
      if worker in st.staging then
        st.(pubs := st.pubs + 1, published := Some(Archive(st.pubs + 1, ver, st.staging[worker])),
            staging := st.staging - {worker})
      else st
    case Unstage => st.(staging := st.staging - {worker})
    case _ => st
  }

  /** `_clear_caches` and the per-worker cache of the newest generation that worker has looked at. */
  function ServingAfter(v: Serving, st: Store, worker: nat, e: Effect): Serving {
    match e
    case BumpGen(need) => v.(bumps := v.bumps + [Bump(st.pubs, PublishedVer(st), need)])
    case OpenCache(gen) => v.(caches := v.caches[worker := GenCache(gen, map[])])
    case Forget(key) =>
      if worker in v.caches then
        v.(caches := v.caches[worker := v.caches[worker].(entries := v.caches[worker].entries - {key})])
      else v
    case Serve(a) => v.(served := v.served + [a])
    case StoreAndServe(a) =>
      if worker in v.caches && v.caches[worker].gen == a.gen then
        var c := v.caches[worker];
        Serving(v.bumps, v.caches[worker := c.(entries := c.entries[a.key := a.res])], v.served + [a])
      else v.(served := v.served + [a])
    case _ => v
  }

  function Apply(s: State, t: Thread, m: Move): State {
    State(
      s.pc[t := m.pc],
      OwnerAfter(s.owner, t, m.eff),
      SchemaAfter(s.schema, m.eff),
      ClockAfter(s.clock, m.eff),
      StoreAfter(s.store, t.worker, m.eff),
      ServingAfter(s.serving, s.store, t.worker, m.eff))
  }

  /** One atomic step of thread `t`; the clock is free to advance at any step. */
  function Next(s: State, t: Thread, act: Action): State {
    if act.Tick? then s.(clock := s.clock.(now := s.clock.now + act.seconds))
    else if t !in s.pc then s
    else Apply(s, t, Decide(s, t.worker, s.pc[t], act))
  }

  /** The state after a whole schedule. */
  function Run(s: State, schedule: seq<(Thread, Action)>): State
    decreases |schedule|
  {
    if schedule == [] then s
    else Next(Run(s, schedule[..|schedule| - 1]), schedule[|schedule| - 1].0, schedule[|schedule| - 1].1)
  }

  // ---------------------------------------------------------------- regions of the program

  /** The import body: everything after `_import_recent` was found false under the lock. */
  predicate InImportBody(pc: Pc) {
    match pc
    case Import(at) =>
      at.IStart? || at.IWrite? || at.IBump? || at.IRecord? || at.IBackfill? || at.IFinalBump? || at.IFinalRecord?
    case Schema(sc, _) => sc.ImportRun? || sc.ImportUpsert?
    case Reload(rc, _) => rc.ForImport?
    case _ => false
  }

  /** Which locks the code holds at a program point. */
  predicate Holds(pc: Pc, l: Lock) {
    match l
    case ImportLock => InImportBody(pc) || (pc.Import? && (pc.iat.IRecheck? || pc.iat.ICompare? || pc.iat.IExit?))
    case ImportGuard => pc.Schema? && !pc.sat.SCheck? && !pc.sat.SWait?
    case ReloadGuard => pc.Reload? && !pc.rat.REnter?
    case WriteLock => pc.Reload? && (pc.rat.RAdd? || pc.rat.RCommit? || (pc.rat.RAbort? && pc.rat.staged))
  }

  /** The lock a program point blocks on without a time limit. */
  function WaitsFor(pc: Pc): Option<Lock> {
    match pc
    case Schema(_, SWait) => Some(ImportGuard)
    case Import(IWait) => Some(ImportLock)
    case Reload(rc, REnter) => if rc.ForWarming? then None else Some(ReloadGuard)
    case Reload(_, RBegin(_, _)) => Some(WriteLock)
    case _ => None
  }

  function Rank(l: Lock): nat {
    match l case ImportLock => 0 case ImportGuard => 1 case ReloadGuard => 2 case WriteLock => 3
  }

  /** `setup_schema` has returned normally on the way to this program point, or is about to. */
  predicate PastSchema(pc: Pc) {
    match pc
    case Schema(sc, at) => sc.ImportUpsert? || (at.SExit? && at.ok)
    case Import(at) => InImportBody(pc) && !at.IStart?
    case SearchImport(_) => true
    case Reload(rc, _) => !rc.ForWarming?
    case _ => false
  }
}
