/**
  Stretches of runs in which one thread acts and nothing disturbs it: a rebuild, the start of a worker, the
  first import, a card import up to its rebuild, a search.  Each lemma gives the whole state it leads to.
*/
module ImportSteps {
  import opened Options
  import opened ImportProtocol
  import opened ImportLocks

  ghost predicate Reaches(s0: State, s: State) {
    exists schedule :: Run(s0, schedule) == s
  }

  /** A property of states that every step keeps; reachability from a given state is one. */
  ghost predicate Kept(reached: State -> bool) {
    forall s, t, act {:trigger Stepped(reached, s, t, act)} :: Stepped(reached, s, t, act)
  }

  ghost predicate Stepped(reached: State -> bool, s: State, t: Thread, act: Action) {
    reached(s) ==> reached(Next(s, t, act))
  }

  ghost function ReachedFrom(s0: State): State -> bool {
    s => Reaches(s0, s)
  }

  lemma ReachedKept(s0: State)
    ensures Kept(ReachedFrom(s0)) && ReachedFrom(s0)(s0)
  {
    forall s, t, act
      ensures Stepped(ReachedFrom(s0), s, t, act)
    {
      if Reaches(s0, s) {
        var xs :| Run(s0, xs) == s;
        var ys := xs + [(t, act)];
        assert ys[..|ys| - 1] == xs;
        assert Run(s0, ys) == Next(s, t, act);
      }
    }
    assert Run(s0, []) == s0;
  }

  /** One more step, with the move it makes. */
  lemma Step(reached: State -> bool, s: State, t: Thread, act: Action, m: Move) returns (s': State)
    requires Kept(reached) && reached(s) && t in s.pc && !act.Tick? && m == Decide(s, t.worker, s.pc[t], act)
    ensures reached(s') && s' == Apply(s, t, m)
  {
    assert Stepped(reached, s, t, act);
    s' := Next(s, t, act);
  }

  // An undisturbed rebuild.

  lemma ReloadEnters(reached: State -> bool, s: State, t: Thread, rc: ReloadCaller) returns (s': State)
    requires Kept(reached) && reached(s) && t in s.pc && s.pc[t] == Reload(rc, REnter) && ReloadGuard !in s.owner
    requires rc.ForWarming? ==> EngineEmpty(s.store)
    ensures reached(s') && s' == s.(pc := s.pc[t := Reload(rc, RSelect)], owner := s.owner[ReloadGuard := t])
  {
    s' := Step(reached, s, t, Proceed, Move(Reload(rc, RHeld), Take(ReloadGuard)));
    assert s' == s.(pc := s.pc[t := Reload(rc, RHeld)], owner := s.owner[ReloadGuard := t]);
    s' := Step(reached, s', t, Proceed, Move(Reload(rc, RSelect), Nothing));
  }

  lemma ReloadSelects(reached: State -> bool, s: State, t: Thread, rc: ReloadCaller, snap: Snapshot) returns (s': State)
    requires Kept(reached) && reached(s) && t in s.pc && s.pc[t] == Reload(rc, RSelect)
    requires |s.store.tables| > 0 && snap == Snapshot(|s.store.tables| - 1, s.store.tables[|s.store.tables| - 1])
    ensures reached(s') && s' == s.(pc := s.pc[t := Reload(rc, RInode(snap))])
  {
    s' := Step(reached, s, t, Proceed, Move(Reload(rc, RInode(snap)), Nothing));
  }

  lemma ReloadBegins(reached: State -> bool, s: State, t: Thread, rc: ReloadCaller, snap: Snapshot) returns (s': State)
    requires Kept(reached) && reached(s) && t in s.pc && s.pc[t] == Reload(rc, RInode(snap))
    requires WriteLock !in s.owner && s.store.staging == map[]
    ensures reached(s')
    ensures s' == s.(pc := s.pc[t := Reload(rc, RAdd(snap, 0))], owner := s.owner[WriteLock := t],
                     store := s.store.(staging := map[t.worker := []]))
  {
    s' := Step(reached, s, t, Proceed, Move(Reload(rc, RBegin(snap, s.store.pubs)), Discard));
    assert s' == s.(pc := s.pc[t := Reload(rc, RBegin(snap, s.store.pubs))]);
    s' := Step(reached, s', t, Proceed, Move(Reload(rc, RAdd(snap, 0)), Stage));
  }

  /** All the rows of the snapshot in one batch, or none if it is empty. */
  lemma ReloadAdds(reached: State -> bool, s: State, t: Thread, rc: ReloadCaller, snap: Snapshot) returns (s': State)
    requires Kept(reached) && reached(s) && t in s.pc && s.pc[t] == Reload(rc, RAdd(snap, 0)) &&
             s.store.staging == map[t.worker := []]
    ensures reached(s')
    ensures s' == s.(pc := s.pc[t := Reload(rc, RAdd(snap, |snap.rows|))],
                     store := s.store.(staging := map[t.worker := snap.rows]))
  {
    if snap.rows == [] {
      s' := s;
      assert s.pc[t := s.pc[t]] == s.pc;
    } else {
      assert snap.rows[0..0 + |snap.rows|] == snap.rows;
      s' := Step(reached, s, t, Batch(|snap.rows|), Move(Reload(rc, RAdd(snap, |snap.rows|)), Append(snap.rows)));
      assert [] + snap.rows == snap.rows;
    }
  }

  lemma ReloadCommits(reached: State -> bool, s: State, t: Thread, rc: ReloadCaller, snap: Snapshot, st: Store)
    returns (s': State)
    requires Kept(reached) && reached(s) && t in s.pc && s.pc[t] == Reload(rc, RAdd(snap, |snap.rows|)) &&
             s.store.staging == map[t.worker := snap.rows]
    requires st == s.store.(pubs := s.store.pubs + 1, staging := map[],
                            published := Some(Archive(s.store.pubs + 1, snap.ver, snap.rows)))
    ensures reached(s')
    ensures s' == s.(pc := s.pc[t := Reload(rc, RExit(Published))], owner := s.owner - {WriteLock}, store := st)
  {
    s' := Step(reached, s, t, Proceed, Move(Reload(rc, RCommit(snap)), Nothing));
    assert s' == s.(pc := s.pc[t := Reload(rc, RCommit(snap))]);
    s' := Step(reached, s', t, Proceed, Move(Reload(rc, RExit(Published)), Publish(snap.ver)));
    assert s'.store.staging == map[];
  }

  lemma ReloadExits(reached: State -> bool, s: State, t: Thread, rc: ReloadCaller) returns (s': State)
    requires Kept(reached) && reached(s) && t in s.pc && s.pc[t] == Reload(rc, RExit(Published))
    ensures reached(s') && s' == s.(pc := s.pc[t := AfterReload(rc, Published)], owner := s.owner - {ReloadGuard})
  {
    s' := Step(reached, s, t, Proceed, Move(AfterReload(rc, Published), Drop(ReloadGuard)));
  }

  /** From the request to a complete staged build. */
  lemma ReloadBuilds(reached: State -> bool, s: State, t: Thread, rc: ReloadCaller, snap: Snapshot) returns (s': State)
    requires Kept(reached) && reached(s) && t in s.pc && s.pc[t] == Reload(rc, REnter)
    requires ReloadGuard !in s.owner && WriteLock !in s.owner && s.store.staging == map[] &&
             (rc.ForWarming? ==> EngineEmpty(s.store))
    requires |s.store.tables| > 0 && snap == Snapshot(|s.store.tables| - 1, s.store.tables[|s.store.tables| - 1])
    ensures reached(s')
    ensures s' == s.(pc := s.pc[t := Reload(rc, RAdd(snap, |snap.rows|))],
                     owner := s.owner[ReloadGuard := t][WriteLock := t],
                     store := s.store.(staging := map[t.worker := snap.rows]))
  {
    s' := ReloadEnters(reached, s, t, rc);
    s' := ReloadSelects(reached, s', t, rc, snap);
    s' := ReloadBegins(reached, s', t, rc, snap);
    s' := ReloadAdds(reached, s', t, rc, snap);
    assert s'.pc == s.pc[t := Reload(rc, RAdd(snap, |snap.rows|))];
  }

  /** A rebuild that nothing disturbs publishes the table as it stands, empty or not, and changes nothing else. */
  lemma ReloadAlone(reached: State -> bool, s: State, t: Thread, rc: ReloadCaller, st: Store) returns (s': State)
    requires Kept(reached) && reached(s) && t in s.pc && s.pc[t] == Reload(rc, REnter)
    requires ReloadGuard !in s.owner && WriteLock !in s.owner && s.store.staging == map[] && |s.store.tables| > 0
    requires rc.ForWarming? ==> EngineEmpty(s.store)
    requires var n, no := |s.store.tables| - 1, s.store.pubs + 1;
             st == s.store.(pubs := no, published := Some(Archive(no, n, s.store.tables[n])))
    ensures reached(s') && s' == s.(pc := s.pc[t := AfterReload(rc, Published)], store := st)
  {
    var n := |s.store.tables| - 1;
    var snap := Snapshot(n, s.store.tables[n]);
    s' := ReloadBuilds(reached, s, t, rc, snap);
    s' := ReloadCommits(reached, s', t, rc, snap, st);
    s' := ReloadExits(reached, s', t, rc);
    assert s'.pc == s.pc[t := AfterReload(rc, Published)];
    assert s'.owner == s.owner;
  }

  // A worker starts: `setup_schema`, then `import_data`.

  lemma SetupEnters(reached: State -> bool, s: State, t: Thread) returns (s': State)
    requires Kept(reached) && reached(s) && t in s.pc && s.pc[t] == Idle && ImportGuard !in s.owner &&
             !s.schema.eventSet
    ensures reached(s') && s' == s.(pc := s.pc[t := Schema(Startup, SRecheck)], owner := s.owner[ImportGuard := t])
  {
    s' := Step(reached, s, t, Begin(SetupSchema), Move(Schema(Startup, SCheck), Nothing));
    assert s' == s.(pc := s.pc[t := Schema(Startup, SCheck)]);
    s' := Step(reached, s', t, Proceed, Move(Schema(Startup, SWait), Nothing));
    assert s' == s.(pc := s.pc[t := Schema(Startup, SWait)]);
    s' := Step(reached, s', t, Proceed, Move(Schema(Startup, SRecheck), Take(ImportGuard)));
  }

  lemma SetupMigrates(reached: State -> bool, s: State, t: Thread) returns (s': State)
    requires Kept(reached) && reached(s) && t in s.pc && s.pc[t] == Schema(Startup, SRecheck) &&
             s.schema == SchemaState(false, 0)
    ensures reached(s') && s' == s.(pc := s.pc[t := Schema(Startup, SSet)], schema := SchemaState(false, 1))
  {
    s' := Step(reached, s, t, Proceed, Move(Schema(Startup, SBody), Nothing));
    assert s' == s.(pc := s.pc[t := Schema(Startup, SBody)]);
    s' := Step(reached, s', t, Proceed, Move(Schema(Startup, SSet), Migrate));
  }

  lemma SetupLeaves(reached: State -> bool, s: State, t: Thread) returns (s': State)
    requires Kept(reached) && reached(s) && t in s.pc && s.pc[t] == Schema(Startup, SSet)
    ensures reached(s') &&
            s' == s.(pc := s.pc[t := Idle], owner := s.owner - {ImportGuard}, schema := s.schema.(eventSet := true))
  {
    s' := Step(reached, s, t, Proceed, Move(Schema(Startup, SExit(true)), SetEvent));
    assert s' == s.(pc := s.pc[t := Schema(Startup, SExit(true))], schema := s.schema.(eventSet := true));
    s' := Step(reached, s', t, Proceed, Move(Idle, Drop(ImportGuard)));
  }

  /** The first worker to set up runs the migrations. */
  lemma SetupFirst(reached: State -> bool, s: State, t: Thread) returns (s': State)
    requires Kept(reached) && reached(s) && t in s.pc && s.pc[t] == Idle && ImportGuard !in s.owner &&
             s.schema == SchemaState(false, 0)
    ensures reached(s') && s' == s.(schema := SchemaState(true, 1))
  {
    s' := SetupEnters(reached, s, t);
    s' := SetupMigrates(reached, s', t);
    s' := SetupLeaves(reached, s', t);
    assert s'.pc == s.pc && s'.owner == s.owner;
  }

  /** A later one finds the event set. */
  lemma SetupLater(reached: State -> bool, s: State, t: Thread) returns (s': State)
    requires Kept(reached) && reached(s) && t in s.pc && s.pc[t] == Idle && s.schema.eventSet
    ensures reached(s') && s' == s
  {
    s' := Step(reached, s, t, Begin(SetupSchema), Move(Schema(Startup, SCheck), Nothing));
    assert s' == s.(pc := s.pc[t := Schema(Startup, SCheck)]);
    s' := Step(reached, s', t, Proceed, Move(Idle, Nothing));
    assert s'.pc == s.pc;
  }

  /** An import that is due goes for the lock. */
  lemma ImportTries(reached: State -> bool, s: State, t: Thread) returns (s': State)
    requires Kept(reached) && reached(s) && t in s.pc && s.pc[t] == Idle && Due(s.clock)
    ensures reached(s') && s' == s.(pc := s.pc[t := Import(ITry)])
  {
    var last := s.clock.lastImport;
    s' := Step(reached, s, t, Begin(ImportData), Move(Import(ICheck), Nothing));
    assert s' == s.(pc := s.pc[t := Import(ICheck)]);
    s' := Step(reached, s', t, Proceed, Move(Import(IFast(last)), Nothing));
    assert s' == s.(pc := s.pc[t := Import(IFast(last))]);
    s' := Step(reached, s', t, Proceed, Move(Import(ITry), Nothing));
  }

  /** Under the lock, at once or after a wait, the time is looked at again. */
  lemma ImportEnters(reached: State -> bool, s: State, t: Thread) returns (s': State)
    requires Kept(reached) && reached(s) && t in s.pc && s.pc[t] in {Import(ITry), Import(IWait)} &&
             ImportLock !in s.owner
    ensures reached(s')
    ensures s' == s.(pc := s.pc[t := Import(if Due(s.clock) then IStart else IExit)], owner := s.owner[ImportLock := t])
  {
    var last := s.clock.lastImport;
    s' := Step(reached, s, t, Proceed, Move(Import(IRecheck), Take(ImportLock)));
    assert s' == s.(pc := s.pc[t := Import(IRecheck)], owner := s.owner[ImportLock := t]);
    s' := Step(reached, s', t, Proceed, Move(Import(ICompare(last)), Nothing));
    assert s' == s.(pc := s.pc[t := Import(ICompare(last))], owner := s.owner[ImportLock := t]);
    s' := Step(reached, s', t, Proceed, Move(Import(if Due(s.clock) then IStart else IExit), Nothing));
  }

  lemma ImportStarts(reached: State -> bool, s: State, t: Thread) returns (s': State)
    requires Kept(reached) && reached(s) && t in s.pc && s.pc[t] == Import(IStart) && s.schema.eventSet
    ensures reached(s')
    ensures s' == s.(pc := s.pc[t := Import(IWrite)],
                     clock := s.clock.(timeline := s.clock.timeline + [Started(s.clock.now)]))
  {
    var started := s.clock.(timeline := s.clock.timeline + [Started(s.clock.now)]);
    s' := Step(reached, s, t, Proceed, Move(Schema(ImportRun, SCheck), MarkStart));
    assert s' == s.(pc := s.pc[t := Schema(ImportRun, SCheck)], clock := started);
    s' := Step(reached, s', t, Proceed, Move(Schema(ImportUpsert, SCheck), Nothing));
    assert s' == s.(pc := s.pc[t := Schema(ImportUpsert, SCheck)], clock := started);
    s' := Step(reached, s', t, Proceed, Move(Import(IWrite), Nothing));
  }

  lemma ImportWrites(reached: State -> bool, s: State, t: Thread, rows: seq<Row>) returns (s': State)
    requires Kept(reached) && reached(s) && t in s.pc && s.pc[t] == Import(IWrite)
    ensures reached(s')
    ensures s' == s.(pc := s.pc[t := Import(IBump)], store := s.store.(tables := s.store.tables + [rows]))
  {
    s' := Step(reached, s, t, Write(rows), Move(Import(IWrite), WriteTable(rows)));
    assert s'.pc == s.pc;
    s' := Step(reached, s', t, Proceed, Move(Import(IBump), Nothing));
  }

  /** The cards are there: the generation moves on, and the time of the success is recorded. */
  lemma ImportRecords(reached: State -> bool, s: State, t: Thread, bumped: Serving, recorded: Clock) returns (s': State)
    requires Kept(reached) && reached(s) && t in s.pc && s.pc[t] == Import(IBump) && |s.store.tables| > 0
    requires bumped == s.serving.(bumps := s.serving.bumps + [Bump(s.store.pubs, PublishedVer(s.store), None)])
    requires recorded == s.clock.(lastImport := s.clock.now, timeline := s.clock.timeline + [Succeeded(s.clock.now)])
    ensures reached(s')
    ensures s' == s.(pc := s.pc[t := Reload(ForImport(|s.store.tables| - 1), REnter)],
                     serving := bumped, clock := recorded)
  {
    s' := Step(reached, s, t, Proceed, Move(Import(IRecord), BumpGen(None)));
    assert s' == s.(pc := s.pc[t := Import(IRecord)], serving := bumped);
    s' := Step(reached, s', t, Proceed, Move(Import(IBackfill), MarkSuccess));
    assert s' == s.(pc := s.pc[t := Import(IBackfill)], serving := bumped, clock := recorded);
    s' := Step(reached, s', t, Proceed, Move(Reload(ForImport(|s.store.tables| - 1), REnter), Nothing));
  }

  /** After the rebuild: the generation moves on again, the time is recorded again, and the lock is released. */
  lemma ImportLeaves(reached: State -> bool, s: State, t: Thread, seen: Option<nat>, bumped: Serving, recorded: Clock)
    returns (s': State)
    requires Kept(reached) && reached(s) && t in s.pc && s.pc[t] == Import(IFinalBump(seen))
    requires bumped == s.serving.(bumps := s.serving.bumps + [Bump(s.store.pubs, PublishedVer(s.store), seen)])
    requires recorded == s.clock.(lastImport := s.clock.now, timeline := s.clock.timeline + [Succeeded(s.clock.now)])
    ensures reached(s')
    ensures s' == s.(pc := s.pc[t := Idle], owner := s.owner - {ImportLock}, serving := bumped, clock := recorded)
  {
    s' := Step(reached, s, t, Proceed, Move(Import(IFinalRecord), BumpGen(seen)));
    assert s' == s.(pc := s.pc[t := Import(IFinalRecord)], serving := bumped);
    s' := Step(reached, s', t, Proceed, Move(Import(IExit), MarkSuccess));
    assert s' == s.(pc := s.pc[t := Import(IExit)], serving := bumped, clock := recorded);
    s' := Step(reached, s', t, Proceed, Move(Idle, Drop(ImportLock)));
  }

  /** Within five minutes of a recorded success a call changes nothing. */
  lemma ImportLater(reached: State -> bool, s: State, t: Thread) returns (s': State)
    requires Kept(reached) && reached(s) && t in s.pc && s.pc[t] == Idle && !Due(s.clock)
    ensures reached(s') && s' == s
  {
    s' := Step(reached, s, t, Begin(ImportData), Move(Import(ICheck), Nothing));
    assert s' == s.(pc := s.pc[t := Import(ICheck)]);
    s' := Step(reached, s', t, Proceed, Move(Import(IFast(s.clock.lastImport)), Nothing));
    assert s' == s.(pc := s.pc[t := Import(IFast(s.clock.lastImport))]);
    s' := Step(reached, s', t, Proceed, Move(Idle, Nothing));
    assert s'.pc == s.pc;
  }

  // A card import by search, up to its rebuild, and searches.

  lemma SearchImportWrites(reached: State -> bool, s: State, t: Thread, rows: seq<Row>) returns (s': State)
    requires Kept(reached) && reached(s) && t in s.pc && s.pc[t] == Idle && s.schema.eventSet
    ensures reached(s')
    ensures s' == s.(pc := s.pc[t := SearchImport(CBump)], store := s.store.(tables := s.store.tables + [rows]))
  {
    s' := Step(reached, s, t, Begin(ImportBySearch), Move(Schema(SearchUpsert, SCheck), Nothing));
    assert s' == s.(pc := s.pc[t := Schema(SearchUpsert, SCheck)]);
    s' := Step(reached, s', t, Proceed, Move(SearchImport(CWrite), Nothing));
    assert s' == s.(pc := s.pc[t := SearchImport(CWrite)]);
    s' := Step(reached, s', t, Write(rows), Move(SearchImport(CWrite), WriteTable(rows)));
    assert s' == s.(pc := s.pc[t := SearchImport(CWrite)], store := s.store.(tables := s.store.tables + [rows]));
    s' := Step(reached, s', t, Proceed, Move(SearchImport(CBump), Nothing));
  }

  lemma SearchImportBumps(reached: State -> bool, s: State, t: Thread) returns (s': State)
    requires Kept(reached) && reached(s) && t in s.pc && s.pc[t] == SearchImport(CBump)
    ensures reached(s')
    ensures s' == s.(pc := s.pc[t := Reload(ForSearchImport, REnter)],
                     serving := s.serving.(
                       bumps := s.serving.bumps + [Bump(s.store.pubs, PublishedVer(s.store), None)]))
  {
    s' := Step(reached, s, t, Proceed, Move(Reload(ForSearchImport, REnter), BumpGen(None)));
  }

  lemma SearchReadsGeneration(reached: State -> bool, s: State, t: Thread, key: Key, gen: nat) returns (s': State)
    requires Kept(reached) && reached(s) && t in s.pc && s.pc[t] == Idle && |s.serving.bumps| == gen + 1
    ensures reached(s') && s' == s.(pc := s.pc[t := Query(key, QLookup(gen))])
  {
    s' := Step(reached, s, t, Begin(Search(key)), Move(Query(key, QGen), Nothing));
    assert s' == s.(pc := s.pc[t := Query(key, QGen)]);
    s' := Step(reached, s', t, Proceed, Move(Query(key, QLookup(gen)), Nothing));
  }

  lemma SearchOpensCache(reached: State -> bool, s: State, t: Thread, key: Key, gen: nat) returns (s': State)
    requires Kept(reached) && reached(s) && t in s.pc && s.pc[t] == Query(key, QLookup(gen)) &&
             t.worker !in s.serving.caches
    ensures reached(s')
    ensures s' == s.(pc := s.pc[t := Query(key, QEngine(gen))],
                     serving := s.serving.(caches := s.serving.caches[t.worker := GenCache(gen, map[])]))
  {
    s' := Step(reached, s, t, Proceed, Move(Query(key, QEngine(gen)), OpenCache(gen)));
  }

  /** The answer of the engine is cached under the generation read at the start, and given. */
  lemma SearchStores(reached: State -> bool, s: State, t: Thread, key: Key, gen: nat, res: Archive) returns (s': State)
    requires Kept(reached) && reached(s) && t in s.pc && s.pc[t] == Query(key, QEngine(gen)) && !EngineEmpty(s.store) &&
             res == s.store.published.value
    requires t.worker in s.serving.caches && s.serving.caches[t.worker] == GenCache(gen, map[])
    ensures reached(s')
    ensures s' == s.(pc := s.pc[t := Idle],
                     serving := s.serving.(caches := s.serving.caches[t.worker := GenCache(gen, map[key := res])],
                                           served := s.serving.served + [Response(gen, key, res)]))
  {
    s' := Step(reached, s, t, Proceed, Move(Query(key, QStore(gen, res)), Nothing));
    assert s' == s.(pc := s.pc[t := Query(key, QStore(gen, res))]);
    s' := Step(reached, s', t, Proceed, Move(Idle, StoreAndServe(Response(gen, key, res))));
  }

  /** A search that finds nothing cached reads the published archive and caches its answer. */
  lemma SearchMisses(reached: State -> bool, s: State, t: Thread, key: Key, gen: nat, res: Archive, answered: Serving)
    returns (s': State)
    requires Kept(reached) && reached(s) && t in s.pc && s.pc[t] == Idle && !EngineEmpty(s.store) &&
             res == s.store.published.value
    requires |s.serving.bumps| == gen + 1 && t.worker !in s.serving.caches
    requires answered == s.serving.(caches := s.serving.caches[t.worker := GenCache(gen, map[key := res])],
                                    served := s.serving.served + [Response(gen, key, res)])
    ensures reached(s') && s' == s.(serving := answered)
  {
    s' := SearchReadsGeneration(reached, s, t, key, gen);
    s' := SearchOpensCache(reached, s', t, key, gen);
    s' := SearchStores(reached, s', t, key, gen, res);
    assert s'.pc == s.pc;
    assert s'.serving.caches == answered.caches;
  }

  lemma SearchHits(reached: State -> bool, s: State, t: Thread, key: Key, c: GenCache) returns (s': State)
    requires Kept(reached) && reached(s) && t in s.pc && s.pc[t] == Query(key, QLookup(c.gen))
    requires t.worker in s.serving.caches && s.serving.caches[t.worker] == c && key in c.entries
    ensures reached(s')
    ensures s' == s.(pc := s.pc[t := Idle],
                     serving := s.serving.(served := s.serving.served + [Response(c.gen, key, c.entries[key])]))
  {
    s' := Step(reached, s, t, Proceed, Move(Idle, Serve(Response(c.gen, key, c.entries[key]))));
  }

  /** An answer cached under the current generation is what an idle thread of that worker answers with. */
  lemma CachedAnswerIsServed(reached: State -> bool, s: State, t: Thread, key: Key, c: GenCache) returns (s': State)
    requires Kept(reached) && reached(s) && t in s.pc && s.pc[t] == Idle && |s.serving.bumps| == c.gen + 1
    requires t.worker in s.serving.caches && s.serving.caches[t.worker] == c && key in c.entries
    ensures reached(s') &&
            s' == s.(serving := s.serving.(served := s.serving.served + [Response(c.gen, key, c.entries[key])]))
  {
    s' := SearchReadsGeneration(reached, s, t, key, c.gen);
    s' := SearchHits(reached, s', t, key, c);
    assert s'.pc == s.pc;
  }
}
