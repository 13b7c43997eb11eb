/**
  What a card import leaves behind in the search caches.  `import_cards_by_search` moves the generation
  on before it rebuilds the archive, so a search in between caches an answer from the old archive under
  the new generation.  The module gives such a run from the initial state, and the exact guard: answers
  are new enough from a state on if, and with an idle thread only if, no older answer is cached or in flight.
*/
module ImportRuns {
  import opened Options
  import opened ImportProtocol
  import opened ImportSteps
  import opened ImportFreshness
  import opened ImportSafety

  // ---------------------------------------------------------------- when later answers are new enough

  ghost predicate NewEnough(res: Archive, gen: nat, n: nat, g: nat) {
    g <= gen ==> n <= res.ver
  }

  ghost predicate ThreadClean(pc: Pc, n: nat, g: nat) {
    pc.Query? && pc.qat.QStore? ==> NewEnough(pc.qat.res, pc.qat.gen, n, g)
  }

  ghost predicate CachesClean(v: Serving, n: nat, g: nat) {
    forall w, k :: w in v.caches && k in v.caches[w].entries ==>
      NewEnough(v.caches[w].entries[k], v.caches[w].gen, n, g)
  }

  /** Version n is published, and no answer from before it is cached or in flight under generation g or later. */
  ghost predicate Clean(s: State, n: nat, g: nat) {
    && n <= PublishedVer(s.store)
    && CachesClean(s.serving, n, g)
    && (forall t :: t in s.pc ==> ThreadClean(s.pc[t], n, g))
  }

  ghost predicate CleanMove(m: Move, n: nat, g: nat) {
    && ThreadClean(m.pc, n, g)
    && ((m.eff.Serve? || m.eff.StoreAndServe?) ==> NewEnough(m.eff.answer.res, m.eff.answer.gen, n, g))
  }

  lemma MoveClean(s: State, worker: nat, pc: Pc, act: Action, n: nat, g: nat)
    requires n <= PublishedVer(s.store) && CachesClean(s.serving, n, g) && ThreadClean(pc, n, g)
    ensures CleanMove(Decide(s, worker, pc, act), n, g)
  {
  }

  lemma ServingClean(v: Serving, st: Store, worker: nat, m: Move, n: nat, g: nat, from: nat)
    requires CachesClean(v, n, g) && CleanMove(m, n, g)
    requires forall i :: from <= i < |v.served| ==> NewEnough(v.served[i].res, v.served[i].gen, n, g)
    ensures var v' := ServingAfter(v, st, worker, m.eff);
            && CachesClean(v', n, g)
            && (forall i :: from <= i < |v'.served| ==> NewEnough(v'.served[i].res, v'.served[i].gen, n, g))
  {
  }

  lemma StoreAdvances(st: Store, v: Serving, worker: nat, m: Move)
    requires FreshMove(st, v, m)
    ensures PublishedVer(st) <= PublishedVer(StoreAfter(st, worker, m.eff))
  {
  }

  lemma CleanStep(s: State, t: Thread, act: Action, n: nat, g: nat, from: nat)
    requires Inv(s) && Clean(s, n, g)
    requires forall i :: from <= i < |s.serving.served| ==>
             NewEnough(s.serving.served[i].res, s.serving.served[i].gen, n, g)
    ensures var s' := Next(s, t, act);
            && Clean(s', n, g)
            && (forall i :: from <= i < |s'.serving.served| ==>
                              NewEnough(s'.serving.served[i].res, s'.serving.served[i].gen, n, g))
  {
    if !act.Tick? && t in s.pc {
      var m := Decide(s, t.worker, s.pc[t], act);
      MoveClean(s, t.worker, s.pc[t], act, n, g);
      MoveFresh(s, t.worker, s.pc[t], act);
      ServingClean(s.serving, s.store, t.worker, m, n, g, from);
      StoreAdvances(s.store, s.serving, t.worker, m);
    }
  }

  /** From a clean state on, every answer under generation g or later shows version n or a newer one. */
  lemma {:induction false} CleanStaysFresh(s: State, schedule: seq<(Thread, Action)>, n: nat, g: nat)
    requires Inv(s) && Clean(s, n, g)
    ensures var s' := Run(s, schedule);
            && Inv(s') && Clean(s', n, g)
            && (forall i :: |s.serving.served| <= i < |s'.serving.served| ==>
                              NewEnough(s'.serving.served[i].res, s'.serving.served[i].gen, n, g))
    decreases |schedule|
  {
    if schedule != [] {
      var k := |schedule| - 1;
      CleanStaysFresh(s, schedule[..k], n, g);
      StepInv(Run(s, schedule[..k]), schedule[k].0, schedule[k].1);
      CleanStep(Run(s, schedule[..k]), schedule[k].0, schedule[k].1, n, g, |s.serving.served|);
    }
  }

  // ---------------------------------------------------------------- a run that answers from an old archive

  /** Some run from s answers, under generation g or later, from an archive older than version n. */
  ghost predicate CanAnswerOlder(s: State, n: nat, g: nat) {
    exists s' :: Reaches(s, s') && AnsweredOlder(s, s', n, g)
  }

  ghost predicate AnsweredOlder(s: State, s': State, n: nat, g: nat) {
    exists i :: |s.serving.served| <= i < |s'.serving.served| &&
                !NewEnough(s'.serving.served[i].res, s'.serving.served[i].gen, n, g)
  }

  ghost predicate CachedOlder(v: Serving, n: nat, g: nat) {
    exists w, k :: w in v.caches && k in v.caches[w].entries && v.caches[w].gen == g && v.caches[w].entries[k].ver < n
  }

  /** A search has read an older archive under generation g, and is about to cache and give the answer. */
  ghost predicate InFlightOlder(s: State, n: nat, g: nat) {
    exists t :: t in s.pc && AboutToAnswerOlder(s.pc[t], n, g)
  }

  predicate AboutToAnswerOlder(pc: Pc, n: nat, g: nat) {
    pc.Query? && pc.qat.QStore? && pc.qat.gen == g && pc.qat.res.ver < n
  }

  /** Every worker with a search cache has a thread that is free to serve a request. */
  ghost predicate CachesServed(s: State) {
    forall w :: w in s.serving.caches ==> exists t :: t in s.pc && t.worker == w && s.pc[t] == Idle
  }

  lemma CachedCanBeAnswered(s: State, n: nat, g: nat)
    requires |s.serving.bumps| == g + 1 && CachedOlder(s.serving, n, g) && CachesServed(s)
    ensures CanAnswerOlder(s, n, g)
  {
    var v := s.serving;
    var w, k :| w in v.caches && k in v.caches[w].entries && v.caches[w].gen == g && v.caches[w].entries[k].ver < n;
    var t :| t in s.pc && t.worker == w && s.pc[t] == Idle;
    ReachedKept(s);
    var s' := CachedAnswerIsServed(ReachedFrom(s), s, t, k, v.caches[w]);
    assert s'.serving.served[|v.served|] == Response(g, k, v.caches[w].entries[k]);
    assert AnsweredOlder(s, s', n, g);
  }

  lemma InFlightCanBeAnswered(s: State, n: nat, g: nat)
    requires InFlightOlder(s, n, g)
    ensures CanAnswerOlder(s, n, g)
  {
    var t :| t in s.pc && AboutToAnswerOlder(s.pc[t], n, g);
    var pc := s.pc[t];
    ReachedKept(s);
    var answer := Response(g, pc.key, pc.qat.res);
    var s' := Step(ReachedFrom(s), s, t, Proceed, Move(Idle, StoreAndServe(answer)));
    assert s'.serving.served[|s.serving.served|] == answer;
    assert AnsweredOlder(s, s', n, g);
  }

  lemma NoneOlderIsClean(s: State, n: nat, g: nat)
    requires Inv(s) && n <= PublishedVer(s.store) && |s.serving.bumps| == g + 1
    requires !CachedOlder(s.serving, n, g) && !InFlightOlder(s, n, g)
    ensures Clean(s, n, g)
  {
    var v := s.serving;
    forall w, k | w in v.caches && k in v.caches[w].entries
      ensures NewEnough(v.caches[w].entries[k], v.caches[w].gen, n, g)
    {
      assert AtLeast(v, s.store, v.caches[w].entries[k], v.caches[w].gen);
    }
    forall t | t in s.pc
      ensures ThreadClean(s.pc[t], n, g)
    {
      assert ThreadFresh(s.pc[t], v, s.store) && !AboutToAnswerOlder(s.pc[t], n, g);
    }
  }

  /**
    With version n published, whatever requests are in progress: an answer older than n can be given under the
    current generation or a later one only if one is cached, or in flight, under the current generation; and it
    can be, if one is in flight, or is cached by a worker with a free thread.
  */
  lemma OlderAnswerIff(s: State, n: nat, g: nat)
    requires Inv(s) && n <= PublishedVer(s.store) && |s.serving.bumps| == g + 1
    ensures CanAnswerOlder(s, n, g) ==> CachedOlder(s.serving, n, g) || InFlightOlder(s, n, g)
    ensures InFlightOlder(s, n, g) || (CachedOlder(s.serving, n, g) && CachesServed(s)) ==> CanAnswerOlder(s, n, g)
  {
    if InFlightOlder(s, n, g) {
      InFlightCanBeAnswered(s, n, g);
    } else if CachedOlder(s.serving, n, g) {
      if CachesServed(s) {
        CachedCanBeAnswered(s, n, g);
      }
    } else {
      NoneOlderIsClean(s, n, g);
      forall s' | Reaches(s, s')
        ensures !AnsweredOlder(s, s', n, g)
      {
        var xs :| Run(s, xs) == s';
        CleanStaysFresh(s, xs, n, g);
      }
    }
  }

  /** The first worker to start has set up the schema, imported, rebuilt and left; the second found it done. */
  lemma BothStarted(reached: State -> bool, s0: State, first: Thread, second: Thread, rows: seq<Row>) returns (s: State)
    requires Kept(reached) && reached(s0) && Init(s0) && first != second && s0.pc == map[first := Idle, second := Idle]
    requires s0.store == Store([[]], None, 0, map[])
    ensures reached(s) && s.pc == s0.pc && s.owner == map[] && s.schema.eventSet
    ensures s.store == Store([[], rows], Some(Archive(1, 1, rows)), 1, map[])
    ensures s.serving == Serving([Bump(0, 0, None), Bump(0, 0, None), Bump(1, 1, Some(1))], map[], [])
  {
    s := SetupFirst(reached, s0, first);
    s := SetupLater(reached, s, second);
    s := FirstImports(reached, s, first, rows);
    s := ImportLater(reached, s, second);
  }

  /** The first import, with nothing else going on. */
  lemma FirstImports(reached: State -> bool, s: State, t: Thread, rows: seq<Row>) returns (s': State)
    requires Kept(reached) && reached(s) && t in s.pc && s.pc[t] == Idle && s.owner == map[] && s.schema.eventSet
    requires s.clock.lastImport == 0 && s.clock.now > 0
    requires s.store == Store([[]], None, 0, map[]) && s.serving == Serving([Bump(0, 0, None)], map[], [])
    ensures reached(s') && s'.pc == s.pc && s'.owner == map[] && s'.schema == s.schema
    ensures s'.clock.lastImport == s'.clock.now == s.clock.now
    ensures s'.store == Store([[], rows], Some(Archive(1, 1, rows)), 1, map[])
    ensures s'.serving == Serving([Bump(0, 0, None), Bump(0, 0, None), Bump(1, 1, Some(1))], map[], [])
  {
    s' := ImportTries(reached, s, t);
    s' := ImportEnters(reached, s', t);
    s' := ImportStarts(reached, s', t);
    s' := ImportWrites(reached, s', t, rows);
    assert s'.store == Store([[], rows], None, 0, map[]);
    s' := FirstRebuilds(reached, s', t, rows);
    assert s'.pc == s.pc;
  }

  lemma FirstRebuilds(reached: State -> bool, s: State, t: Thread, rows: seq<Row>) returns (s': State)
    requires Kept(reached) && reached(s) && t in s.pc && s.pc[t] == Import(IBump) && s.owner == map[ImportLock := t]
    requires s.store == Store([[], rows], None, 0, map[]) && s.serving == Serving([Bump(0, 0, None)], map[], [])
    ensures reached(s') && s'.pc == s.pc[t := Idle] && s'.owner == map[] && s'.schema == s.schema
    ensures s'.clock.lastImport == s'.clock.now == s.clock.now
    ensures s'.store == Store([[], rows], Some(Archive(1, 1, rows)), 1, map[])
    ensures s'.serving == Serving([Bump(0, 0, None), Bump(0, 0, None), Bump(1, 1, Some(1))], map[], [])
  {
    var bumped := Serving([Bump(0, 0, None), Bump(0, 0, None)], map[], []);
    var ended := Serving([Bump(0, 0, None), Bump(0, 0, None), Bump(1, 1, Some(1))], map[], []);
    var once := s.clock.(lastImport := s.clock.now, timeline := s.clock.timeline + [Succeeded(s.clock.now)]);
    var twice := once.(timeline := once.timeline + [Succeeded(s.clock.now)]);
    s' := ImportRecords(reached, s, t, bumped, once);
    s' := ReloadAlone(reached, s', t, ForImport(1), Store([[], rows], Some(Archive(1, 1, rows)), 1, map[]));
    s' := ImportLeaves(reached, s', t, Some(1), ended, twice);
  }

  /** A card import has written a new table and moved the generation on, and is about to rebuild. */
  lemma UpToBump(reached: State -> bool, importer: Thread, searcher: Thread, s: State) returns (s': State)
    requires Kept(reached) && reached(s) && importer != searcher && s.pc == map[importer := Idle, searcher := Idle] &&
             s.schema.eventSet
    requires s.store == Store([[], ["old"]], Some(Archive(1, 1, ["old"])), 1, map[])
    requires s.serving == Serving([Bump(0, 0, None), Bump(0, 0, None), Bump(1, 1, Some(1))], map[], [])
    ensures reached(s')
    ensures s' == s.(pc := map[importer := Reload(ForSearchImport, REnter), searcher := Idle],
                     store := Store([[], ["old"], ["new"]], Some(Archive(1, 1, ["old"])), 1, map[]),
                     serving := Serving([Bump(0, 0, None), Bump(0, 0, None), Bump(1, 1, Some(1)), Bump(1, 1, None)],
                                        map[], []))
  {
    s' := SearchImportWrites(reached, s, importer, ["new"]);
    s' := SearchImportBumps(reached, s', importer);
    assert s'.pc == map[importer := Reload(ForSearchImport, REnter), searcher := Idle];
    assert s'.serving.bumps == [Bump(0, 0, None), Bump(0, 0, None), Bump(1, 1, Some(1)), Bump(1, 1, None)];
    assert s'.store.tables == [[], ["old"], ["new"]];
  }

  /** Up to the return of a card import during which the other worker served a search. */
  lemma SearchedDuringImport(reached: State -> bool, s0: State, importer: Thread, searcher: Thread, key: Key)
    returns (done: State)
    requires Kept(reached) && reached(s0) && Init(s0) && importer.worker != searcher.worker
    requires s0.pc == map[importer := Idle, searcher := Idle] && s0.store == Store([[]], None, 0, map[])
    ensures reached(done) && done.pc == s0.pc
    ensures done.store == Store([[], ["old"], ["new"]], Some(Archive(2, 2, ["new"])), 2, map[])
    ensures |done.serving.bumps| == 4 && searcher.worker in done.serving.caches
    ensures done.serving.caches[searcher.worker] == GenCache(3, map[key := Archive(1, 1, ["old"])])
  {
    var before := Archive(1, 1, ["old"]);
    var s := BothStarted(reached, s0, importer, searcher, ["old"]);
    s := UpToBump(reached, importer, searcher, s);
    var answered :=
      Serving(s.serving.bumps, map[searcher.worker := GenCache(3, map[key := before])], [Response(3, key, before)]);
    s := SearchMisses(reached, s, searcher, key, 3, before, answered);
    done := ReloadAlone(reached, s, importer, ForSearchImport,
                        Store([[], ["old"], ["new"]], Some(Archive(2, 2, ["new"])), 2, map[]));
    assert done.pc == s0.pc;
  }

  /**
    Two workers start, the first of them importing.  Then it imports cards by search while the second serves a
    search.  The import has returned and its rebuild is published, and the second worker, under the current
    generation, still answers from the archive before it.
  */
  lemma StaleAnswerAfterCardImport() returns (s0: State, done: State, s: State)
    ensures Init(s0) && s0.pc.Keys == {Thread(0, 0), Thread(1, 0)} && Reaches(s0, done) && Reaches(done, s)
    ensures (forall t :: t in done.pc ==> done.pc[t] == Idle) && done.store.tables == [[], ["old"], ["new"]]
    ensures done.store.published == Some(Archive(2, 2, ["new"]))
    ensures |s.serving.served| == |done.serving.served| + 1
    ensures var last := s.serving.served[|s.serving.served| - 1];
            last.gen == |s.serving.bumps| - 1 && last.res == Archive(1, 1, ["old"])
  {
    var importer, searcher := Thread(0, 0), Thread(1, 0);
    s0 := State(map[importer := Idle, searcher := Idle], map[], SchemaState(false, 0), Clock(1, 0, []),
                Store([[]], None, 0, map[]), Serving([Bump(0, 0, None)], map[], []));
    ReachedKept(s0);
    done := SearchedDuringImport(ReachedFrom(s0), s0, importer, searcher, "q");
    ReachedKept(done);
    s := CachedAnswerIsServed(ReachedFrom(done), done, searcher, "q", GenCache(3, map["q" := Archive(1, 1, ["old"])]));
  }
}
