/**
  What every step keeps of the generations, the cached answers and the answers given.
*/
module ImportFreshness {
  import opened ImportProtocol
  import opened ImportReload

  /**
    The answer comes from a complete archive that is at least as new as the one published when the
    generation began.
  */
  ghost predicate AtLeast(v: Serving, st: Store, res: Archive, gen: nat) {
    && gen < |v.bumps|
    && v.bumps[gen].no <= res.no && v.bumps[gen].ver <= res.ver
    && Complete(st, res.ver, res.rows)
  }

  ghost predicate ThreadFresh(pc: Pc, v: Serving, st: Store) {
    pc.Query? && !pc.qat.QGen? ==>
      pc.qat.gen < |v.bumps| && (pc.qat.QStore? ==> AtLeast(v, st, pc.qat.res, pc.qat.gen))
  }

  ghost predicate BumpsInv(v: Serving, st: Store) {
    && |v.bumps| > 0
    && (forall i, j :: 0 <= i <= j < |v.bumps| ==>
                         v.bumps[i].no <= v.bumps[j].no && v.bumps[i].ver <= v.bumps[j].ver)
    && (forall i :: 0 <= i < |v.bumps| ==> v.bumps[i].no <= st.pubs && v.bumps[i].ver <= PublishedVer(st))
    && (forall i :: 0 <= i < |v.bumps| && v.bumps[i].need.Some? ==> v.bumps[i].need.value <= v.bumps[i].ver)
  }

  ghost predicate AnswersInv(v: Serving, st: Store) {
    && (forall w, k :: w in v.caches && k in v.caches[w].entries ==>
                         AtLeast(v, st, v.caches[w].entries[k], v.caches[w].gen))
    && (forall i :: 0 <= i < |v.served| ==> AtLeast(v, st, v.served[i].res, v.served[i].gen))
  }

  ghost predicate FreshInv(pc: map<Thread, Pc>, st: Store, v: Serving) {
    BumpsInv(v, st) && AnswersInv(v, st) && forall t :: t in pc ==> ThreadFresh(pc[t], v, st)
  }

  ghost predicate FreshMove(st: Store, v: Serving, m: Move) {
    && (m.eff.BumpGen? && m.eff.need.Some? ==> m.eff.need.value <= PublishedVer(st))
    && ((m.eff.Serve? || m.eff.StoreAndServe?) ==> AtLeast(v, st, m.eff.answer.res, m.eff.answer.gen))
    && (m.eff.Publish? ==> PublishedVer(st) <= m.eff.ver)
    && ThreadFresh(m.pc, v, st)
  }

  lemma MoveFreshQuery(s: State, worker: nat, key: Key, at: QueryAt, act: Action)
    requires StoreInv(s.store) && BumpsInv(s.serving, s.store) && AnswersInv(s.serving, s.store)
    requires ThreadFresh(Query(key, at), s.serving, s.store)
    ensures FreshMove(s.store, s.serving, DecideQuery(s, worker, key, at, act))
  {
  }

  lemma MoveFreshReload(s: State, worker: nat, rc: ReloadCaller, at: ReloadAt, act: Action)
    requires ThreadReload(Reload(rc, at), worker, s.store)
    ensures FreshMove(s.store, s.serving, DecideReload(s, rc, at, act))
  {
  }

  lemma MoveFreshImport(s: State, worker: nat, at: ImportAt, act: Action)
    requires ThreadReload(Import(at), worker, s.store)
    ensures FreshMove(s.store, s.serving, DecideImport(s, at, act))
  {
  }

  lemma MoveFresh(s: State, worker: nat, pc: Pc, act: Action)
    requires StoreInv(s.store) && BumpsInv(s.serving, s.store) && AnswersInv(s.serving, s.store)
    requires ThreadFresh(pc, s.serving, s.store) && ThreadReload(pc, worker, s.store)
    ensures FreshMove(s.store, s.serving, Decide(s, worker, pc, act))
  {
    match pc
    case Query(key, at) => MoveFreshQuery(s, worker, key, at, act);
    case Reload(rc, at) => MoveFreshReload(s, worker, rc, at, act);
    case Import(at) => MoveFreshImport(s, worker, at, act);
    case _ =>
  }

  lemma BumpsStep(v: Serving, st: Store, worker: nat, m: Move)
    requires BumpsInv(v, st) && FreshMove(st, v, m)
    ensures BumpsInv(ServingAfter(v, st, worker, m.eff), StoreAfter(st, worker, m.eff))
  {
    var st' := StoreAfter(st, worker, m.eff);
    assert st.pubs <= st'.pubs && PublishedVer(st) <= PublishedVer(st');
    if m.eff.BumpGen? {
      assert BumpsInv(v.(bumps := v.bumps + [Bump(st.pubs, PublishedVer(st), m.eff.need)]), st);
    } else {
      assert ServingAfter(v, st, worker, m.eff).bumps == v.bumps;
    }
  }

  /** Generations and table versions are only ever added, so an answer stays as fresh as it was. */
  lemma StillAtLeast(v: Serving, st: Store, res: Archive, gen: nat, worker: nat, e: Effect)
    requires AtLeast(v, st, res, gen)
    ensures AtLeast(ServingAfter(v, st, worker, e), StoreAfter(st, worker, e), res, gen)
  {
  }

  lemma AnswersStep(v: Serving, st: Store, worker: nat, m: Move)
    requires AnswersInv(v, st) && FreshMove(st, v, m)
    ensures AnswersInv(ServingAfter(v, st, worker, m.eff), StoreAfter(st, worker, m.eff))
  {
    var v', st' := ServingAfter(v, st, worker, m.eff), StoreAfter(st, worker, m.eff);
    forall res, gen | AtLeast(v, st, res, gen)
      ensures AtLeast(v', st', res, gen)
    {
      StillAtLeast(v, st, res, gen, worker, m.eff);
    }
  }

  lemma FreshStep(s: State, t: Thread, act: Action)
    requires ReloadInv(s.pc, s.owner, s.store) && FreshInv(s.pc, s.store, s.serving) && t in s.pc && !act.Tick?
    ensures var s' := Next(s, t, act); FreshInv(s'.pc, s'.store, s'.serving)
  {
    var m := Decide(s, t.worker, s.pc[t], act);
    MoveFresh(s, t.worker, s.pc[t], act);
    BumpsStep(s.serving, s.store, t.worker, m);
    AnswersStep(s.serving, s.store, t.worker, m);
    ApplyFresh(s.pc, s.serving, s.store, t, m, s.pc[t := m.pc]);
  }

  lemma ApplyFresh(pc: map<Thread, Pc>, v: Serving, st: Store, t: Thread, m: Move, pc': map<Thread, Pc>)
    requires (forall u :: u in pc ==> ThreadFresh(pc[u], v, st)) && ThreadFresh(m.pc, v, st)
    requires pc' == pc[t := m.pc]
    ensures var v', st' := ServingAfter(v, st, t.worker, m.eff), StoreAfter(st, t.worker, m.eff);
            forall u :: u in pc' ==> ThreadFresh(pc'[u], v', st')
  {
    forall u | u in pc'
      ensures ThreadFresh(pc'[u], ServingAfter(v, st, t.worker, m.eff), StoreAfter(st, t.worker, m.eff))
    {
      var p := pc'[u];
      if p.Query? && p.qat.QStore? {
        StillAtLeast(v, st, p.qat.res, p.qat.gen, t.worker, m.eff);
      }
    }
  }
}
