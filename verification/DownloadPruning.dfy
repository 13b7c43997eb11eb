/**
  Pruning against the other workers: when a cache file can be relied on to stay, and a run in which it does not.
*/
module DownloadPruning {
  import opened DownloadRace

  // ---------------------------------------------------------------- does a cache file stay?

  /** The worker will come to this name in its listing, or is about to unlink it. */
  predicate WillVisit(pc: Pc, name: Name) {
    (pc.Pruning? && name in pc.listed) || (pc.Unlinking? && (pc.name == name || name in pc.listed))
  }

  ghost predicate Visited(s: State, name: Name) {
    exists v :: v in s.workers && WillVisit(s.workers[v], name)
  }

  /**
    The worker may unlink the cache file of this dump: it will come to it in its listing, or it has yet to list the
    directory.  The latter includes a worker about to find its own file missing, or whose own file some worker may
    unlink before it looks.
  */
  ghost predicate MayUnlink(s: State, w: nat, dump: string)
    requires w in s.workers
  {
    var pc := s.workers[w];
    || WillVisit(pc, Cache(dump))
    || pc.Listing?
    || (pc.Checking? && (Cache(pc.dump) !in s.dir || Visited(s, Cache(pc.dump))))
  }

  ghost predicate Calm(s: State, dump: string) {
    forall w :: w in s.workers ==> !MayUnlink(s, w, dump)
  }

  /** Every call the schedule starts asks for this dump. */
  ghost predicate AsksOnlyFor(schedule: seq<(nat, Action)>, dump: string) {
    forall i :: 0 <= i < |schedule| && schedule[i].1.Begin? ==> schedule[i].1.dump == dump
  }

  // If nobody may, it stays.

  /** What a step of a worker that does not list does to names and listings. */
  ghost predicate Harmless(s: State, w: nat, s': State)
    requires w in s.workers
  {
    && s'.workers.Keys == s.workers.Keys && w in s'.workers
    && (forall v :: v in s.workers && v != w ==> s'.workers[v] == s.workers[v])
    && (forall name :: WillVisit(s'.workers[w], name) ==> WillVisit(s.workers[w], name))
    && (forall name: Name :: name.Cache? && name in s.dir && name !in s'.dir ==> WillVisit(s.workers[w], name))
  }

  lemma StepWorkers(s: State, w: nat, act: Action, s': State)
    requires w in s.workers && s' == Next(s, w, act) && !act.Tick?
    ensures s'.workers.Keys == s.workers.Keys && forall v :: v in s.workers && v != w ==> s'.workers[v] == s.workers[v]
  {
  }

  lemma StepVisits(s: State, w: nat, act: Action, s': State, name: Name)
    requires w in s.workers && !s.workers[w].Listing? && s' == Next(s, w, act) && !act.Tick?
    requires WillVisit(s'.workers[w], name)
    ensures WillVisit(s.workers[w], name)
  {
  }

  lemma StepUnlinks(s: State, w: nat, act: Action, s': State, name: Name)
    requires w in s.workers && s' == Next(s, w, act) && !act.Tick? && name.Cache? && name in s.dir && name !in s'.dir
    ensures WillVisit(s.workers[w], name)
  {
  }

  lemma HarmlessStep(s: State, w: nat, act: Action, s': State)
    requires w in s.workers && !s.workers[w].Listing? && s' == Next(s, w, act) && !act.Tick?
    ensures Harmless(s, w, s')
  {
    StepWorkers(s, w, act, s');
    forall name | WillVisit(s'.workers[w], name)
      ensures WillVisit(s.workers[w], name)
    {
      StepVisits(s, w, act, s', name);
    }
    forall name: Name | name.Cache? && name in s.dir && name !in s'.dir
      ensures WillVisit(s.workers[w], name)
    {
      StepUnlinks(s, w, act, s', name);
    }
  }

  lemma OwnStep(s: State, w: nat, act: Action, s': State, dump: string)
    requires w in s.workers && !MayUnlink(s, w, dump) && s' == Next(s, w, act) && !act.Tick?
    requires act.Begin? ==> act.dump == dump
    ensures !s'.workers[w].Listing? &&
            (s'.workers[w].Checking? ==> s'.workers[w].dump == dump || s'.workers[w] == s.workers[w])
  {
  }

  /** A name in no listing before a harmless step is in none after it, and still there. */
  lemma StaysUnvisited(s: State, w: nat, s': State, name: Name)
    requires w in s.workers && Harmless(s, w, s') && !Visited(s, name) && name.Cache? && name in s.dir
    ensures !Visited(s', name) && name in s'.dir
  {
    assert !WillVisit(s.workers[w], name);
    forall v | v in s'.workers
      ensures !WillVisit(s'.workers[v], name)
    {
      assert !WillVisit(s.workers[v], name);
    }
  }

  lemma NobodyVisits(s: State, dump: string)
    requires Calm(s, dump)
    ensures !Visited(s, Cache(dump))
  {
    forall v | v in s.workers
      ensures !WillVisit(s.workers[v], Cache(dump))
    {
      assert !MayUnlink(s, v, dump);
    }
  }

  lemma CalmWorker(s: State, w: nat, act: Action, s': State, dump: string, v: nat)
    requires Calm(s, dump) && Cache(dump) in s.dir && w in s.workers && s' == Next(s, w, act) && !act.Tick?
    requires act.Begin? ==> act.dump == dump
    requires Harmless(s, w, s') && Cache(dump) in s'.dir && v in s'.workers
    ensures !MayUnlink(s', v, dump)
  {
    assert !MayUnlink(s, v, dump) && !MayUnlink(s, w, dump);
    NobodyVisits(s, dump);
    OwnStep(s, w, act, s', dump);
    var pc := s'.workers[v];
    if pc.Checking? {
      assert Cache(pc.dump) in s.dir && !Visited(s, Cache(pc.dump));
      StaysUnvisited(s, w, s', Cache(pc.dump));
    }
  }

  lemma CalmStep(s: State, w: nat, act: Action, s': State, dump: string)
    requires Calm(s, dump) && Cache(dump) in s.dir && s' == Next(s, w, act) && (act.Begin? ==> act.dump == dump)
    ensures Calm(s', dump) && Cache(dump) in s'.dir
  {
    if act.Tick? || w !in s.workers {
      forall v | v in s'.workers
        ensures !MayUnlink(s', v, dump)
      {
        assert !MayUnlink(s, v, dump);
      }
    } else {
      assert !MayUnlink(s, w, dump);
      HarmlessStep(s, w, act, s');
      forall v | v in s'.workers
        ensures !MayUnlink(s', v, dump)
      {
        CalmWorker(s, w, act, s', dump, v);
      }
    }
  }

  lemma {:induction false} CalmRun(s: State, schedule: seq<(nat, Action)>, dump: string)
    requires Calm(s, dump) && Cache(dump) in s.dir && AsksOnlyFor(schedule, dump)
    ensures Calm(Run(s, schedule), dump) && Cache(dump) in Run(s, schedule).dir
    decreases |schedule|
  {
    if schedule != [] {
      var last := |schedule| - 1;
      CalmRun(s, schedule[..last], dump);
      CalmStep(Run(s, schedule[..last]), schedule[last].0, schedule[last].1, Run(s, schedule), dump);
    }
  }

  // If somebody may, some continuation removes it.

  lemma RunOne(s: State, schedule: seq<(nat, Action)>, w: nat, act: Action)
    ensures Run(s, schedule + [(w, act)]) == Next(Run(s, schedule), w, act)
  {
    assert (schedule + [(w, act)])[..|schedule|] == schedule;
  }

  /** A run that starts no call, from one state to another. */
  ghost predicate LeadsTo(s: State, schedule: seq<(nat, Action)>, t: State) {
    t == Run(s, schedule) && forall i :: 0 <= i < |schedule| ==> !schedule[i].1.Begin?
  }

  lemma OneMore(s: State, schedule: seq<(nat, Action)>, t: State, w: nat, act: Action)
    returns (longer: seq<(nat, Action)>, t': State)
    requires LeadsTo(s, schedule, t) && !act.Begin?
    ensures LeadsTo(s, longer, t') && t' == Next(t, w, act)
  {
    RunOne(s, schedule, w, act);
    longer, t' := schedule + [(w, act)], Next(t, w, act);
  }

  /** What the removal of a name by one worker leaves of the rest. */
  ghost predicate RemovedBy(s: State, w: nat, name: Name, t: State) {
    && name !in t.dir && t.workers.Keys == s.workers.Keys
    && (forall v :: v in s.workers && v != w ==> t.workers[v] == s.workers[v])
    && (forall other :: other in t.dir ==> other in s.dir)
  }

  lemma PrunerRemoves(s0: State, xs: seq<(nat, Action)>, s: State, w: nat, name: Name)
    returns (ys: seq<(nat, Action)>, t: State)
    requires LeadsTo(s0, xs, s) && w in s.workers && s.workers[w].Pruning? && name in s.workers[w].listed && name.Cache?
    ensures LeadsTo(s0, ys, t) && RemovedBy(s, w, name, t)
  {
    var pc := s.workers[w];
    ys, t := OneMore(s0, xs, s, w, Look(name));
    if name in s.dir {
      assert t == Goto(s, w, Unlinking(pc.dump, pc.listed - {name}, name));
      ys, t := OneMore(s0, ys, t, w, Unlink);
    } else {
      assert t == Goto(s, w, Pruning(pc.dump, pc.listed - {name}));
    }
  }

  lemma VisitorRemoves(s0: State, xs: seq<(nat, Action)>, s: State, w: nat, name: Name)
    returns (ys: seq<(nat, Action)>, t: State)
    requires LeadsTo(s0, xs, s) && w in s.workers && WillVisit(s.workers[w], name) && name.Cache?
    ensures LeadsTo(s0, ys, t) && RemovedBy(s, w, name, t)
  {
    var pc := s.workers[w];
    if pc.Unlinking? {
      ys, t := OneMore(s0, xs, s, w, Unlink);
      assert t == Goto(s, w, Pruning(pc.dump, pc.listed)).(dir := s.dir - {pc.name});
      if pc.name != name {
        ys, t := PrunerRemoves(s0, ys, t, w, name);
      }
    } else {
      ys, t := PrunerRemoves(s0, xs, s, w, name);
    }
  }

  lemma ListerRemoves(s0: State, xs: seq<(nat, Action)>, s: State, w: nat, name: Name)
    returns (ys: seq<(nat, Action)>, t: State)
    requires LeadsTo(s0, xs, s) && w in s.workers && s.workers[w].Listing? && name.Cache?
    ensures LeadsTo(s0, ys, t) && name !in t.dir
  {
    ys, t := OneMore(s0, xs, s, w, List);
    assert t == Goto(s, w, Pruning(s.workers[w].dump, s.dir.Keys));
    if name in s.dir {
      ys, t := PrunerRemoves(s0, ys, t, w, name);
    }
  }

  lemma CheckerRemoves(s0: State, xs: seq<(nat, Action)>, s: State, w: nat, name: Name)
    returns (ys: seq<(nat, Action)>, t: State)
    requires LeadsTo(s0, xs, s) && w in s.workers && s.workers[w].Checking? && name.Cache?
    requires Cache(s.workers[w].dump) !in s.dir
    ensures LeadsTo(s0, ys, t) && name !in t.dir
  {
    ys, t := OneMore(s0, xs, s, w, Check);
    assert t == Goto(s, w, Listing(s.workers[w].dump));
    ys, t := ListerRemoves(s0, ys, t, w, name);
  }

  lemma SomebodyRemoves(s: State, w: nat, dump: string) returns (schedule: seq<(nat, Action)>, t: State)
    requires w in s.workers && MayUnlink(s, w, dump)
    ensures LeadsTo(s, schedule, t) && Cache(dump) !in t.dir
  {
    var pc, name := s.workers[w], Cache(dump);
    assert LeadsTo(s, [], s);
    if WillVisit(pc, name) {
      schedule, t := VisitorRemoves(s, [], s, w, name);
    } else if pc.Listing? {
      schedule, t := ListerRemoves(s, [], s, w, name);
    } else if Cache(pc.dump) !in s.dir {
      schedule, t := CheckerRemoves(s, [], s, w, name);
    } else {
      var v :| v in s.workers && WillVisit(s.workers[v], Cache(pc.dump));
      schedule, t := VisitorRemoves(s, [], s, v, Cache(pc.dump));
      schedule, t := CheckerRemoves(s, schedule, t, w, name);
    }
  }

  /**
    When a cache file can be relied on: it survives every continuation that asks for this dump only, exactly when no
    worker may unlink it.
  */
  lemma StaysIffCalm(s: State, dump: string)
    requires Cache(dump) in s.dir
    ensures (forall schedule :: AsksOnlyFor(schedule, dump) ==> Cache(dump) in Run(s, schedule).dir) <==> Calm(s, dump)
  {
    if Calm(s, dump) {
      forall schedule | AsksOnlyFor(schedule, dump)
        ensures Cache(dump) in Run(s, schedule).dir
      {
        CalmRun(s, schedule, dump);
      }
    } else {
      var w :| w in s.workers && MayUnlink(s, w, dump);
      var schedule, t := SomebodyRemoves(s, w, dump);
      assert AsksOnlyFor(schedule, dump);
    }
  }

  // ---------------------------------------------------------------- a call that returned, and its file gone

  /** The whole output in a single write, and the end of the download. */
  lemma Writes(s0: State, xs: seq<(nat, Action)>, s: State, w: nat, pc: Pc) returns (ys: seq<(nat, Action)>, t: State)
    requires Reached(s0, xs, s) && w in s.workers && s.workers[w] == pc
    requires pc.Writing? && pc.written == 0 && pc.inode in s.files
    ensures Reached(s0, ys, t) && t.workers == s.workers[w := Renaming(pc.dump, pc.token, pc.inode, pc.full)]
    ensures t.dir == s.dir && (pc.dump, pc.full) in t.completed
  {
    ys, t := Further(s0, xs, s, w, Write(|pc.full|));
    assert t.workers == s.workers[w := pc.(written := |pc.full|)] && t.dir == s.dir;
    ys, t := Further(s0, ys, t, w, Close);
  }

  lemma Renames(s0: State, xs: seq<(nat, Action)>, s: State, w: nat, pc: Pc) returns (ys: seq<(nat, Action)>, t: State)
    requires Reached(s0, xs, s) && w in s.workers && s.workers[w] == pc
    requires pc.Renaming? && Tmp(pc.dump, w, pc.token) in s.dir
    ensures Reached(s0, ys, t) && t.workers == s.workers[w := Idle]
    ensures Cache(pc.dump) in t.dir && t.completed == s.completed
  {
    ys, t := Further(s0, xs, s, w, Rename);
  }

  /** One worker's download, from the open file to the return. */
  lemma Downloads(s0: State, xs: seq<(nat, Action)>, s: State, w: nat, pc: Pc)
    returns (ys: seq<(nat, Action)>, t: State)
    requires Reached(s0, xs, s) && w in s.workers && s.workers[w] == pc
    requires pc.Writing? && pc.written == 0 && pc.inode in s.files && Tmp(pc.dump, w, pc.token) in s.dir
    ensures Reached(s0, ys, t) && t.workers == s.workers[w := Idle]
    ensures Cache(pc.dump) in t.dir && (pc.dump, pc.full) in t.completed
  {
    ys, t := Writes(s0, xs, s, w, pc);
    ys, t := Renames(s0, ys, t, w, Renaming(pc.dump, pc.token, pc.inode, pc.full));
    assert t.workers == s.workers[w := Idle];
  }

  ghost predicate Reached(s0: State, xs: seq<(nat, Action)>, s: State) {
    s == Run(s0, xs)
  }

  lemma Further(s0: State, xs: seq<(nat, Action)>, s: State, w: nat, act: Action)
    returns (ys: seq<(nat, Action)>, t: State)
    requires Reached(s0, xs, s)
    ensures Reached(s0, ys, t) && t == Next(s, w, act)
  {
    RunOne(s0, xs, w, act);
    ys, t := xs + [(w, act)], Next(s, w, act);
  }

  /** A worker that finds the file missing. */
  lemma Misses(s0: State, xs: seq<(nat, Action)>, s: State, w: nat, dump: string)
    returns (ys: seq<(nat, Action)>, t: State)
    requires Reached(s0, xs, s) && w in s.workers && s.workers[w].Idle? && Cache(dump) !in s.dir
    ensures Reached(s0, ys, t) && t == Goto(s, w, Listing(dump))
  {
    ys, t := Further(s0, xs, s, w, Begin(dump));
    assert t == Goto(s, w, Checking(dump));
    ys, t := Further(s0, ys, t, w, Check);
  }

  /** From an empty directory to an open temporary file. */
  lemma Opens(s0: State, xs: seq<(nat, Action)>, s: State, w: nat, token: nat, full: Bytes)
    returns (ys: seq<(nat, Action)>, t: State)
    requires Reached(s0, xs, s) && w in s.workers && s.workers[w].Listing? && s.dir == map[]
    ensures Reached(s0, ys, t)
    ensures t.workers == s.workers[w := Writing(s.workers[w].dump, token, s.nextInode, full, 0)]
    ensures s.nextInode in t.files && Tmp(s.workers[w].dump, w, token) in t.dir
  {
    var dump := s.workers[w].dump;
    ys, t := Further(s0, xs, s, w, List);
    assert s.dir.Keys == {};
    assert t == Goto(s, w, Pruning(dump, {}));
    ys, t := Further(s0, ys, t, w, DonePruning(token));
    assert t == Goto(s, w, Opening(dump, token));
    ys, t := Further(s0, ys, t, w, Open(full));
  }

  /** A worker that lists only now removes the cache file it finds. */
  lemma ListsLate(s0: State, xs: seq<(nat, Action)>, s: State, w: nat, name: Name)
    returns (ys: seq<(nat, Action)>, t: State)
    requires Reached(s0, xs, s) && w in s.workers && s.workers[w].Listing? && name in s.dir && name.Cache?
    ensures Reached(s0, ys, t) && name !in t.dir && t.completed == s.completed
    ensures forall v :: v in s.workers && v != w ==> v in t.workers && t.workers[v] == s.workers[v]
  {
    var dump := s.workers[w].dump;
    ys, t := Further(s0, xs, s, w, List);
    assert t == Goto(s, w, Pruning(dump, s.dir.Keys));
    ys, t := Further(s0, ys, t, w, Look(name));
    assert t == Goto(s, w, Unlinking(dump, s.dir.Keys - {name}, name));
    ys, t := Further(s0, ys, t, w, Unlink);
  }

  /**
    What the protocol does not give: of two workers that both found the file missing, one downloads it and returns,
    and the other, which lists the directory only then, unlinks it.  A call that returned has no file to read.
  */
  lemma ReturnedYetGone(s0: State, dump: string, token: nat, full: Bytes)
    returns (schedule: seq<(nat, Action)>, t: State)
    requires Init(s0) && 0 in s0.workers && 1 in s0.workers
    ensures t == Run(s0, schedule) && 0 in t.workers && t.workers[0] == Idle
    ensures (dump, full) in t.completed && Cache(dump) !in t.dir
  {
    schedule, t := [], s0;
    schedule, t := Misses(s0, schedule, t, 0, dump);
    schedule, t := Misses(s0, schedule, t, 1, dump);
    schedule, t := Opens(s0, schedule, t, 0, token, full);
    schedule, t := Downloads(s0, schedule, t, 0, t.workers[0]);
    schedule, t := ListsLate(s0, schedule, t, 1, Cache(dump));
  }
}
