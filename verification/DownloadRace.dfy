/**
  The racing download cache: workers that find the cache file missing prune the directory, download into
  a temporary file of their own and rename it into place.  Files are inodes with names, so that a writer
  keeps writing to its inode after its name is gone.  Every step is atomic; a step that is not enabled
  leaves the state as it is, so a run is any sequence of (worker, action) pairs.
*/
module DownloadRace {
  type Bytes = seq<int>

  const TMP_PRUNE_AGE_SECONDS: nat := 900

  /** A cache file, by the dump it belongs to, or the temporary file of one download attempt. */
  datatype Name = Cache(dump: string) | Tmp(dump: string, pid: nat, token: nat)

  datatype Pc =
    | Idle
    | Checking(dump: string)
    | Listing(dump: string)
    | Pruning(dump: string, listed: set<Name>)
    | Unlinking(dump: string, listed: set<Name>, name: Name)
    | Opening(dump: string, token: nat)
    | Writing(dump: string, token: nat, inode: nat, full: Bytes, written: nat)
    | Renaming(dump: string, token: nat, inode: nat, full: Bytes)
    | Failing(dump: string, token: nat)

  datatype File = File(content: Bytes, mtime: nat)

  /**
    `dir` maps names to inodes and `files` inodes to their content; `completed` collects, by dump, the
    full output of every download that ran to its end; `workers` are the processes, by pid.
  */
  datatype State = State(
    workers: map<nat, Pc>,
    dir: map<Name, nat>,
    files: map<nat, File>,
    nextInode: nat,
    now: nat,
    completed: set<(string, Bytes)>)

  datatype Action =
    | Begin(dump: string)
    | Check
    | List
    | Look(name: Name)
    | Unlink
    | DonePruning(token: nat)
    | Open(full: Bytes)
    | Write(count: nat)
    | Close
    | Rename
    | Fail
    | CleanUp
    | Crash
    | Tick(seconds: nat)

  ghost predicate Init(s: State) {
    && (forall w :: w in s.workers ==> s.workers[w] == Idle)
    && s.dir == map[] && s.files == map[] && s.completed == {}
  }

  function Goto(s: State, w: nat, pc: Pc): State {
    s.(workers := s.workers[w := pc])
  }

  /** `.tmp` files younger than the limit are left alone; everything else in the directory goes. */
  predicate Prunable(s: State, name: Name) {
    && name in s.dir
    && (name.Tmp? && s.dir[name] in s.files ==> s.now - s.files[s.dir[name]].mtime >= TMP_PRUNE_AGE_SECONDS)
  }

  function AfterOpen(s: State, w: nat, name: Name, inode: nat, pc: Pc): State {
    s.(workers := s.workers[w := pc],
       dir := s.dir[name := inode],
       files := s.files[inode := File([], s.now)],
       nextInode := if name in s.dir then s.nextInode else s.nextInode + 1)
  }

  function Next(s: State, w: nat, act: Action): State {
    if act.Tick? then s.(now := s.now + act.seconds)
    else if w !in s.workers then s
    else
      match (s.workers[w], act)
      case (Idle, Begin(dump)) => Goto(s, w, Checking(dump))
      case (Checking(dump), Check) => Goto(s, w, if Cache(dump) in s.dir then Idle else Listing(dump))
      case (Listing(dump), List) => Goto(s, w, Pruning(dump, s.dir.Keys))
      case (Pruning(dump, listed), Look(name)) =>
        // the entries of the one listing are visited once each; by now they may be gone, or others
        if name !in listed then s
        else if Prunable(s, name) then Goto(s, w, Unlinking(dump, listed - {name}, name))
        else Goto(s, w, Pruning(dump, listed - {name}))
      case (Unlinking(dump, listed, name), Unlink) => Goto(s, w, Pruning(dump, listed)).(dir := s.dir - {name})
      case (Pruning(dump, listed), DonePruning(token)) => if listed == {} then Goto(s, w, Opening(dump, token)) else s
      case (Opening(dump, token), Open(full)) =>
        // open("wb") truncates a file of that name or creates one
        var name := Tmp(dump, w, token);
        var inode := if name in s.dir then s.dir[name] else s.nextInode;
        AfterOpen(s, w, name, inode, Writing(dump, token, inode, full, 0))
      case (Opening(dump, token), Fail) => Goto(s, w, Failing(dump, token))
      case (Writing(dump, token, inode, full, written), Write(count)) =>
        if written + count <= |full| && inode in s.files then
          Goto(s, w, Writing(dump, token, inode, full, written + count)).(
            files := s.files[inode := File(s.files[inode].content + full[written..written + count], s.now)])
        else s
      case (Writing(dump, token, inode, full, written), Close) =>
        if written == |full| then
          Goto(s, w, Renaming(dump, token, inode, full)).(completed := s.completed + {(dump, full)})
        else s
      case (Writing(dump, token, _, _, _), Fail) => Goto(s, w, Failing(dump, token))
      case (Renaming(dump, token, inode, full), Rename) =>
        var tmp := Tmp(dump, w, token);
        if tmp in s.dir then Goto(s, w, Idle).(dir := (s.dir - {tmp})[Cache(dump) := s.dir[tmp]])
        else Goto(s, w, Failing(dump, token))
      case (Failing(dump, token), CleanUp) => Goto(s, w, Idle).(dir := s.dir - {Tmp(dump, w, token)})
      case (_, Crash) => Goto(s, w, Idle)
      case _ => s
  }

  function Run(s: State, schedule: seq<(nat, Action)>): State
    decreases |schedule|
  {
    if schedule == [] then s
    else Next(Run(s, schedule[..|schedule| - 1]), schedule[|schedule| - 1].0, schedule[|schedule| - 1].1)
  }

  // ---------------------------------------------------------------- invariant

  /** Whose inode it is: the temporary file's inode belongs to the process in its name. */
  ghost predicate Owned(s: State, name: Name) {
    name in s.dir ==>
      && s.dir[name] < s.nextInode && s.dir[name] in s.files
      && (name.Cache? ==> (name.dump, s.files[s.dir[name]].content) in s.completed)
  }

  ghost predicate Distinct(s: State) {
    forall a, b :: a in s.dir && b in s.dir && a != b ==> s.dir[a] != s.dir[b]
  }

  predicate HasInode(pc: Pc) {
    pc.Writing? || pc.Renaming?
  }

  ghost predicate WorkerInv(s: State, w: nat)
    requires w in s.workers
  {
    var pc := s.workers[w];
    HasInode(pc) ==>
      && pc.inode < s.nextInode && pc.inode in s.files
      && (forall name :: name in s.dir && s.dir[name] == pc.inode ==> name == Tmp(pc.dump, w, pc.token))
      && (Tmp(pc.dump, w, pc.token) in s.dir ==> s.dir[Tmp(pc.dump, w, pc.token)] == pc.inode)
      && (pc.Writing? ==> pc.written <= |pc.full| && s.files[pc.inode].content == pc.full[..pc.written])
      && (pc.Renaming? ==> s.files[pc.inode].content == pc.full && (pc.dump, pc.full) in s.completed)
  }

  ghost predicate Separate(s: State) {
    forall v, w :: v in s.workers && w in s.workers && v != w && HasInode(s.workers[v]) && HasInode(s.workers[w]) ==>
                     s.workers[v].inode != s.workers[w].inode
  }

  ghost predicate Inv(s: State) {
    && (forall name :: Owned(s, name))
    && Distinct(s)
    && (forall w :: w in s.workers ==> WorkerInv(s, w))
    && Separate(s)
  }

  lemma InitInv(s: State)
    requires Init(s)
    ensures Inv(s)
  {
  }

  /** A step that only lets go of an inode, and perhaps unlinks a name. */
  lemma LetGo(s: State, w: nat, pc: Pc, names: set<Name>, s': State)
    requires Inv(s) && w in s.workers && !HasInode(pc)
    requires s' == s.(workers := s.workers[w := pc], dir := s.dir - names)
    ensures Inv(s')
  {
    forall v | v in s'.workers
      ensures WorkerInv(s', v)
    {
      if v != w {
        assert WorkerInv(s, v);
      }
    }
    forall name
      ensures Owned(s', name)
    {
      assert Owned(s, name);
    }
  }

  lemma OpenInv(s: State, w: nat, name: Name, inode: nat, pc: Pc, s': State)
    requires Inv(s) && w in s.workers && !HasInode(s.workers[w]) && name.Tmp? && name.pid == w
    requires inode == if name in s.dir then s.dir[name] else s.nextInode
    requires pc.Writing? && pc.dump == name.dump && pc.token == name.token && pc.inode == inode && pc.written == 0
    requires s' == AfterOpen(s, w, name, inode, pc)
    ensures Inv(s')
  {
    assert Owned(s, name);
    forall other
      ensures Owned(s', other)
    {
      assert Owned(s, other);
    }
    forall other | other in s.dir && other != name
      ensures s.dir[other] != inode
    {
      assert Owned(s, other);
    }
    forall v | v in s.workers && v != w && HasInode(s.workers[v])
      ensures s.workers[v].inode != inode
    {
      assert WorkerInv(s, v);
    }
    forall v | v in s'.workers
      ensures WorkerInv(s', v)
    {
      if v != w {
        assert WorkerInv(s, v);
      }
    }
  }

  lemma WriteInv(s: State, w: nat, count: nat, pc: Pc, s': State)
    requires Inv(s) && w in s.workers && s.workers[w].Writing? && s.workers[w].written + count <= |s.workers[w].full|
    requires pc == s.workers[w].(written := s.workers[w].written + count) && pc.inode in s.files
    requires s' == s.(workers := s.workers[w := pc],
                      files := s.files[pc.inode := File(
                        s.files[pc.inode].content + pc.full[s.workers[w].written..pc.written], s.now)])
    ensures Inv(s')
  {
    assert WorkerInv(s, w);
    assert pc.full[..s.workers[w].written] + pc.full[s.workers[w].written..pc.written] == pc.full[..pc.written];
    forall name
      ensures Owned(s', name)
    {
      assert Owned(s, name);
    }
    forall v | v in s'.workers
      ensures WorkerInv(s', v)
    {
      assert WorkerInv(s, v);
    }
  }

  lemma CloseInv(s: State, w: nat, pc: Pc, s': State)
    requires Inv(s) && w in s.workers && s.workers[w].Writing? && s.workers[w].written == |s.workers[w].full|
    requires pc == Renaming(s.workers[w].dump, s.workers[w].token, s.workers[w].inode, s.workers[w].full)
    requires s' == s.(workers := s.workers[w := pc], completed := s.completed + {(pc.dump, pc.full)})
    ensures Inv(s')
  {
    assert WorkerInv(s, w);
    assert pc.full[..|pc.full|] == pc.full;
    forall name
      ensures Owned(s', name)
    {
      assert Owned(s, name);
    }
    forall v | v in s'.workers
      ensures WorkerInv(s', v)
    {
      assert WorkerInv(s, v);
    }
  }

  lemma RenameInv(s: State, w: nat, tmp: Name, dump: string, s': State)
    requires Inv(s) && w in s.workers && s.workers[w].Renaming? && tmp in s.dir && dump == s.workers[w].dump
    requires tmp == Tmp(dump, w, s.workers[w].token)
    requires s' == s.(workers := s.workers[w := Idle], dir := (s.dir - {tmp})[Cache(dump) := s.dir[tmp]])
    ensures Inv(s')
  {
    assert WorkerInv(s, w) && Owned(s, tmp);
    forall name
      ensures Owned(s', name)
    {
      assert Owned(s, name);
    }
    forall v | v in s'.workers
      ensures WorkerInv(s', v)
    {
      if v != w {
        assert WorkerInv(s, v);
      }
    }
  }

  lemma TickInv(s: State, now: nat)
    requires Inv(s)
    ensures Inv(s.(now := now))
  {
    var s' := s.(now := now);
    forall name
      ensures Owned(s', name)
    {
      assert Owned(s, name);
    }
    forall v | v in s'.workers
      ensures WorkerInv(s', v)
    {
      assert WorkerInv(s, v);
    }
  }

  predicate TouchesFiles(s: State, w: nat, pc: Pc, act: Action) {
    match pc
    case Opening(_, _) => act.Open?
    case Writing(_, _, _, _, _) => act.Write? || act.Close?
    case Renaming(dump, token, _, _) => act.Rename? && Tmp(dump, w, token) in s.dir
    case _ => false
  }

  /** The names a step unlinks that touches no file. */
  function Unlinked(pc: Pc, w: nat, act: Action): set<Name> {
    if pc.Unlinking? && act.Unlink? then {pc.name}
    else if pc.Failing? && act.CleanUp? then {Tmp(pc.dump, w, pc.token)} else {}
  }

  lemma ControlMove(s: State, w: nat, act: Action, s': State)
    requires w in s.workers && !act.Tick? && s' == Next(s, w, act) && !TouchesFiles(s, w, s.workers[w], act) && s' != s
    ensures w in s'.workers && !HasInode(s'.workers[w])
    ensures s' == s.(workers := s.workers[w := s'.workers[w]], dir := s.dir - Unlinked(s.workers[w], w, act))
  {
    assert s.dir - {} == s.dir;
  }

  lemma ControlStep(s: State, w: nat, act: Action, s': State)
    requires Inv(s) && w in s.workers && !act.Tick? && s' == Next(s, w, act) && !TouchesFiles(s, w, s.workers[w], act)
    ensures Inv(s')
  {
    if s' != s {
      ControlMove(s, w, act, s');
      LetGo(s, w, s'.workers[w], Unlinked(s.workers[w], w, act), s');
    }
  }

  lemma StepInv(s: State, w: nat, act: Action)
    requires Inv(s)
    ensures Inv(Next(s, w, act))
  {
    var s' := Next(s, w, act);
    if act.Tick? {
      TickInv(s, s'.now);
    } else if w in s.workers {
      var pc := s.workers[w];
      if !TouchesFiles(s, w, pc, act) {
        ControlStep(s, w, act, s');
      } else if pc.Opening? {
        var name := Tmp(pc.dump, w, pc.token);
        OpenInv(s, w, name, if name in s.dir then s.dir[name] else s.nextInode, s'.workers[w], s');
      } else if act.Write? {
        if pc.written + act.count <= |pc.full| && pc.inode in s.files {
          WriteInv(s, w, act.count, s'.workers[w], s');
        }
      } else if act.Close? {
        if pc.written == |pc.full| {
          CloseInv(s, w, s'.workers[w], s');
        }
      } else {
        RenameInv(s, w, Tmp(pc.dump, w, pc.token), pc.dump, s');
      }
    }
  }

  lemma {:induction false} RunInv(s: State, schedule: seq<(nat, Action)>)
    requires Init(s)
    ensures Inv(Run(s, schedule))
    decreases |schedule|
  {
    if schedule == [] {
      InitInv(s);
    } else {
      var last := |schedule| - 1;
      RunInv(s, schedule[..last]);
      StepInv(Run(s, schedule[..last]), schedule[last].0, schedule[last].1);
    }
  }

  /**
    Whatever the workers do and however their steps interleave, a cache file that exists holds the whole
    output of one completed download of its dump.
  */
  lemma CacheIsWhole(s: State, schedule: seq<(nat, Action)>, dump: string)
    requires Init(s)
    ensures var t := Run(s, schedule);
            Cache(dump) in t.dir ==>
              t.dir[Cache(dump)] in t.files && (dump, t.files[t.dir[Cache(dump)]].content) in t.completed
  {
    RunInv(s, schedule);
    assert Owned(Run(s, schedule), Cache(dump));
  }

  /**
    Temporary files never alias: two names never share an inode, and an inode being written is reachable
    by its writer's own temporary name only, so no reader ever sees a file while it grows.
  */
  lemma WritersArePrivate(s: State, schedule: seq<(nat, Action)>, w: nat, name: Name)
    requires Init(s)
    ensures var t := Run(s, schedule);
            w in t.workers && t.workers[w].Writing? && name in t.dir && t.dir[name] == t.workers[w].inode ==>
              name == Tmp(t.workers[w].dump, w, t.workers[w].token)
  {
    RunInv(s, schedule);
    var t := Run(s, schedule);
    if w in t.workers {
      assert WorkerInv(t, w);
    }
  }
}
