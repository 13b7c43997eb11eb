/**
  Temporary files and pruning: what a pruner removes, why a download that keeps writing keeps its file, and what a
  failed one leaves behind.
*/
module DownloadTemps {
  import opened DownloadRace
  import opened DownloadPruning

  /** A listed name that is still there is removed if and only if it is a cache file or its last write is old enough. */
  lemma LookDecides(s: State, w: nat, name: Name)
    requires Inv(s) && w in s.workers && s.workers[w].Pruning? && name in s.workers[w].listed && name in s.dir
    ensures s.dir[name] in s.files
    ensures var pc := s.workers[w];
            var looked := Goto(s, w, Pruning(pc.dump, pc.listed - {name}));
            Next(Next(s, w, Look(name)), w, Unlink) ==
            if name.Cache? || s.files[s.dir[name]].mtime + 900 <= s.now then looked.(dir := s.dir - {name}) else looked
  {
    var pc := s.workers[w];
    assert Owned(s, name);
    if name.Cache? || s.files[s.dir[name]].mtime + 900 <= s.now {
      var t := Next(s, w, Look(name));
      assert t == Goto(s, w, Unlinking(pc.dump, pc.listed - {name}, name));
      assert t.workers[w := Pruning(pc.dump, pc.listed - {name})] ==
             s.workers[w := Pruning(pc.dump, pc.listed - {name})];
    }
  }

  /** A cache file, or a file whose last write is a quarter of an hour ago. */
  ghost predicate Old(s: State, name: Name) {
    name.Cache? || (name in s.dir && s.dir[name] in s.files && s.files[s.dir[name]].mtime + 900 <= s.now)
  }

  /**
    How far a worker that prunes undisturbed from s on has come: what is gone was old, and what is old is still due.
  */
  ghost predicate Pruned(s: State, w: nat, t: State) {
    && t.files == s.files && t.now == s.now && w in t.workers
    && (forall name :: name in t.dir ==> name in s.dir && t.dir[name] == s.dir[name])
    && (forall name :: name in s.dir && name !in t.dir ==> Old(s, name))
    && match t.workers[w]
       case Listing(_) => true
       case Pruning(_, listed) => forall name :: name in t.dir && Old(s, name) ==> name in listed
       case Unlinking(_, listed, gone) =>
         Old(s, gone) && forall name :: name in t.dir && Old(s, name) ==> name in listed || name == gone
       case Opening(_, _) => forall name :: name in t.dir ==> !Old(s, name)
       case _ => false
  }

  predicate PruneAction(act: Action) {
    act.List? || act.Look? || act.Unlink? || act.DonePruning?
  }

  lemma PruneStep(s: State, w: nat, t: State, act: Action, t': State)
    requires Inv(s) && Pruned(s, w, t) && PruneAction(act) && t' == Next(t, w, act)
    ensures Pruned(s, w, t')
  {
    forall name | name in s.dir
      ensures s.dir[name] in s.files
    {
      assert Owned(s, name);
    }
  }

  lemma {:induction false} PruneSteps(s: State, w: nat, schedule: seq<(nat, Action)>)
    requires Inv(s) && w in s.workers && s.workers[w].Listing?
    requires forall i :: 0 <= i < |schedule| ==> schedule[i].0 == w && PruneAction(schedule[i].1)
    ensures Pruned(s, w, Run(s, schedule))
    decreases |schedule|
  {
    if schedule != [] {
      var last := |schedule| - 1;
      PruneSteps(s, w, schedule[..last]);
      PruneStep(s, w, Run(s, schedule[..last]), schedule[last].1, Run(s, schedule));
    }
  }

  /** A worker that prunes undisturbed leaves exactly the temporary files written within the last quarter of an hour. */
  lemma PruneAlone(s: State, w: nat, schedule: seq<(nat, Action)>, name: Name)
    requires Inv(s) && w in s.workers && s.workers[w].Listing?
    requires forall i :: 0 <= i < |schedule| ==> schedule[i].0 == w && PruneAction(schedule[i].1)
    requires var t := Run(s, schedule); w in t.workers && t.workers[w].Opening?
    ensures name in Run(s, schedule).dir <==>
            name in s.dir && name.Tmp? && s.dir[name] in s.files && s.now < s.files[s.dir[name]].mtime + 900
    ensures name in Run(s, schedule).dir ==> Run(s, schedule).dir[name] == s.dir[name]
    ensures Run(s, schedule).files == s.files
  {
    PruneSteps(s, w, schedule);
    assert Owned(s, name);
  }

  // ---------------------------------------------------------------- a writer that keeps writing

  /** The worker is in one and the same download attempt: this temporary file, this inode, this output. */
  predicate InAttempt(s: State, w: nat, name: Name, inode: nat, full: Bytes) {
    && w in s.workers && HasInode(s.workers[w])
    && Tmp(s.workers[w].dump, w, s.workers[w].token) == name
    && s.workers[w].inode == inode && s.workers[w].full == full
  }

  /** The last write to the inode is less than a quarter of an hour ago. */
  predicate Young(s: State, inode: nat) {
    inode in s.files && s.now < s.files[inode].mtime + 900
  }

  ghost predicate AboutToUnlink(s: State, name: Name) {
    exists v :: v in s.workers && s.workers[v].Unlinking? && s.workers[v].name == name
  }

  ghost predicate Safe(s: State, name: Name) {
    name in s.dir && !AboutToUnlink(s, name)
  }

  lemma NotUnlinked(s: State, v: nat, act: Action, w: nat, name: Name, inode: nat, full: Bytes)
    requires Inv(s) && InAttempt(s, w, name, inode, full) && Safe(s, name) && v in s.workers && !act.Tick?
    requires InAttempt(Next(s, v, act), w, name, inode, full)
    ensures name in Next(s, v, act).dir
  {
    var pc := s.workers[v];
    assert pc.Unlinking? ==> pc.name != name;
  }

  lemma NotChosen(s: State, v: nat, act: Action, w: nat, name: Name, inode: nat, full: Bytes)
    requires Inv(s) && InAttempt(s, w, name, inode, full) && Young(s, inode) && Safe(s, name) && v in s.workers
    requires !act.Tick?
    ensures var pc := Next(s, v, act).workers[v]; pc.Unlinking? ==> pc.name != name
  {
    assert WorkerInv(s, w);
    assert !Prunable(s, name);
    assert s.workers[v].Unlinking? ==> s.workers[v].name != name;
  }

  lemma OthersStay(s: State, v: nat, act: Action)
    requires v in s.workers && !act.Tick?
    ensures var t := Next(s, v, act); t.workers.Keys == s.workers.Keys && t.workers == s.workers[v := t.workers[v]]
  {
    assert s.workers[v := s.workers[v]] == s.workers;
  }

  lemma SafeStep(s: State, v: nat, act: Action, w: nat, name: Name, inode: nat, full: Bytes)
    requires Inv(s) && InAttempt(s, w, name, inode, full) && Young(s, inode) && Safe(s, name)
    requires InAttempt(Next(s, v, act), w, name, inode, full)
    ensures Safe(Next(s, v, act), name)
  {
    if !act.Tick? && v in s.workers {
      NotUnlinked(s, v, act, w, name, inode, full);
      NotChosen(s, v, act, w, name, inode, full);
      OthersStay(s, v, act);
    }
  }

  /** The state after the first i steps. */
  function Upto(s0: State, schedule: seq<(nat, Action)>, i: nat): State
    requires i <= |schedule|
  {
    Run(s0, schedule[..i])
  }

  lemma NextStep(s0: State, schedule: seq<(nat, Action)>, i: nat)
    requires i < |schedule|
    ensures Upto(s0, schedule, i + 1) == Next(Upto(s0, schedule, i), schedule[i].0, schedule[i].1)
  {
    assert schedule[..i + 1][..i] == schedule[..i];
  }

  /** Step j is the worker's opening of its file, or one of its writes. */
  ghost predicate WritesAt(s0: State, schedule: seq<(nat, Action)>, j: nat, w: nat)
    requires j < |schedule|
  {
    var s, act := Upto(s0, schedule, j), schedule[j].1;
    && schedule[j].0 == w && w in s.workers
    && ((act.Open? && s.workers[w].Opening?) ||
        (act.Write? && s.workers[w].Writing? && s.workers[w].written + act.count <= |s.workers[w].full|))
  }

  /** Less than a quarter of an hour before the first i steps are done, and not before step k, the worker wrote. */
  ghost predicate WroteLately(s0: State, schedule: seq<(nat, Action)>, k: nat, i: nat, w: nat)
    requires i <= |schedule|
  {
    exists j: nat {:trigger WritesAt(s0, schedule, j, w)} ::
      k <= j < i && WritesAt(s0, schedule, j, w) && Upto(s0, schedule, i).now < Upto(s0, schedule, j).now + 900
  }

  ghost predicate PromptAt(
    s0: State, schedule: seq<(nat, Action)>, k: nat, i: nat, w: nat, name: Name, inode: nat, full: Bytes)
    requires i <= |schedule|
  {
    InAttempt(Upto(s0, schedule, i), w, name, inode, full) && WroteLately(s0, schedule, k, i, w)
  }

  /** After the opening at step k and before step m the worker is in the attempt, and never too long without a write. */
  ghost predicate Prompt(
    s0: State, schedule: seq<(nat, Action)>, k: nat, m: nat, w: nat, name: Name, inode: nat, full: Bytes)
    requires m <= |schedule|
  {
    forall i: nat {:trigger PromptAt(s0, schedule, k, i, w, name, inode, full)} ::
      k < i < m ==> PromptAt(s0, schedule, k, i, w, name, inode, full)
  }

  /** The inode was last written at this time or later. */
  predicate Stamped(s: State, inode: nat, time: nat) {
    inode in s.files && time <= s.files[inode].mtime && time <= s.now
  }

  lemma WriteStamps(s0: State, schedule: seq<(nat, Action)>, j: nat, w: nat, name: Name, inode: nat, full: Bytes)
    requires Init(s0) && j < |schedule| && WritesAt(s0, schedule, j, w)
    requires InAttempt(Upto(s0, schedule, j + 1), w, name, inode, full)
    ensures Stamped(Upto(s0, schedule, j + 1), inode, Upto(s0, schedule, j).now)
  {
    RunInv(s0, schedule[..j]);
    NextStep(s0, schedule, j);
    assert WorkerInv(Upto(s0, schedule, j), w);
  }

  lemma StampStays(s: State, v: nat, act: Action, inode: nat, time: nat)
    requires Stamped(s, inode, time)
    ensures Stamped(Next(s, v, act), inode, time)
  {
  }

  lemma {:induction false} StampedAlong(s0: State, schedule: seq<(nat, Action)>, j: nat, i: nat, inode: nat, time: nat)
    requires j <= i <= |schedule| && Stamped(Upto(s0, schedule, j), inode, time)
    ensures Stamped(Upto(s0, schedule, i), inode, time)
    decreases i
  {
    if j < i {
      StampedAlong(s0, schedule, j, i - 1, inode, time);
      NextStep(s0, schedule, i - 1);
      StampStays(Upto(s0, schedule, i - 1), schedule[i - 1].0, schedule[i - 1].1, inode, time);
    }
  }

  lemma PromptIsYoung(
    s0: State, schedule: seq<(nat, Action)>, k: nat, i: nat, m: nat, w: nat, name: Name, inode: nat, full: Bytes)
    requires Init(s0) && k < i < m <= |schedule| && Prompt(s0, schedule, k, m, w, name, inode, full)
    ensures InAttempt(Upto(s0, schedule, i), w, name, inode, full) && Young(Upto(s0, schedule, i), inode)
  {
    assert PromptAt(s0, schedule, k, i, w, name, inode, full);
    var j: nat :|
      k <= j < i && WritesAt(s0, schedule, j, w) && Upto(s0, schedule, i).now < Upto(s0, schedule, j).now + 900;
    assert PromptAt(s0, schedule, k, j + 1, w, name, inode, full);
    WriteStamps(s0, schedule, j, w, name, inode, full);
    StampedAlong(s0, schedule, j + 1, i, inode, Upto(s0, schedule, j).now);
  }

  lemma {:induction false} SafeAlong(
    s0: State, schedule: seq<(nat, Action)>, k: nat, m: nat, w: nat, name: Name, inode: nat, full: Bytes)
    requires Init(s0) && k < m <= |schedule| && Safe(Upto(s0, schedule, k + 1), name)
    requires Prompt(s0, schedule, k, m, w, name, inode, full)
    requires InAttempt(Upto(s0, schedule, m), w, name, inode, full)
    ensures Safe(Upto(s0, schedule, m), name)
    decreases m
  {
    if m > k + 1 {
      PromptIsYoung(s0, schedule, k, m - 1, m, w, name, inode, full);
      SafeAlong(s0, schedule, k, m - 1, w, name, inode, full);
      SafeOneMore(s0, schedule, m - 1, Upto(s0, schedule, m - 1), w, name, inode, full);
    }
  }

  lemma SafeOneMore(
    s0: State, schedule: seq<(nat, Action)>, i: nat, s: State, w: nat, name: Name, inode: nat, full: Bytes)
    requires Init(s0) && i < |schedule| && s == Upto(s0, schedule, i) && Safe(s, name)
    requires InAttempt(s, w, name, inode, full) && Young(s, inode)
    requires InAttempt(Upto(s0, schedule, i + 1), w, name, inode, full)
    ensures Safe(Upto(s0, schedule, i + 1), name)
  {
    RunInv(s0, schedule[..i]);
    NextStep(s0, schedule, i);
    SafeStep(s, schedule[i].0, schedule[i].1, w, name, inode, full);
  }

  // A name that was never in the directory is in no listing.

  lemma UnlistedMove(s: State, v: nat, act: Action, name: Name)
    requires v in s.workers && !act.Tick? && !WillVisit(s.workers[v], name) && name !in s.dir
    ensures !WillVisit(Next(s, v, act).workers[v], name)
  {
  }

  lemma {:induction false} NeverListed(s0: State, schedule: seq<(nat, Action)>, k: nat, name: Name)
    requires Init(s0) && k <= |schedule| && forall i :: 0 <= i < k ==> name !in Upto(s0, schedule, i).dir
    ensures !Visited(Upto(s0, schedule, k), name)
    decreases k
  {
    if k > 0 {
      NeverListed(s0, schedule, k - 1, name);
      NextStep(s0, schedule, k - 1);
      var s := Upto(s0, schedule, k - 1);
      var (v, act) := schedule[k - 1];
      if !act.Tick? && v in s.workers {
        assert !WillVisit(s.workers[v], name);
        UnlistedMove(s, v, act, name);
        OthersStay(s, v, act);
      }
    }
  }

  lemma OpensSafely(s: State, w: nat, pc: Pc, full: Bytes, name: Name)
    requires w in s.workers && s.workers[w] == pc && pc.Opening? && name == Tmp(pc.dump, w, pc.token)
    requires !AboutToUnlink(s, name)
    ensures Safe(Next(s, w, Open(full)), name)
  {
    var t := Next(s, w, Open(full));
    forall v | v in t.workers && t.workers[v].Unlinking?
      ensures t.workers[v].name != name
    {
      assert v in s.workers && s.workers[v] == t.workers[v];
    }
  }

  /**
    In every run: a download that lets no quarter of an hour pass without a write, and whose name nobody was about to
    unlink when it opened the file, still finds that name when it renames, and the rename puts its whole output in
    place.
  */
  lemma PromptWriterRenames(
    s0: State, schedule: seq<(nat, Action)>, k: nat, w: nat, pc: Pc, name: Name, inode: nat, full: Bytes)
    requires Init(s0) && k < |schedule| && schedule[k] == (w, Open(full))
    requires w in Upto(s0, schedule, k).workers && Upto(s0, schedule, k).workers[w] == pc && pc.Opening?
    requires name == Tmp(pc.dump, w, pc.token) && !AboutToUnlink(Upto(s0, schedule, k), name)
    requires Prompt(s0, schedule, k, |schedule|, w, name, inode, full)
    requires InAttempt(Run(s0, schedule), w, name, inode, full) && Run(s0, schedule).workers[w].Renaming?
    ensures var s, t := Run(s0, schedule), Next(Run(s0, schedule), w, Rename);
            && name in s.dir && t.workers == s.workers[w := Idle]
            && t.dir == (s.dir - {name})[Cache(pc.dump) := inode]
            && inode in t.files && t.files[inode].content == full
  {
    NextStep(s0, schedule, k);
    OpensSafely(Upto(s0, schedule, k), w, pc, full, name);
    assert schedule[..|schedule|] == schedule;
    SafeAlong(s0, schedule, k, |schedule|, w, name, inode, full);
    RunInv(s0, schedule);
    RenameInPlace(Run(s0, schedule), w, name, inode, full);
  }

  /** Nobody is about to unlink a name that was never in the directory, as with a token that was never drawn before. */
  lemma NewNameIsSafe(s0: State, schedule: seq<(nat, Action)>, k: nat, name: Name)
    requires Init(s0) && k <= |schedule| && forall i :: 0 <= i < k ==> name !in Upto(s0, schedule, i).dir
    ensures !AboutToUnlink(Upto(s0, schedule, k), name)
  {
    NeverListed(s0, schedule, k, name);
    var s := Upto(s0, schedule, k);
    forall v | v in s.workers && s.workers[v].Unlinking?
      ensures s.workers[v].name != name
    {
      assert !WillVisit(s.workers[v], name);
    }
  }

  lemma LosesFile(s: State, w: nat, v: nat, full: Bytes, name: Name, pc: Pc, t: State)
    requires w in s.workers && v in s.workers && s.workers[w].Opening? && s.workers[v].Unlinking?
    requires name == Tmp(s.workers[w].dump, w, s.workers[w].token) && s.workers[v].name == name
    requires t == Next(Next(s, w, Open(full)), v, Unlink)
    requires pc == Writing(name.dump, name.token, if name in s.dir then s.dir[name] else s.nextInode, full, 0)
    ensures w in t.workers && t.workers[w] == pc && pc.inode in t.files && name !in t.dir && t.now == s.now
  {
  }

  lemma FailsToRename(s: State, w: nat, pc: Pc, name: Name)
    requires w in s.workers && s.workers[w] == pc && pc.Writing? && pc.written == 0 && pc.inode in s.files
    requires name == Tmp(pc.dump, w, pc.token) && name !in s.dir
    ensures var t := Next(Next(Next(s, w, Write(|pc.full|)), w, Close), w, Rename);
            w in t.workers && t.workers[w] == Failing(pc.dump, pc.token)
  {
    var t := Next(s, w, Write(|pc.full|));
    assert t.workers[w] == pc.(written := |pc.full|) && t.dir == s.dir;
    t := Next(t, w, Close);
    assert t.workers[w] == Renaming(pc.dump, pc.token, pc.inode, pc.full) && t.dir == s.dir;
  }

  /**
    That condition is needed: if somebody is about to unlink the name, however prompt the writer, its rename can fail.
  */
  lemma ReusedNameCanFail(s: State, w: nat, full: Bytes, name: Name) returns (v: nat)
    requires w in s.workers && s.workers[w].Opening? && name == Tmp(s.workers[w].dump, w, s.workers[w].token)
    requires AboutToUnlink(s, name)
    ensures var bare := Next(Next(s, w, Open(full)), v, Unlink);
            var t := Next(Next(Next(bare, w, Write(|full|)), w, Close), w, Rename);
            w in t.workers && t.workers[w] == Failing(name.dump, name.token)
  {
    v :| v in s.workers && s.workers[v].Unlinking? && s.workers[v].name == name;
    var inode := if name in s.dir then s.dir[name] else s.nextInode;
    var bare := Next(Next(s, w, Open(full)), v, Unlink);
    LosesFile(s, w, v, full, name, Writing(name.dump, name.token, inode, full, 0), bare);
    FailsToRename(bare, w, Writing(name.dump, name.token, inode, full, 0), name);
  }

  lemma RenameInPlace(s: State, w: nat, name: Name, inode: nat, full: Bytes)
    requires Inv(s) && InAttempt(s, w, name, inode, full) && s.workers[w].Renaming? && name in s.dir
    ensures var t := Next(s, w, Rename);
            && t.workers == s.workers[w := Idle]
            && t.dir == (s.dir - {name})[Cache(name.dump) := inode]
            && inode in t.files && t.files[inode].content == full
  {
    assert WorkerInv(s, w);
  }

  // ---------------------------------------------------------------- a download that fails

  /** A download that fails, for lack of a response, of data or of its file, removes its temporary name only. */
  lemma FailedDownload(s: State, w: nat, pc: Pc)
    requires w in s.workers && s.workers[w] == pc && (pc.Opening? || HasInode(pc))
    requires pc.Renaming? ==> Tmp(pc.dump, w, pc.token) !in s.dir
    ensures Next(Next(s, w, if pc.Renaming? then Rename else Fail), w, CleanUp) ==
            s.(workers := s.workers[w := Idle], dir := s.dir - {Tmp(pc.dump, w, pc.token)})
  {
    var t := Next(s, w, if pc.Renaming? then Rename else Fail);
    assert t == Goto(s, w, Failing(pc.dump, pc.token));
    assert t.workers[w := Idle] == s.workers[w := Idle];
  }
}
