/**
  Reconciliation of the recorded migrations with the migration files.  The record and the schema are the
  database's; the comparison loop does not stop at a mismatch, and what it keeps is stated as it computes it.
*/
module Migrations {
  import opened Numbers

  datatype Migration = Migration(name: string, sha: string, contents: string)

  /** One row of the migrations table, as selected. */
  datatype Applied = Applied(name: string, sha: string)

  function Row(f: Migration): Applied {
    Applied(f.name, f.sha)
  }

  function Rows(files: seq<Migration>): (r: seq<Applied>)
    ensures |r| == |files| && forall i :: 0 <= i < |r| ==> r[i] == Row(files[i])
  {
    seq(|files|, i requires 0 <= i < |files| => Row(files[i]))
  }

  predicate Matches(a: Applied, f: Migration) {
    a == Row(f)
  }

  ghost predicate DistinctNames(rows: seq<Applied>) {
    forall i, j :: 0 <= i < j < |rows| ==> rows[i].name != rows[j].name
  }

  ghost predicate DistinctHashes(files: seq<Migration>) {
    forall i, j :: 0 <= i < j < |files| ==> files[i].sha != files[j].sha
  }

  // ---------------------------------------------------------------- what the comparison loop computes

  /** The last position below `n` where record and files differ, or -1. */
  function LastMismatch(applied: seq<Applied>, files: seq<Migration>, n: nat): (p: int)
    requires n <= |applied| && n <= |files|
    ensures -1 <= p < n
    ensures p >= 0 ==> !Matches(applied[p], files[p])
    ensures forall i :: p < i < n ==> Matches(applied[i], files[i])
  {
    if n == 0 then -1
    else if Matches(applied[n - 1], files[n - 1]) then LastMismatch(applied, files, n - 1)
    else n - 1
  }

  function Kept(applied: seq<Applied>, files: seq<Migration>, n: nat): set<string>
    requires n <= |applied| && n <= |files|
  {
    set i | LastMismatch(applied, files, n) < i < n :: applied[i].sha
  }

  function Zipped(applied: seq<Applied>, files: seq<Migration>): nat {
    Min(|applied|, |files|)
  }

  /** The last mismatch over all compared positions. */
  function Broken(applied: seq<Applied>, files: seq<Migration>): int {
    LastMismatch(applied, files, Zipped(applied, files))
  }

  function AlreadyApplied(applied: seq<Applied>, files: seq<Migration>): set<string> {
    Kept(applied, files, Zipped(applied, files))
  }

  /** The files executed: those whose hash was not kept, in order. */
  function Pending(files: seq<Migration>, already: set<string>): seq<Migration>
    decreases |files|
  {
    if files == [] then []
    else
      var before := Pending(files[..|files| - 1], already);
      if files[|files| - 1].sha in already then before else before + [files[|files| - 1]]
  }

  function Executed(applied: seq<Applied>, files: seq<Migration>): seq<Migration> {
    Pending(files, AlreadyApplied(applied, files))
  }

  /** The record afterwards: the old one unless a mismatch deleted it, then what was executed. */
  function Recorded(applied: seq<Applied>, files: seq<Migration>): seq<Applied> {
    (if Broken(applied, files) < 0 then applied else []) + Rows(Executed(applied, files))
  }

  /** The schema afterwards: what it held unless it was dropped, then what was executed. */
  function Effects(applied: seq<Applied>, schema: seq<Migration>, files: seq<Migration>): seq<Migration> {
    (if Broken(applied, files) < 0 then schema else []) + Executed(applied, files)
  }

  // ---------------------------------------------------------------- the database

  class Database {
    var records: seq<Applied>
    /** The migrations whose effects the schema holds: everything executed since it was last dropped. */
    var schema: seq<Migration>

    constructor (rows: seq<Applied>, effects: seq<Migration>)
      ensures records == rows && schema == effects
    {
      records, schema := rows, effects;
    }

    /** The comparison loop: a mismatch forgets the matches so far and drops record and schema. */
    method Compare(files: seq<Migration>) returns (already: set<string>)
      modifies this
      ensures already == AlreadyApplied(old(records), files)
      ensures if Broken(old(records), files) < 0 then records == old(records) && schema == old(schema)
              else records == [] && schema == []
    {
      var applied := records;
      already := {};
      for n := 0 to Zipped(applied, files)
        invariant already == Kept(applied, files, n)
        invariant if LastMismatch(applied, files, n) < 0 then records == applied && schema == old(schema)
                  else records == [] && schema == []
      {
        if Matches(applied[n], files[n]) {
          already := already + {applied[n].sha};
        } else {
          already := {};
          records, schema := [], [];
        }
      }
    }

    method SetupSchema(files: seq<Migration>) returns (executed: seq<Migration>)
      modifies this
      ensures executed == Executed(old(records), files)
      ensures records == Recorded(old(records), files)
      ensures schema == Effects(old(records), old(schema), files)
    {
      var already := Compare(files);
      executed := [];
      ghost var rows, effects := records, schema;
      for n := 0 to |files|
        invariant executed == Pending(files[..n], already)
        invariant records == rows + Rows(executed) && schema == effects + executed
      {
        assert files[..n + 1][..n] == files[..n];
        if files[n].sha !in already {
          executed := executed + [files[n]];
          schema := schema + [files[n]];
          records := records + [Row(files[n])];
        }
      }
      assert files[..|files|] == files;
    }
  }

  // ---------------------------------------------------------------- which files are executed

  /** The files below n without those strictly between p and m. */
  function Without(files: seq<Migration>, p: int, m: int, n: nat): seq<Migration>
    requires -1 <= p <= m <= |files| && 0 <= p + 1 <= m && n <= |files|
  {
    if n <= p + 1 then files[..n] else if n <= m then files[..p + 1] else files[..p + 1] + files[m..n]
  }

  lemma WithoutStep(files: seq<Migration>, p: int, m: int, n: nat)
    requires -1 <= p <= m <= |files| && 0 <= p + 1 <= m && n < |files|
    ensures Without(files, p, m, n + 1)
         == Without(files, p, m, n) + if p < n < m then [] else [files[n]]
  {
    if n >= m {
      assert files[m..n + 1] == files[m..n] + [files[n]];
    } else {
      assert files[..n + 1] == files[..n] + [files[n]];
    }
  }

  lemma {:induction false} PendingRange(files: seq<Migration>, already: set<string>, p: int, m: int, n: nat)
    requires -1 <= p <= m <= |files| && 0 <= p + 1 <= m && n <= |files|
    requires forall i :: 0 <= i < |files| ==> (files[i].sha in already <==> p < i < m)
    ensures Pending(files[..n], already) == Without(files, p, m, n)
    decreases n
  {
    if n > 0 {
      PendingRange(files, already, p, m, n - 1);
      assert files[..n][..n - 1] == files[..n - 1];
      WithoutStep(files, p, m, n - 1);
    }
  }

  /** With distinct hashes the kept hashes are those of the files after the last mismatch that were compared. */
  lemma KeptHashes(applied: seq<Applied>, files: seq<Migration>, i: int)
    requires DistinctHashes(files) && 0 <= i < |files|
    ensures files[i].sha in AlreadyApplied(applied, files) <==> Broken(applied, files) < i < Zipped(applied, files)
  {
    var p, m := Broken(applied, files), Zipped(applied, files);
    if p < i < m {
      assert applied[i].sha == files[i].sha;
    }
    if files[i].sha in AlreadyApplied(applied, files) {
      var j :| p < j < m && applied[j].sha == files[i].sha;
      assert files[j].sha == files[i].sha;
    }
  }

  /** Executed: the files up to the last mismatch, and those past the end of the record. */
  lemma ExecutedIs(applied: seq<Applied>, files: seq<Migration>)
    requires DistinctHashes(files)
    ensures Executed(applied, files) == files[..Broken(applied, files) + 1] + files[Zipped(applied, files)..]
  {
    var p, m := Broken(applied, files), Zipped(applied, files);
    forall i | 0 <= i < |files|
      ensures files[i].sha in AlreadyApplied(applied, files) <==> p < i < m
    {
      KeptHashes(applied, files, i);
    }
    PendingRange(files, AlreadyApplied(applied, files), p, m, |files|);
    assert files[..|files|] == files;
  }

  // ---------------------------------------------------------------- the record afterwards

  lemma RowsJoin(applied: seq<Applied>, files: seq<Migration>, rest: seq<Migration>)
    requires |applied| <= |files| && rest == files[|applied|..]
    requires forall i :: 0 <= i < |applied| ==> applied[i] == Row(files[i])
    ensures applied + Rows(rest) == Rows(files)
  {
    var joined := applied + Rows(rest);
    forall i | 0 <= i < |files|
      ensures joined[i] == Row(files[i])
    {
      if i >= |applied| {
        assert rest[i - |applied|] == files[i];
      }
    }
  }

  lemma NoMismatch(applied: seq<Applied>, files: seq<Migration>)
    requires DistinctHashes(files) && Broken(applied, files) < 0
    ensures Recorded(applied, files) == if |applied| <= |files| then Rows(files) else applied
  {
    ExecutedIs(applied, files);
    var rest := files[Zipped(applied, files)..];
    assert files[..0] + rest == rest;
    if |applied| <= |files| {
      RowsJoin(applied, files, rest);
    } else {
      assert applied + Rows(rest) == applied;
    }
  }

  lemma WithMismatch(applied: seq<Applied>, files: seq<Migration>, p: int, m: int)
    requires DistinctHashes(files) && p == Broken(applied, files) && p >= 0 && m == Zipped(applied, files)
    ensures Recorded(applied, files) == Rows(files[..p + 1] + files[m..])
  {
    ExecutedIs(applied, files);
  }

  /**
    The record ends equal to the file list exactly when the record was no longer than the list and agreed
    with it, or when its last compared entry was itself a mismatch.
  */
  lemma RecordIff(applied: seq<Applied>, files: seq<Migration>)
    requires DistinctHashes(files)
    ensures Recorded(applied, files) == Rows(files)
       <==> if Broken(applied, files) < 0 then |applied| <= |files|
            else Broken(applied, files) == Zipped(applied, files) - 1
  {
    var p, m := Broken(applied, files), Zipped(applied, files);
    if p < 0 {
      NoMismatch(applied, files);
    } else {
      WithMismatch(applied, files, p, m);
      if p == m - 1 {
        assert files[..p + 1] + files[m..] == files;
      } else {
        assert |Rows(files[..p + 1] + files[m..])| < |files|;
      }
    }
  }

  /** A record that is a prefix of the files: each missing file is executed once, in order, and no other. */
  lemma PrefixIsCompleted(files: seq<Migration>, k: nat)
    requires DistinctHashes(files) && k <= |files|
    ensures Broken(Rows(files[..k]), files) < 0
    ensures Executed(Rows(files[..k]), files) == files[k..]
    ensures Recorded(Rows(files[..k]), files) == Rows(files)
  {
    var applied := Rows(files[..k]);
    ExecutedIs(applied, files);
    NoMismatch(applied, files);
    assert files[..0] + files[k..] == files[k..];
  }

  /** What is left after a mismatch at p is the files with p + 1 .. m - 1 taken out. */
  lemma LeftOver(files: seq<Migration>, p: int, m: int, rows: seq<Applied>, i: int)
    requires 0 <= p < m <= |files| && rows == Rows(files[..p + 1] + files[m..]) && 0 <= i < |rows|
    ensures rows[i] == Row(files[if i <= p then i else i + (m - p - 1)])
  {
  }

  lemma SkipShows(files: seq<Migration>, p: int, m: int, rows: seq<Applied>)
    requires DistinctHashes(files) && 0 <= p && p + 1 < m < |files| && rows == Rows(files[..p + 1] + files[m..])
    ensures Broken(rows, files) == |rows| - 1 == Zipped(rows, files) - 1
  {
    var last := |rows| - 1;
    LeftOver(files, p, m, rows, last);
    assert files[last].sha != files[last + (m - p - 1)].sha;
    assert !Matches(rows[last], files[last]);
  }

  lemma PrefixShows(files: seq<Migration>, p: int, m: int, rows: seq<Applied>)
    requires 0 <= p < m <= |files| && (p + 1 == m || m == |files|) && rows == Rows(files[..p + 1] + files[m..])
    ensures Broken(rows, files) < 0 && |rows| <= |files|
  {
    forall i | 0 <= i < |rows|
      ensures Matches(rows[i], files[i])
    {
      LeftOver(files, p, m, rows, i);
    }
  }

  /** After a mismatch that left later matches unexecuted, the next run puts the record right. */
  lemma SecondRun(files: seq<Migration>, p: int, m: int, rows: seq<Applied>)
    requires DistinctHashes(files) && 0 <= p < m <= |files| && rows == Rows(files[..p + 1] + files[m..])
    ensures Recorded(rows, files) == Rows(files)
  {
    if p + 1 < m && m < |files| {
      SkipShows(files, p, m, rows);
    } else {
      PrefixShows(files, p, m, rows);
    }
    RecordIff(rows, files);
  }

  /** Two runs always end with the record equal to the file list, except when the record agrees and is longer. */
  lemma TwoRunsConverge(applied: seq<Applied>, files: seq<Migration>)
    requires DistinctHashes(files)
    ensures Recorded(Recorded(applied, files), files) == Rows(files)
       <==> !(Broken(applied, files) < 0 && |applied| > |files|)
  {
    var p, m := Broken(applied, files), Zipped(applied, files);
    if p < 0 {
      NoMismatch(applied, files);
      if |applied| <= |files| {
        assert files[..|files|] == files;
        PrefixIsCompleted(files, |files|);
      }
    } else {
      WithMismatch(applied, files, p, m);
      SecondRun(files, p, m, Recorded(applied, files));
    }
  }

  lemma RowsAppend(a: seq<Migration>, b: seq<Migration>)
    ensures Rows(a + b) == Rows(a) + Rows(b)
  {
  }

  /** A record that lists what the schema holds goes on doing so. */
  lemma EffectsMatch(applied: seq<Applied>, schema: seq<Migration>, files: seq<Migration>)
    requires Rows(schema) == applied
    ensures Rows(Effects(applied, schema, files)) == Recorded(applied, files)
  {
    RowsAppend(if Broken(applied, files) < 0 then schema else [], Executed(applied, files));
  }

  /** Two starts leave a schema that holds the files, all of them and in order, with the same one exception. */
  lemma TwoStartsRebuild(applied: seq<Applied>, schema: seq<Migration>, files: seq<Migration>, once: seq<Migration>,
                         twice: seq<Migration>)
    requires DistinctHashes(files) && Rows(schema) == applied
    requires once == Effects(applied, schema, files) && twice == Effects(Recorded(applied, files), once, files)
    ensures Rows(twice) == Recorded(Recorded(applied, files), files)
    ensures Rows(twice) == Rows(files) <==> !(Broken(applied, files) < 0 && |applied| > |files|)
  {
    EffectsMatch(applied, schema, files);
    EffectsMatch(Recorded(applied, files), once, files);
    TwoRunsConverge(applied, files);
  }

  /** The unique index on file names is never violated: the record keeps distinct names. */
  lemma NamesStayDistinct(applied: seq<Applied>, files: seq<Migration>)
    requires DistinctHashes(files) && DistinctNames(applied) && DistinctNames(Rows(files))
    ensures DistinctNames(Recorded(applied, files))
  {
    var p, m := Broken(applied, files), Zipped(applied, files);
    if p < 0 {
      NoMismatch(applied, files);
    } else {
      WithMismatch(applied, files, p, m);
      forall i, j | 0 <= i < j < |Recorded(applied, files)|
        ensures Recorded(applied, files)[i].name != Recorded(applied, files)[j].name
      {
        LeftOver(files, p, m, Recorded(applied, files), i);
        LeftOver(files, p, m, Recorded(applied, files), j);
        var i', j' := if i <= p then i else i + (m - p - 1), if j <= p then j else j + (m - p - 1);
        assert Rows(files)[i'].name != Rows(files)[j'].name;
      }
    }
  }

  /** A file edited in the middle: the files after it are dropped with the schema and not executed again. */
  lemma EditedInTheMiddle(a: Migration, b: Migration, b': Migration, c: Migration)
    requires a.sha != b'.sha && a.sha != c.sha && b'.sha != c.sha && b.sha != b'.sha
    ensures Executed(Rows([a, b, c]), [a, b', c]) == [a, b'] && Recorded(Rows([a, b, c]), [a, b', c]) == Rows([a, b'])
  {
    var applied, files := Rows([a, b, c]), [a, b', c];
    assert Matches(applied[2], files[2]) && !Matches(applied[1], files[1]);
    assert LastMismatch(applied, files, 3) == LastMismatch(applied, files, 2) == 1;
    ExecutedIs(applied, files);
    assert files[..2] + files[3..] == [a, b'];
    WithMismatch(applied, files, 1, 3);
  }
}
