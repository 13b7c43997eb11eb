/**
  From a tag dump to the tag column of the card table: propagation of every tagging to the ancestors of its
  tag, and the batched update of the column.  One table row is one card; several rows may share an id.
*/
module TagSync {
  import opened Options
  import opened TagGraph

  /** A JSON object of tag flags. */
  type Tags = map<string, bool>

  datatype Card = Card(id: Option<string>, tags: Tags)

  const BATCH_SIZE: nat := 5000

  function Marked(slugs: set<string>): (m: Tags)
    ensures m.Keys == slugs
  {
    map t | t in slugs :: true
  }

  // ---------------------------------------------------------------- propagation

  function Ancestors(closure: map<string, set<string>>, slug: string): set<string> {
    if slug in closure then closure[slug] else {}
  }

  /** What one tag puts on one card. */
  function Contribution(tag: Tag, closure: map<string, set<string>>, id: string): set<string> {
    if id in tag.taggings then {tag.slug} + Ancestors(closure, tag.slug) else {}
  }

  function TagsOf(tags: seq<Tag>, closure: map<string, set<string>>, id: string): set<string>
    decreases |tags|
  {
    if tags == [] then {}
    else TagsOf(tags[..|tags| - 1], closure, id) + Contribution(tags[|tags| - 1], closure, id)
  }

  /** A card id the dump tags; null ids are skipped. */
  ghost predicate Tagged(tags: seq<Tag>, id: string) {
    id != "" && exists i :: 0 <= i < |tags| && id in tags[i].taggings
  }

  /** One tagging: the card's entry is created if needed, then marked with the slug and its ancestors. */
  method AddTagging(m: map<string, Tags>, id: string, slug: string, ancestors: set<string>)
    returns (m': map<string, Tags>)
    requires id in m ==> m[id] == Marked(m[id].Keys)
    ensures m' == m[id := Marked((if id in m then m[id].Keys else {}) + {slug} + ancestors)]
  {
    var card: Tags := if id in m then m[id] else map[];
    ghost var before := if id in m then m[id].Keys else {};
    card := card[slug := true];
    var left := ancestors;
    while left != {}
      invariant left <= ancestors
      invariant card == Marked(before + {slug} + (ancestors - left))
    {
      var ancestor :| ancestor in left;
      card := card[ancestor := true];
      left := left - {ancestor};
    }
    assert before + {slug} + (ancestors - left) == before + {slug} + ancestors;
    m' := m[id := card];
  }

  /** The entries for `ids` after one tag's taggings: marked for the ids it names, as before elsewhere. */
  ghost predicate AfterTaggings(m: map<string, Tags>, m': map<string, Tags>, ids: seq<string>, marks: set<string>) {
    forall id ::
      && (id in m' <==> id in m || (id != "" && id in ids))
      && (id in m' ==> m'[id] == Marked((if id in m then m[id].Keys else {}) + if id in ids then marks else {}))
  }

  lemma AfterTaggingsStep(m: map<string, Tags>, m1: map<string, Tags>, m2: map<string, Tags>, ids: seq<string>,
                          next: string, marks: set<string>)
    requires "" !in m && AfterTaggings(m, m1, ids, marks)
    requires m2 == if next == "" then m1 else m1[next := Marked((if next in m1 then m1[next].Keys else {}) + marks)]
    ensures AfterTaggings(m, m2, ids + [next], marks)
  {
  }

  method AddTaggings(m: map<string, Tags>, tag: Tag, ancestors: set<string>) returns (m': map<string, Tags>)
    requires "" !in m && forall id :: id in m ==> m[id] == Marked(m[id].Keys)
    ensures AfterTaggings(m, m', tag.taggings, {tag.slug} + ancestors)
  {
    m' := m;
    for j := 0 to |tag.taggings|
      invariant AfterTaggings(m, m', tag.taggings[..j], {tag.slug} + ancestors)
    {
      ghost var before := m';
      var id := tag.taggings[j];
      if id != "" {
        m' := AddTagging(m', id, tag.slug, ancestors);
        assert forall keys: set<string> :: keys + {tag.slug} + ancestors == keys + ({tag.slug} + ancestors);
      }
      AfterTaggingsStep(m, before, m', tag.taggings[..j], id, {tag.slug} + ancestors);
      assert tag.taggings[..j + 1] == tag.taggings[..j] + [id];
    }
    assert tag.taggings[..|tag.taggings|] == tag.taggings;
  }

  /** The dictionary built from the dump: the tagged ids, each with its own tags and all their ancestors. */
  ghost predicate IsPropagated(tags: seq<Tag>, closure: map<string, set<string>>, m: map<string, Tags>) {
    forall id ::
      && (id in m <==> Tagged(tags, id))
      && (id in m ==> m[id] == Marked(TagsOf(tags, closure, id)))
  }

  lemma PropagatedStep(tags: seq<Tag>, n: nat, closure: map<string, set<string>>, m: map<string, Tags>,
                       m': map<string, Tags>)
    requires n < |tags| && IsPropagated(tags[..n], closure, m)
    requires AfterTaggings(m, m', tags[n].taggings, {tags[n].slug} + Ancestors(closure, tags[n].slug))
    ensures IsPropagated(tags[..n + 1], closure, m')
  {
    var seen := tags[..n + 1];
    assert seen[..n] == tags[..n];
    forall id
      ensures id in m' <==> Tagged(seen, id)
      ensures id in m' ==> m'[id] == Marked(TagsOf(seen, closure, id))
    {
      TaggedGrows(tags[..n], tags[n], seen, id);
      if id !in m && id != "" {
        UntaggedHasNone(tags[..n], closure, id);
      }
    }
  }

  lemma TaggedGrows(front: seq<Tag>, tag: Tag, tags: seq<Tag>, id: string)
    requires tags == front + [tag]
    ensures Tagged(tags, id) <==> Tagged(front, id) || (id != "" && id in tag.taggings)
  {
    if Tagged(front, id) {
      var i :| 0 <= i < |front| && id in front[i].taggings;
      assert id in tags[i].taggings;
    }
    assert tags[|front|] == tag;
  }

  lemma {:induction false} UntaggedHasNone(tags: seq<Tag>, closure: map<string, set<string>>, id: string)
    requires id != "" && !Tagged(tags, id)
    ensures TagsOf(tags, closure, id) == {}
    decreases |tags|
  {
    if tags != [] {
      var n := |tags| - 1;
      TaggedGrows(tags[..n], tags[n], tags, id);
      UntaggedHasNone(tags[..n], closure, id);
    }
  }

  method Propagate(tags: seq<Tag>, closure: map<string, set<string>>) returns (m: map<string, Tags>)
    ensures IsPropagated(tags, closure, m)
  {
    m := map[];
    for n := 0 to |tags|
      invariant IsPropagated(tags[..n], closure, m)
    {
      ghost var before := m;
      m := AddTaggings(m, tags[n], Ancestors(closure, tags[n].slug));
      PropagatedStep(tags, n, closure, before, m);
    }
    assert tags[..|tags|] == tags;
  }

  // ---------------------------------------------------------------- the sync, on values

  /** The row after a sync: null ids are left alone, unknown ids lose their tags. */
  function SyncedRow(card: Card, m: map<string, Tags>): Card {
    if card.id.None? then card
    else card.(tags := if card.id.value in m then m[card.id.value] else map[])
  }

  function Synced(cards: seq<Card>, m: map<string, Tags>): (r: seq<Card>)
    ensures |r| == |cards| && forall k :: 0 <= k < |r| ==> r[k] == SyncedRow(cards[k], m)
  {
    seq(|cards|, k requires 0 <= k < |cards| => SyncedRow(cards[k], m))
  }

  /** The ids SELECTed for clearing: tagged in the table, absent from the dictionary. */
  function ToClear(cards: seq<Card>, m: map<string, Tags>): set<string> {
    set k | 0 <= k < |cards| && cards[k].id.Some? && cards[k].tags != map[] && cards[k].id.value !in m ::
      cards[k].id.value
  }

  function ClearedRow(card: Card, ids: set<string>): Card {
    if card.id.Some? && card.id.value in ids then card.(tags := map[]) else card
  }

  /** The UPDATE that empties the column of some ids. */
  function Clear(cards: seq<Card>, ids: set<string>): (r: seq<Card>)
    ensures |r| == |cards| && forall k :: 0 <= k < |r| ==> r[k] == ClearedRow(cards[k], ids)
  {
    seq(|cards|, k requires 0 <= k < |cards| => ClearedRow(cards[k], ids))
  }

  /** The rows an UPDATE from these ids touches: joined on the id, and distinct from the incoming tags. */
  predicate Differs(card: Card, m: map<string, Tags>, ids: set<string>) {
    card.id.Some? && card.id.value in ids && card.id.value in m && card.tags != m[card.id.value]
  }

  function Touched(cards: seq<Card>, m: map<string, Tags>, ids: set<string>): set<int> {
    set k | 0 <= k < |cards| && Differs(cards[k], m, ids)
  }

  function UpdatedRow(card: Card, m: map<string, Tags>, ids: set<string>): Card {
    if Differs(card, m, ids) then card.(tags := m[card.id.value]) else card
  }

  function Update(cards: seq<Card>, m: map<string, Tags>, ids: set<string>): (r: seq<Card>)
    ensures |r| == |cards| && forall k :: 0 <= k < |r| ==> r[k] == UpdatedRow(cards[k], m, ids)
  {
    seq(|cards|, k requires 0 <= k < |cards| => UpdatedRow(cards[k], m, ids))
  }

  lemma UpdatesJoin(cards: seq<Card>, m: map<string, Tags>, a: set<string>, b: set<string>, mid: seq<Card>)
    requires mid == Update(cards, m, a)
    ensures Update(mid, m, b) == Update(cards, m, a + b)
  {
    forall k | 0 <= k < |cards|
      ensures UpdatedRow(UpdatedRow(cards[k], m, a), m, b) == UpdatedRow(cards[k], m, a + b)
    {
    }
  }

  lemma TouchedJoin(cards: seq<Card>, m: map<string, Tags>, a: set<string>, b: set<string>, mid: seq<Card>)
    requires a !! b && mid == Update(cards, m, a)
    ensures |Touched(cards, m, a)| + |Touched(mid, m, b)| == |Touched(cards, m, a + b)|
  {
    var first, second, both := Touched(cards, m, a), Touched(mid, m, b), Touched(cards, m, a + b);
    assert forall k :: 0 <= k < |cards| ==> (Differs(mid[k], m, b) <==> Differs(cards[k], m, b));
    assert first !! second;
    assert first + second == both;
  }

  /** Two batches with no id in common do what one batch of all their ids does, and count the same rows. */
  lemma BatchesJoin(cards: seq<Card>, m: map<string, Tags>, a: set<string>, b: set<string>)
    requires a !! b
    ensures Update(Update(cards, m, a), m, b) == Update(cards, m, a + b)
    ensures |Touched(cards, m, a)| + |Touched(Update(cards, m, a), m, b)| == |Touched(cards, m, a + b)|
  {
    UpdatesJoin(cards, m, a, b, Update(cards, m, a));
    TouchedJoin(cards, m, a, b, Update(cards, m, a));
  }

  /** Clearing and then updating every id is the sync. */
  lemma ClearThenUpdate(cards: seq<Card>, m: map<string, Tags>)
    ensures Update(Clear(cards, ToClear(cards, m)), m, m.Keys) == Synced(cards, m)
    ensures Touched(Clear(cards, ToClear(cards, m)), m, m.Keys) == Touched(cards, m, m.Keys)
  {
    var ids := ToClear(cards, m);
    forall k | 0 <= k < |cards|
      ensures UpdatedRow(ClearedRow(cards[k], ids), m, m.Keys) == SyncedRow(cards[k], m)
      ensures Differs(ClearedRow(cards[k], ids), m, m.Keys) <==> Differs(cards[k], m, m.Keys)
    {
    }
  }

  /** A second sync with the same dictionary has nothing to clear and nothing to update. */
  lemma RepeatIsIdle(cards: seq<Card>, m: map<string, Tags>)
    ensures ToClear(Synced(cards, m), m) == {} && Touched(Synced(cards, m), m, m.Keys) == {}
    ensures Synced(Synced(cards, m), m) == Synced(cards, m)
  {
  }

  /** The rows with an id of the dictionary that are not as they were. */
  ghost function ChangedRows(before: seq<Card>, after: seq<Card>, m: map<string, Tags>): set<int>
    requires |before| == |after|
  {
    set k | 0 <= k < |before| && before[k].id.Some? && before[k].id.value in m && after[k] != before[k]
  }

  /** The ids outside the dictionary with a row that is not as it was. */
  ghost function ChangedIds(before: seq<Card>, after: seq<Card>, m: map<string, Tags>): set<string>
    requires |before| == |after|
  {
    set k | 0 <= k < |before| && before[k].id.Some? && before[k].id.value !in m && after[k] != before[k] ::
      before[k].id.value
  }

  /** Touched and cleared is what the sync changes, and nothing else. */
  lemma CountsAreChanges(cards: seq<Card>, m: map<string, Tags>)
    ensures Touched(cards, m, m.Keys) == ChangedRows(cards, Synced(cards, m), m)
    ensures ToClear(cards, m) == ChangedIds(cards, Synced(cards, m), m)
  {
    forall k | 0 <= k < |cards|
      ensures Differs(cards[k], m, m.Keys) <==>
              cards[k].id.Some? && cards[k].id.value in m && SyncedRow(cards[k], m) != cards[k]
    {
    }
    forall id
      ensures id in ToClear(cards, m) <==> id in ChangedIds(cards, Synced(cards, m), m)
    {
      SameCleared(cards, m, id);
    }
  }

  lemma SameCleared(cards: seq<Card>, m: map<string, Tags>, id: string)
    ensures id in ToClear(cards, m) <==> id in ChangedIds(cards, Synced(cards, m), m)
  {
    forall k | 0 <= k < |cards| && cards[k].id.Some? && cards[k].id.value !in m
      ensures cards[k].tags != map[] <==> Synced(cards, m)[k] != cards[k]
    {
    }
  }

  // ---------------------------------------------------------------- between the commits

  /** Row by row the table is as it was or as the sync leaves it. */
  ghost predicate Partway(before: seq<Card>, now: seq<Card>, m: map<string, Tags>) {
    |now| == |before| && forall k :: 0 <= k < |now| ==> now[k] == before[k] || now[k] == SyncedRow(before[k], m)
  }

  lemma ClearIsPartway(before: seq<Card>, m: map<string, Tags>)
    ensures Partway(before, Clear(before, ToClear(before, m)), m)
  {
  }

  lemma UpdateIsPartway(before: seq<Card>, now: seq<Card>, m: map<string, Tags>, ids: set<string>)
    requires Partway(before, now, m)
    ensures Partway(before, Update(now, m, ids), m)
  {
    forall k | 0 <= k < |now|
      ensures UpdatedRow(now[k], m, ids) == before[k] || UpdatedRow(now[k], m, ids) == SyncedRow(before[k], m)
    {
      assert now[k] == before[k] || now[k] == SyncedRow(before[k], m);
    }
  }

  /** A sync that starts from such a table ends where the interrupted one would have. */
  lemma PartwayResumes(before: seq<Card>, now: seq<Card>, m: map<string, Tags>)
    requires Partway(before, now, m)
    ensures Synced(now, m) == Synced(before, m)
  {
    forall k | 0 <= k < |now|
      ensures SyncedRow(now[k], m) == SyncedRow(before[k], m)
    {
      assert now[k] == before[k] || now[k] == SyncedRow(before[k], m);
    }
  }

  /** One commit to the next: one batch of at most `size` ids. */
  ghost predicate BatchBetween(a: seq<Card>, b: seq<Card>, m: map<string, Tags>, size: nat) {
    exists ids: set<string> :: |ids| <= size && b == Update(a, m, ids)
  }

  /** The tables committed in turn: the cleared one, then one per batch. */
  ghost predicate Commits(before: seq<Card>, m: map<string, Tags>, size: nat, commits: seq<seq<Card>>) {
    && |commits| > 0 && commits[0] == Clear(before, ToClear(before, m))
    && (forall c :: 0 <= c < |commits| - 1 ==> BatchBetween(commits[c], commits[c + 1], m, size))
    && (forall c :: 0 <= c < |commits| ==> Partway(before, commits[c], m))
  }

  lemma CommitBatch(before: seq<Card>, m: map<string, Tags>, size: nat, commits: seq<seq<Card>>, ids: set<string>,
                    next: seq<Card>, commits': seq<seq<Card>>)
    requires Commits(before, m, size, commits) && |ids| <= size && next == Update(commits[|commits| - 1], m, ids)
    requires commits' == commits + [next]
    ensures Commits(before, m, size, commits')
  {
    var last := |commits| - 1;
    UpdateIsPartway(before, commits[last], m, ids);
    assert BatchBetween(commits[last], next, m, size);
    forall c | 0 <= c < |commits'| - 1
      ensures BatchBetween(commits'[c], commits'[c + 1], m, size)
    {
      if c < last {
        assert BatchBetween(commits[c], commits[c + 1], m, size);
      }
    }
  }

  function Capacity(batches: nat, size: nat): nat {
    if batches == 0 then 0 else Capacity(batches - 1, size) + size
  }

  /** So many batches of the given size, all but the last of them full, hold so many ids. */
  ghost predicate FullBatches(ids: nat, size: nat, batches: nat) {
    ids <= Capacity(batches, size) && (batches > 0 ==> Capacity(batches - 1, size) < ids)
  }

  /** After so many batches the first i ids are dealt with, and as long as some are left every batch was full. */
  ghost predicate Dealt(i: nat, ids: nat, size: nat, batches: nat) {
    i <= ids && FullBatches(i, size, batches) && (i < ids ==> i == Capacity(batches, size))
  }

  lemma DealtMore(i: nat, ids: nat, size: nat, batches: nat, j: nat)
    requires Dealt(i, ids, size, batches) && size > 0 && i < ids && j == if i + size <= ids then i + size else ids
    ensures Dealt(j, ids, size, batches + 1)
  {
  }

  /** What the loop over the batches keeps, with the ids in `done` dealt with. */
  ghost predicate Syncing(before: seq<Card>, base: seq<Card>, m: map<string, Tags>, size: nat, done: set<string>,
                          cards: seq<Card>, updated: nat, commits: seq<seq<Card>>) {
    && base == Clear(before, ToClear(before, m))
    && cards == Update(base, m, done) && updated == |Touched(base, m, done)|
    && Commits(before, m, size, commits) && commits[|commits| - 1] == cards
  }

  lemma SyncsOn(before: seq<Card>, base: seq<Card>, m: map<string, Tags>, size: nat, done: set<string>,
                cards: seq<Card>, updated: nat, commits: seq<seq<Card>>, batch: set<string>, done': set<string>,
                cards': seq<Card>, updated': nat,
                commits': seq<seq<Card>>)
    requires Syncing(before, base, m, size, done, cards, updated, commits)
    requires done !! batch && done' == done + batch && |batch| <= size
    requires cards' == Update(cards, m, batch) && updated' == updated + |Touched(cards, m, batch)| &&
             commits' == commits + [cards']
    ensures Syncing(before, base, m, size, done', cards', updated', commits')
  {
    BatchesJoin(base, m, done, batch);
    CommitBatch(before, m, size, commits, batch, cards', commits');
  }

  lemma SyncStart(before: seq<Card>, base: seq<Card>, m: map<string, Tags>, size: nat)
    requires base == if ToClear(before, m) != {} then Clear(before, ToClear(before, m)) else before
    ensures Syncing(before, base, m, size, {}, base, 0, [base])
  {
    assert base == Clear(before, ToClear(before, m));
    ClearIsPartway(before, m);
    assert Touched(base, m, {}) == {};
  }

  lemma SyncDone(before: seq<Card>, base: seq<Card>, m: map<string, Tags>, size: nat, cards: seq<Card>, updated: nat,
                 commits: seq<seq<Card>>)
    requires Syncing(before, base, m, size, m.Keys, cards, updated, commits)
    ensures cards == Synced(before, m) && updated == |ChangedRows(before, cards, m)|
    ensures |ToClear(before, m)| == |ChangedIds(before, cards, m)|
  {
    ClearThenUpdate(before, m);
    CountsAreChanges(before, m);
  }

  // ---------------------------------------------------------------- what a card ends with

  /** The dump applies a tag to the card whose slug is `t` or reaches it by parent edges. */
  ghost predicate Carries(tags: seq<Tag>, g: Graph, id: string, t: string) {
    && id != ""
    && exists i :: 0 <= i < |tags| && id in tags[i].taggings && (t == tags[i].slug || Reaches(g, tags[i].slug, t))
  }

  ghost function GraphOf(tags: seq<Tag>): Graph {
    ParentGraph(tags, UuidToSlug(tags))
  }

  lemma AncestorsReach(g: Graph, closure: map<string, set<string>>, slug: string, t: string)
    requires IsClosure(g, closure)
    ensures t in {slug} + Ancestors(closure, slug) <==> t == slug || Reaches(g, slug, t)
  {
    if slug !in g {
      OutsideReachesNothing(g, slug, t);
    }
  }

  lemma {:induction false} TagsAreCarried(tags: seq<Tag>, g: Graph, closure: map<string, set<string>>, id: string,
                                          t: string)
    requires IsClosure(g, closure) && id != ""
    ensures t in TagsOf(tags, closure, id) <==> Carries(tags, g, id, t)
    decreases |tags|
  {
    if tags != [] {
      var n := |tags| - 1;
      var front, last := tags[..n], tags[n];
      TagsAreCarried(front, g, closure, id, t);
      AncestorsReach(g, closure, last.slug, t);
      if Carries(front, g, id, t) {
        var i :| 0 <= i < |front| && id in front[i].taggings && (t == front[i].slug || Reaches(g, front[i].slug, t));
        assert id in tags[i].taggings && (t == tags[i].slug || Reaches(g, tags[i].slug, t));
      }
    }
  }

  /** The row is as the dump says: exactly the carried tags, each flagged true; null ids are free. */
  ghost predicate RowRight(tags: seq<Tag>, g: Graph, card: Card) {
    card.id.Some? ==>
      (forall t :: (t in card.tags <==> Carries(tags, g, card.id.value, t)) && (t in card.tags ==> card.tags[t]))
  }

  ghost predicate TableRight(tags: seq<Tag>, cards: seq<Card>) {
    forall k :: 0 <= k < |cards| ==> RowRight(tags, GraphOf(tags), cards[k])
  }

  lemma SyncedRowRight(tags: seq<Tag>, g: Graph, closure: map<string, set<string>>, m: map<string, Tags>, card: Card)
    requires IsClosure(g, closure) && IsPropagated(tags, closure, m)
    ensures RowRight(tags, g, SyncedRow(card, m))
    ensures RowRight(tags, g, card) ==> SyncedRow(card, m) == card
  {
    if card.id.Some? {
      var id := card.id.value;
      forall t
        ensures t in SyncedRow(card, m).tags <==> Carries(tags, g, id, t)
      {
        if id in m {
          TagsAreCarried(tags, g, closure, id, t);
        }
      }
    }
  }

  /** The sync makes every row right, and changes none that was. */
  lemma SyncedTableRight(tags: seq<Tag>, closure: map<string, set<string>>, m: map<string, Tags>, cards: seq<Card>)
    requires IsClosure(GraphOf(tags), closure) && IsPropagated(tags, closure, m)
    ensures TableRight(tags, Synced(cards, m))
    ensures TableRight(tags, cards) ==> Synced(cards, m) == cards
  {
    forall k | 0 <= k < |cards|
      ensures RowRight(tags, GraphOf(tags), Synced(cards, m)[k])
      ensures RowRight(tags, GraphOf(tags), cards[k]) ==> Synced(cards, m)[k] == cards[k]
    {
      SyncedRowRight(tags, GraphOf(tags), closure, m, cards[k]);
    }
  }

  /** The rows that got other tags. */
  ghost function Retagged(before: seq<Card>, after: seq<Card>): set<int>
    requires |before| == |after|
  {
    set k | 0 <= k < |before| && after[k] != before[k] && after[k].tags != map[]
  }

  /** The ids that lost all their tags. */
  ghost function Untagged(before: seq<Card>, after: seq<Card>): set<string>
    requires |before| == |after|
  {
    set k | 0 <= k < |before| && before[k].id.Some? && after[k] != before[k] && after[k].tags == map[] ::
      before[k].id.value
  }

  lemma {:induction false} TaggedHasOne(tags: seq<Tag>, closure: map<string, set<string>>, id: string)
    requires Tagged(tags, id)
    ensures TagsOf(tags, closure, id) != {}
    decreases |tags|
  {
    var n := |tags| - 1;
    TaggedGrows(tags[..n], tags[n], tags, id);
    if Tagged(tags[..n], id) {
      TaggedHasOne(tags[..n], closure, id);
    } else {
      assert tags[n].slug in TagsOf(tags, closure, id);
    }
  }

  lemma CountsAreRetagged(tags: seq<Tag>, closure: map<string, set<string>>, m: map<string, Tags>, before: seq<Card>,
                          after: seq<Card>)
    requires IsPropagated(tags, closure, m) && after == Synced(before, m)
    ensures ChangedRows(before, after, m) == Retagged(before, after)
    ensures ChangedIds(before, after, m) == Untagged(before, after)
  {
    forall k | 0 <= k < |before| && before[k].id.Some?
      ensures before[k].id.value in m <==> after[k].tags != map[]
    {
      var id := before[k].id.value;
      if id in m {
        TaggedHasOne(tags, closure, id);
        assert m[id].Keys != {};
      }
    }
    forall id
      ensures id in ChangedIds(before, after, m) <==> id in Untagged(before, after)
    {
    }
  }

  // ---------------------------------------------------------------- the card table

  ghost predicate SameIds(before: seq<Card>, after: seq<Card>) {
    |after| == |before| && forall k :: 0 <= k < |after| ==>
                                         after[k].id == before[k].id && (after[k].id.None? ==> after[k] == before[k])
  }

  lemma SyncedSameIds(cards: seq<Card>, m: map<string, Tags>)
    ensures SameIds(cards, Synced(cards, m))
  {
  }

  function Members(ids: seq<string>): set<string> {
    set id | id in ids
  }

  lemma MembersAll(ids: seq<string>, items: set<string>)
    requires forall s :: s in ids <==> s in items
    ensures Members(ids[..|ids|]) == items
  {
    assert ids[..|ids|] == ids;
  }

  ghost predicate Unique(ids: seq<string>) {
    forall a, b {:trigger DifferAt(ids, a, b)} :: DifferAt(ids, a, b)
  }

  ghost predicate DifferAt(ids: seq<string>, a: int, b: int) {
    0 <= a < b < |ids| ==> ids[a] != ids[b]
  }

  lemma SplitsApart(ids: seq<string>, i: nat, j: nat, s: string)
    requires i <= j <= |ids| && Unique(ids) && s in ids[..i]
    ensures s !in ids[i..j]
  {
    var a :| 0 <= a < i && ids[..i][a] == s;
    forall b | 0 <= b < j - i
      ensures ids[i..j][b] != s
    {
      assert DifferAt(ids, a, i + b);
    }
  }

  lemma MembersSplit(ids: seq<string>, i: nat, j: nat, done: set<string>, batch: set<string>)
    requires i <= j <= |ids| && Unique(ids) && done == Members(ids[..i]) && batch == Members(ids[i..j])
    ensures done !! batch && done + batch == Members(ids[..j]) && |batch| <= j - i
  {
    assert ids[..j] == ids[..i] + ids[i..j];
    AtMostLength(ids[i..j], batch);
    forall s | s in done
      ensures s !in batch
    {
      SplitsApart(ids, i, j, s);
    }
  }

  /** A listing of as many elements as the set has repeats none. */
  lemma {:induction false} NoRepeats(ids: seq<string>, items: set<string>)
    requires (forall s :: s in ids <==> s in items) && |ids| == |items|
    ensures Unique(ids)
    decreases |ids|
  {
    if ids != [] {
      var n := |ids| - 1;
      if ids[n] in ids[..n] {
        assert forall s :: s in items ==> s in ids[..n];
        AtMostLength(ids[..n], items);
      } else {
        assert forall s :: s in ids[..n] <==> s in items - {ids[n]} by {
          assert ids == ids[..n] + [ids[n]];
        }
        NoRepeats(ids[..n], items - {ids[n]});
        UniqueAppend(ids, n);
      }
    }
  }

  lemma UniqueAppend(ids: seq<string>, n: nat)
    requires n < |ids| && n + 1 == |ids| && Unique(ids[..n]) && ids[n] !in ids[..n]
    ensures Unique(ids)
  {
    forall a, b
      ensures DifferAt(ids, a, b)
    {
      assert DifferAt(ids[..n], a, b);
      if 0 <= a < b == n {
        assert ids[..n][a] == ids[a];
      }
    }
  }

  lemma {:induction false} AtMostLength(ids: seq<string>, items: set<string>)
    requires forall s :: s in items ==> s in ids
    ensures |items| <= |ids|
    decreases |ids|
  {
    if ids == [] {
      assert items == {};
    } else {
      var n := |ids| - 1;
      assert ids == ids[..n] + [ids[n]];
      AtMostLength(ids[..n], items - {ids[n]});
      assert items - {ids[n]} + {ids[n]} >= items;
    }
  }

  /** The loop over the batches, with the first i of the ids dealt with in so many batches. */
  ghost predicate Batching(before: seq<Card>, m: map<string, Tags>, size: nat, ids: seq<string>, i: nat, batches: nat,
                           cards: seq<Card>, updated: nat, commits: seq<seq<Card>>) {
    && Unique(ids) && (forall s :: s in ids <==> s in m.Keys) && |ids| == |m.Keys|
    && Dealt(i, |ids|, size, batches) && |commits| == batches + 1
    && Syncing(before, Clear(before, ToClear(before, m)), m, size, Members(ids[..i]), cards, updated, commits)
  }

  lemma BatchingStart(before: seq<Card>, base: seq<Card>, m: map<string, Tags>, size: nat, ids: seq<string>)
    requires base == if ToClear(before, m) != {} then Clear(before, ToClear(before, m)) else before
    requires (forall s :: s in ids <==> s in m.Keys) && |ids| == |m.Keys|
    ensures Batching(before, m, size, ids, 0, 0, base, 0, [base])
  {
    NoRepeats(ids, m.Keys);
    SyncStart(before, base, m, size);
    assert Members(ids[..0]) == {};
  }

  lemma BatchingOn(before: seq<Card>, m: map<string, Tags>, size: nat, ids: seq<string>, i: nat, batches: nat,
                   cards: seq<Card>, updated: nat, commits: seq<seq<Card>>, j: nat, next: seq<Card>, changed: nat)
    requires Batching(before, m, size, ids, i, batches, cards, updated, commits) && size > 0 && i < |ids|
    requires j == if i + size <= |ids| then i + size else |ids|
    requires next == Update(cards, m, Members(ids[i..j])) && changed == |Touched(cards, m, Members(ids[i..j]))|
    ensures Batching(before, m, size, ids, j, batches + 1, next, updated + changed, commits + [next])
  {
    var done, batch := Members(ids[..i]), Members(ids[i..j]);
    DealtMore(i, |ids|, size, batches, j);
    MembersSplit(ids, i, j, done, batch);
    SyncsOn(before, Clear(before, ToClear(before, m)), m, size, done, cards, updated, commits, batch, Members(ids[..j]),
            next, updated + changed, commits + [next]);
  }

  lemma BatchingDone(before: seq<Card>, m: map<string, Tags>, size: nat, ids: seq<string>, batches: nat,
                     cards: seq<Card>, updated: nat, commits: seq<seq<Card>>)
    requires Batching(before, m, size, ids, |ids|, batches, cards, updated, commits)
    ensures cards == Synced(before, m) && updated == |ChangedRows(before, cards, m)|
    ensures |ToClear(before, m)| == |ChangedIds(before, cards, m)|
    ensures Commits(before, m, size, commits) && commits[|commits| - 1] == cards
    ensures |commits| == batches + 1 && FullBatches(|m.Keys|, size, batches)
  {
    MembersAll(ids, m.Keys);
    SyncDone(before, Clear(before, ToClear(before, m)), m, size, cards, updated, commits);
  }

  class CardTable {
    var cards: seq<Card>

    constructor (rows: seq<Card>)
      ensures cards == rows
    {
      cards := rows;
    }

    /**
      Sync the column to the dictionary, `size` ids at a time, with a commit after the clearing and after each batch.
    */
    method SyncCardTags(m: map<string, Tags>, size: nat)
      returns (updated: nat, cleared: nat, ghost commits: seq<seq<Card>>, ghost batches: nat)
      requires size > 0
      modifies this
      ensures cards == Synced(old(cards), m)
      ensures updated == |ChangedRows(old(cards), cards, m)| && cleared == |ChangedIds(old(cards), cards, m)|
      ensures Commits(old(cards), m, size, commits) && commits[|commits| - 1] == cards
      ensures |commits| == batches + 1 && FullBatches(|m.Keys|, size, batches)
    {
      var toClear := ToClear(cards, m);
      cleared := |toClear|;
      if toClear != {} {
        cards := Clear(cards, toClear);
      }
      updated, commits, batches := 0, [cards], 0;
      var ids := Listed(m.Keys);
      BatchingStart(old(cards), cards, m, size, ids);
      var i := 0;
      while i < |ids|
        invariant 0 <= i <= |ids|
        invariant Batching(old(cards), m, size, ids, i, batches, cards, updated, commits)
      {
        var j := if i + size <= |ids| then i + size else |ids|;
        var batch := Members(ids[i..j]);
        var changed, next := |Touched(cards, m, batch)|, Update(cards, m, batch);
        BatchingOn(old(cards), m, size, ids, i, batches, cards, updated, commits, j, next, changed);
        updated, cards, commits := updated + changed, next, commits + [next];
        i, batches := j, batches + 1;
      }
      BatchingDone(old(cards), m, size, ids, batches, cards, updated, commits);
    }

    /**
      The whole import.  Whatever the column held, every row with an id ends with exactly the tags the dump
      gives it.  It counts the rows that got other tags, and the ids that lost all of theirs; a table that is
      already right is left as it is.
    */
    method ImportTags(tags: seq<Tag>) returns (updated: nat, cleared: nat, ghost ids: set<string>, ghost batches: nat)
      modifies this
      ensures TableRight(tags, cards) && SameIds(old(cards), cards)
      ensures updated == |Retagged(old(cards), cards)| && cleared == |Untagged(old(cards), cards)|
      ensures TableRight(tags, old(cards)) ==> cards == old(cards) && updated == 0 && cleared == 0
      ensures (forall id :: id in ids <==> Tagged(tags, id)) && FullBatches(|ids|, 5000, batches)
    {
      var slugOf := UuidToSlug(tags);
      var g := BuildParentGraph(tags, slugOf);
      var closure := BuildAllAncestors(g);
      var m := Propagate(tags, closure);
      SyncedTableRight(tags, closure, m, cards);
      ghost var tables;
      SyncedSameIds(cards, m);
      CountsAreRetagged(tags, closure, m, cards, Synced(cards, m));
      updated, cleared, tables, batches := SyncCardTags(m, BATCH_SIZE);
      ids := m.Keys;
    }
  }

  // ---------------------------------------------------------------- searching a tag

  /** The rows a search for a tag finds, among those with an id. */
  function Search(cards: seq<Card>, t: string): set<int> {
    set k | 0 <= k < |cards| && cards[k].id.Some? && t in cards[k].tags
  }

  /** The slug is applied to the row's card directly. */
  ghost predicate TaggedWith(tags: seq<Tag>, card: Card, slug: string) {
    && card.id.Some? && card.id.value != ""
    && exists i :: 0 <= i < |tags| && tags[i].slug == slug && card.id.value in tags[i].taggings
  }

  ghost predicate SelfOrAncestor(g: Graph, slug: string, t: string) {
    t == slug || Reaches(g, slug, t)
  }

  /** A search for a tag finds the rows tagged directly with it or with one of its descendants, and no others. */
  lemma SearchFindsDescendants(tags: seq<Tag>, cards: seq<Card>, t: string, k: int)
    requires TableRight(tags, cards) && 0 <= k < |cards|
    ensures k in Search(cards, t) <==>
            exists slug :: TaggedWith(tags, cards[k], slug) && SelfOrAncestor(GraphOf(tags), slug, t)
  {
    assert RowRight(tags, GraphOf(tags), cards[k]);
    if k in Search(cards, t) {
      var i :| 0 <= i < |tags| && cards[k].id.value in tags[i].taggings &&
        (t == tags[i].slug || Reaches(GraphOf(tags), tags[i].slug, t));
      assert TaggedWith(tags, cards[k], tags[i].slug);
    }
    if slug :| TaggedWith(tags, cards[k], slug) && SelfOrAncestor(GraphOf(tags), slug, t) {
      var i :| 0 <= i < |tags| && tags[i].slug == slug && cards[k].id.value in tags[i].taggings;
      assert t == tags[i].slug || Reaches(GraphOf(tags), tags[i].slug, t);
    }
  }

  /** A search for a tag finds everything a search for any of its descendants finds. */
  lemma SearchIncludesDescendants(tags: seq<Tag>, cards: seq<Card>, slug: string, t: string)
    requires TableRight(tags, cards) && Reaches(GraphOf(tags), slug, t)
    ensures Search(cards, slug) <= Search(cards, t)
  {
    var g := GraphOf(tags);
    forall k | k in Search(cards, slug)
      ensures k in Search(cards, t)
    {
      SearchFindsDescendants(tags, cards, slug, k);
      var direct :| TaggedWith(tags, cards[k], direct) && SelfOrAncestor(g, direct, slug);
      if direct != slug {
        ReachesTrans(g, direct, slug, t);
      }
      assert SelfOrAncestor(g, direct, t);
      SearchFindsDescendants(tags, cards, t, k);
    }
  }

  // ---------------------------------------------------------------- in the dump's own terms

  ghost predicate DeclaredAt(tags: seq<Tag>, path: seq<string>, i: int)
    requires 0 <= i < |path| - 1
  {
    path[i] != "" && Declares(tags, path[i], path[i + 1])
  }

  /** A chain of tags, each listing the next among its parents. */
  ghost predicate DeclaredChain(tags: seq<Tag>, path: seq<string>, from: string, to: string) {
    && |path| >= 2 && path[0] == from && path[|path| - 1] == to
    && forall i :: 0 <= i < |path| - 1 ==> DeclaredAt(tags, path, i)
  }

  /** With distinct ids and slugs, reachability in the graph is a chain of declared parents. */
  lemma ReachesIsDeclared(tags: seq<Tag>, from: string, to: string)
    requires DistinctIds(tags) && DistinctSlugs(tags)
    ensures Reaches(GraphOf(tags), from, to) <==> exists path :: DeclaredChain(tags, path, from, to)
  {
    var g := GraphOf(tags);
    forall path: seq<string>, i | 0 <= i < |path| - 1
      ensures LinkAt(g, path, i) <==> DeclaredAt(tags, path, i)
    {
      EdgesAreDeclared(tags, g, path[i], path[i + 1]);
    }
    if Reaches(g, from, to) {
      var path :| PathFrom(g, path, from, to);
      assert DeclaredChain(tags, path, from, to);
    }
    if path :| DeclaredChain(tags, path, from, to) {
      assert PathFrom(g, path, from, to);
    }
  }
}
