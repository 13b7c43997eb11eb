/**
  The tag hierarchy: the parent graph built from the tag dump, which may have cycles and self-parents, and
  the worklist search that finds all ancestors of every slug.
*/
module TagGraph {

  /** One tag of the dump; `taggings` are the card ids it is applied to, "" where the id is null. */
  datatype Tag = Tag(id: string, slug: string, parentIds: seq<string>, taggings: seq<string>)

  type Graph = map<string, set<string>>

  function Parents(g: Graph, slug: string): set<string> {
    if slug in g then g[slug] else {}
  }

  // ---------------------------------------------------------------- reachability

  predicate LinkAt(g: Graph, path: seq<string>, i: int)
    requires 0 <= i < |path| - 1
  {
    path[i + 1] in Parents(g, path[i])
  }

  /** Consecutive slugs of the path are child and parent. */
  predicate Linked(g: Graph, path: seq<string>) {
    forall i :: 0 <= i < |path| - 1 ==> LinkAt(g, path, i)
  }

  ghost predicate PathFrom(g: Graph, path: seq<string>, from: string, to: string) {
    |path| >= 2 && Linked(g, path) && path[0] == from && path[|path| - 1] == to
  }

  /** `to` is reached from `from` by one or more parent edges. */
  ghost predicate Reaches(g: Graph, from: string, to: string) {
    exists path :: PathFrom(g, path, from, to)
  }

  lemma ReachesParent(g: Graph, from: string, to: string)
    requires to in Parents(g, from)
    ensures Reaches(g, from, to)
  {
    assert PathFrom(g, [from, to], from, to);
  }

  lemma ReachesOn(g: Graph, from: string, mid: string, to: string)
    requires Reaches(g, from, mid) && to in Parents(g, mid)
    ensures Reaches(g, from, to)
  {
    var path :| PathFrom(g, path, from, mid);
    var longer := path + [to];
    assert forall i :: 0 <= i < |longer| - 1 ==> LinkAt(g, longer, i) by {
      forall i | 0 <= i < |longer| - 1
        ensures LinkAt(g, longer, i)
      {
        assert i < |path| - 1 ==> LinkAt(g, path, i);
      }
    }
    assert PathFrom(g, longer, from, to);
  }

  lemma ReachesTrans(g: Graph, a: string, b: string, c: string)
    requires Reaches(g, a, b) && Reaches(g, b, c)
    ensures Reaches(g, a, c)
  {
    var p :| PathFrom(g, p, a, b);
    var q :| PathFrom(g, q, b, c);
    var path := p + q[1..];
    assert forall i :: 0 <= i < |path| - 1 ==> LinkAt(g, path, i) by {
      forall i | 0 <= i < |path| - 1
        ensures LinkAt(g, path, i)
      {
        if i >= |p| - 1 {
          assert LinkAt(g, q, i - (|p| - 1));
        } else {
          assert LinkAt(g, p, i);
        }
      }
    }
    assert PathFrom(g, path, a, c);
  }

  ghost predicate Closed(g: Graph, visited: set<string>) {
    forall s :: s in visited ==> Parents(g, s) <= visited
  }

  /** A set closed under parents contains everything a member reaches. */
  lemma {:induction false} ClosedContains(g: Graph, visited: set<string>, path: seq<string>)
    requires Closed(g, visited) && Linked(g, path) && |path| > 0 && path[0] in visited
    ensures path[|path| - 1] in visited
    decreases |path|
  {
    if |path| > 1 {
      var front := path[..|path| - 1];
      assert forall i :: 0 <= i < |front| - 1 ==> LinkAt(g, front, i) by {
        forall i | 0 <= i < |front| - 1
          ensures LinkAt(g, front, i)
        {
          assert LinkAt(g, path, i);
        }
      }
      ClosedContains(g, visited, front);
      assert LinkAt(g, path, |path| - 2);
    }
  }

  // ---------------------------------------------------------------- the worklist search

  ghost function Slugs(g: Graph): set<string> {
    g.Keys + set s, p | s in g && p in g[s] :: p
  }

  lemma ParentsAreSlugs(g: Graph, slug: string)
    ensures Parents(g, slug) <= Slugs(g)
  {
  }

  /** The elements of a set in some order, each once. */
  method Listed(items: set<string>) returns (list: seq<string>)
    ensures forall s :: s in list <==> s in items
    ensures |list| == |items|
  {
    list := [];
    var left := items;
    while left != {}
      invariant left <= items && |list| + |left| == |items|
      invariant forall s :: s in list <==> s in items - left
    {
      var s :| s in left;
      list := list + [s];
      left := left - {s};
    }
  }

  /** Everything found so far is reached, and whatever a visited slug leads to is visited or queued. */
  ghost predicate Frontier(g: Graph, slug: string, visited: set<string>, queue: seq<string>) {
    && slug in visited
    && (forall s :: s in visited && s != slug ==> Reaches(g, slug, s))
    && (forall s :: s in queue ==> Reaches(g, slug, s))
    && (forall s, p {:trigger p in Parents(g, s)} :: s in visited && p in Parents(g, s) ==> p in visited || p in queue)
  }

  lemma FrontierDone(g: Graph, slug: string, visited: set<string>)
    requires Frontier(g, slug, visited, [])
    ensures forall t :: t in visited - {slug} <==> t != slug && Reaches(g, slug, t)
  {
    forall t | Reaches(g, slug, t)
      ensures t in visited
    {
      var path :| PathFrom(g, path, slug, t);
      ClosedContains(g, visited, path);
    }
  }

  /** One pop of the worklist at a slug not seen before. */
  lemma FrontierStep(g: Graph, slug: string, visited: set<string>, rest: seq<string>, current: string,
                     visited': set<string>, more: seq<string>)
    requires Frontier(g, slug, visited, rest + [current]) && visited' == visited + {current}
    requires forall s :: s in more <==> s in Parents(g, current) - visited'
    ensures Frontier(g, slug, visited', rest + more)
  {
    assert current in rest + [current];
    forall s | s in rest + more
      ensures Reaches(g, slug, s)
    {
      if s in rest {
        assert s in rest + [current];
      } else {
        ReachesOn(g, slug, current, s);
      }
    }
    forall s, p | s in visited' && p in Parents(g, s)
      ensures p in visited' || p in rest + more
    {
      if s == current {
        assert p in more || p in visited';
      } else {
        assert p in visited || p in rest + [current];
      }
    }
  }

  lemma FrontierSkip(g: Graph, slug: string, visited: set<string>, rest: seq<string>, current: string)
    requires Frontier(g, slug, visited, rest + [current]) && current in visited
    ensures Frontier(g, slug, visited, rest)
  {
    forall s | s in rest
      ensures Reaches(g, slug, s)
    {
      assert s in rest + [current];
    }
    forall s, p | s in visited && p in Parents(g, s)
      ensures p in visited || p in rest
    {
      assert p in visited || p in rest + [current];
    }
  }

  lemma FrontierStart(g: Graph, slug: string, queue: seq<string>)
    requires forall s :: s in queue <==> s in Parents(g, slug)
    ensures Frontier(g, slug, {slug}, queue)
  {
    forall s | s in queue
      ensures Reaches(g, slug, s)
    {
      ReachesParent(g, slug, s);
    }
  }

  ghost predicate Within(queue: seq<string>, all: set<string>) {
    forall s :: s in queue ==> s in all
  }

  lemma WithinStep(queue: seq<string>, all: set<string>, rest: seq<string>, current: string, more: seq<string>)
    requires Within(queue, all) && queue == rest + [current] && Within(more, all)
    ensures current in all && Within(rest, all) && Within(rest + more, all)
  {
    assert current in queue;
    forall s | s in rest
      ensures s in all
    {
      assert s in queue;
    }
  }

  /** What the search keeps: the frontier, and a queue of slugs of the graph only. */
  ghost predicate Exploring(g: Graph, slug: string, all: set<string>, visited: set<string>, queue: seq<string>) {
    Frontier(g, slug, visited, queue) && Within(queue, all)
  }

  lemma ExploreSkip(g: Graph, slug: string, all: set<string>, visited: set<string>, queue: seq<string>,
                    rest: seq<string>, current: string)
    requires Exploring(g, slug, all, visited, queue) && queue == rest + [current] && current in visited
    ensures Exploring(g, slug, all, visited, rest)
  {
    FrontierSkip(g, slug, visited, rest, current);
    WithinStep(queue, all, rest, current, []);
  }

  lemma ExploreStep(g: Graph, slug: string, all: set<string>, visited: set<string>, queue: seq<string>,
                    rest: seq<string>, current: string, visited': set<string>, more: seq<string>, queue': seq<string>)
    requires Exploring(g, slug, all, visited, queue) && all == Slugs(g) && queue == rest + [current] &&
             current !in visited
    requires visited' == visited + {current} && queue' == rest + more
    requires forall s :: s in more <==> s in Parents(g, current) - visited'
    ensures Exploring(g, slug, all, visited', queue')
    ensures |all - visited'| < |all - visited|
  {
    ParentsAreSlugs(g, current);
    WithinStep(queue, all, rest, current, more);
    FrontierStep(g, slug, visited, rest, current, visited', more);
    Shrinks(all, visited, current);
  }

  /** The search from one slug: exactly the other slugs it reaches, on every graph. */
  method AncestorsOf(g: Graph, slug: string) returns (ancestors: set<string>)
    ensures forall t :: t in ancestors <==> t != slug && Reaches(g, slug, t)
  {
    ancestors := {};
    var queue := Listed(Parents(g, slug));
    var visited := {slug};
    ghost var all := Slugs(g);
    ParentsAreSlugs(g, slug);
    FrontierStart(g, slug, queue);
    while queue != []
      invariant ancestors == visited - {slug}
      invariant Exploring(g, slug, all, visited, queue)
      decreases |all - visited|, |queue|
    {
      var current, rest := queue[|queue| - 1], queue[..|queue| - 1];
      LastOf(queue, rest, current);
      if current in visited {
        ExploreSkip(g, slug, all, visited, queue, rest, current);
        queue := rest;
      } else {
        var visited' := visited + {current};
        var more := Listed(Parents(g, current) - visited');
        ExploreStep(g, slug, all, visited, queue, rest, current, visited', more, rest + more);
        GrowAlike(visited, slug, current);
        visited, ancestors, queue := visited', ancestors + {current}, rest + more;
      }
    }
    FrontierDone(g, slug, visited);
  }

  lemma LastOf(queue: seq<string>, rest: seq<string>, current: string)
    requires queue != [] && rest == queue[..|queue| - 1] && current == queue[|queue| - 1]
    ensures queue == rest + [current]
  {
  }

  lemma GrowAlike(visited: set<string>, slug: string, current: string)
    requires slug in visited && current !in visited
    ensures visited - {slug} + {current} == visited + {current} - {slug}
  {
  }

  lemma Shrinks(all: set<string>, visited: set<string>, current: string)
    requires current in all && current !in visited
    ensures |all - (visited + {current})| < |all - visited|
  {
    assert all - visited == (all - (visited + {current})) + {current};
  }

  /** `m` sends every slug of the graph to exactly the other slugs it reaches. */
  ghost predicate IsClosure(g: Graph, m: map<string, set<string>>) {
    && m.Keys == g.Keys
    && forall s, t :: s in m ==> (t in m[s] <==> t != s && Reaches(g, s, t))
  }

  method BuildAllAncestors(g: Graph) returns (result: map<string, set<string>>)
    ensures IsClosure(g, result)
  {
    result := map[];
    var left := g.Keys;
    while left != {}
      invariant left <= g.Keys && result.Keys == g.Keys - left
      invariant forall s, t :: s in result ==> (t in result[s] <==> t != s && Reaches(g, s, t))
    {
      var slug :| slug in left;
      var ancestors := AncestorsOf(g, slug);
      result := result[slug := ancestors];
      left := left - {slug};
    }
  }

  /** A slug outside the graph has no parents, so it reaches nothing: the default of the lookup is right. */
  lemma OutsideReachesNothing(g: Graph, slug: string, to: string)
    requires slug !in g
    ensures !Reaches(g, slug, to)
  {
    forall path
      ensures !PathFrom(g, path, slug, to)
    {
      if |path| >= 2 && path[0] == slug {
        assert !LinkAt(g, path, 0);
      }
    }
  }

  // ---------------------------------------------------------------- the graph of a dump

  /** A later tag with the same id wins. */
  function UuidToSlug(tags: seq<Tag>): (m: map<string, string>)
    decreases |tags|
  {
    if tags == [] then map[]
    else UuidToSlug(tags[..|tags| - 1])[tags[|tags| - 1].id := tags[|tags| - 1].slug]
  }

  ghost predicate DistinctIds(tags: seq<Tag>) {
    forall i, j :: 0 <= i < j < |tags| ==> tags[i].id != tags[j].id
  }

  ghost predicate DistinctSlugs(tags: seq<Tag>) {
    forall i, j :: 0 <= i < j < |tags| ==> tags[i].slug != tags[j].slug
  }

  ghost predicate LastWith(tags: seq<Tag>, id: string, k: int) {
    0 <= k < |tags| && tags[k].id == id && forall j :: k < j < |tags| ==> tags[j].id != id
  }

  /** An id is known exactly when some tag has it, and its slug is that of the last such tag. */
  lemma {:induction false} UuidToSlugLast(tags: seq<Tag>, id: string)
    ensures id in UuidToSlug(tags) <==> exists k :: 0 <= k < |tags| && tags[k].id == id
    ensures id in UuidToSlug(tags) ==> exists k :: LastWith(tags, id, k) && UuidToSlug(tags)[id] == tags[k].slug
    decreases |tags|
  {
    if tags != [] {
      var front := tags[..|tags| - 1];
      var last := tags[|tags| - 1];
      UuidToSlugLast(front, id);
      if last.id == id {
        assert LastWith(tags, id, |tags| - 1);
      } else if id in UuidToSlug(front) {
        var k :| LastWith(front, id, k) && UuidToSlug(front)[id] == front[k].slug;
        assert LastWith(tags, id, k);
      }
    }
  }

  function ParentSlugs(slugOf: map<string, string>, parentIds: seq<string>): set<string> {
    set pid | pid in parentIds && pid in slugOf :: slugOf[pid]
  }

  /** The tag at `k` is the last one listed under `slug`. */
  ghost predicate LastListed(tags: seq<Tag>, slugOf: map<string, string>, slug: string, k: int) {
    && 0 <= k < |tags| && tags[k].id in slugOf && slugOf[tags[k].id] == slug
    && forall j :: k < j < |tags| && tags[j].id in slugOf ==> slugOf[tags[j].id] != slug
  }

  /** Every non-empty slug with a tag has the parents of its last tag, and nothing else has an entry. */
  ghost predicate IsParentGraph(tags: seq<Tag>, slugOf: map<string, string>, g: Graph) {
    && (forall slug :: slug in g ==>
                         && slug != ""
                         && exists k :: LastListed(tags, slugOf, slug, k) &&
                                        g[slug] == ParentSlugs(slugOf, tags[k].parentIds))
    && (forall k :: 0 <= k < |tags| && tags[k].id in slugOf && slugOf[tags[k].id] != "" ==> slugOf[tags[k].id] in g)
  }

  lemma LastListedGrows(tags: seq<Tag>, n: nat, slugOf: map<string, string>, slug: string, k: int)
    requires n < |tags| && LastListed(tags[..n], slugOf, slug, k)
    requires tags[n].id in slugOf ==> slugOf[tags[n].id] != slug
    ensures LastListed(tags[..n + 1], slugOf, slug, k)
  {
  }

  lemma ParentGraphStep(tags: seq<Tag>, n: nat, slugOf: map<string, string>, g: Graph, g': Graph)
    requires n < |tags| && IsParentGraph(tags[..n], slugOf, g)
    requires g' == WithTag(g, tags[n], slugOf)
    ensures IsParentGraph(tags[..n + 1], slugOf, g')
  {
    var seen := tags[..n + 1];
    forall slug | slug in g'
      ensures slug != "" &&
              exists k :: LastListed(seen, slugOf, slug, k) && g'[slug] == ParentSlugs(slugOf, seen[k].parentIds)
    {
      if tags[n].id in slugOf && slugOf[tags[n].id] == slug && slug != "" {
        assert LastListed(seen, slugOf, slug, n);
      } else {
        var k :| LastListed(tags[..n], slugOf, slug, k) && g[slug] == ParentSlugs(slugOf, tags[..n][k].parentIds);
        LastListedGrows(tags, n, slugOf, slug, k);
      }
    }
  }

  function ParentGraph(tags: seq<Tag>, slugOf: map<string, string>): Graph
    decreases |tags|
  {
    if tags == [] then map[]
    else WithTag(ParentGraph(tags[..|tags| - 1], slugOf), tags[|tags| - 1], slugOf)
  }

  /** An empty slug is skipped, and a later tag of the same slug overwrites. */
  function WithTag(g: Graph, tag: Tag, slugOf: map<string, string>): Graph {
    if tag.id in slugOf && slugOf[tag.id] != "" then g[slugOf[tag.id] := ParentSlugs(slugOf, tag.parentIds)] else g
  }

  lemma {:induction false} ParentGraphIs(tags: seq<Tag>, slugOf: map<string, string>)
    ensures IsParentGraph(tags, slugOf, ParentGraph(tags, slugOf))
    decreases |tags|
  {
    if tags != [] {
      var n := |tags| - 1;
      ParentGraphIs(tags[..n], slugOf);
      assert tags[..n + 1] == tags;
      ParentGraphStep(tags, n, slugOf, ParentGraph(tags[..n], slugOf), ParentGraph(tags, slugOf));
    }
  }

  method BuildParentGraph(tags: seq<Tag>, slugOf: map<string, string>) returns (g: Graph)
    ensures g == ParentGraph(tags, slugOf) && IsParentGraph(tags, slugOf, g)
  {
    g := map[];
    for n := 0 to |tags|
      invariant g == ParentGraph(tags[..n], slugOf)
    {
      assert tags[..n + 1][..n] == tags[..n];
      if tags[n].id in slugOf && slugOf[tags[n].id] != "" {
        g := g[slugOf[tags[n].id] := ParentSlugs(slugOf, tags[n].parentIds)];
      }
    }
    assert tags[..|tags|] == tags;
    ParentGraphIs(tags, slugOf);
  }

  predicate DeclaredBy(tag: Tag, other: Tag, slug: string, parent: string) {
    tag.slug == slug && other.slug == parent && other.id in tag.parentIds
  }

  /** The dump declares `parent` a parent of `slug`. */
  ghost predicate Declares(tags: seq<Tag>, slug: string, parent: string) {
    exists i, j :: 0 <= i < |tags| && 0 <= j < |tags| && DeclaredBy(tags[i], tags[j], slug, parent)
  }

  lemma SlugOfDistinct(tags: seq<Tag>, k: int)
    requires DistinctIds(tags) && 0 <= k < |tags|
    ensures tags[k].id in UuidToSlug(tags) && UuidToSlug(tags)[tags[k].id] == tags[k].slug
  {
    UuidToSlugLast(tags, tags[k].id);
  }

  lemma AllSlugsOf(tags: seq<Tag>, slugOf: map<string, string>)
    requires DistinctIds(tags) && slugOf == UuidToSlug(tags)
    ensures forall k :: 0 <= k < |tags| ==> tags[k].id in slugOf && slugOf[tags[k].id] == tags[k].slug
  {
    forall k | 0 <= k < |tags|
      ensures tags[k].id in slugOf && slugOf[tags[k].id] == tags[k].slug
    {
      SlugOfDistinct(tags, k);
    }
  }

  lemma EdgeIsDeclared(tags: seq<Tag>, slugOf: map<string, string>, g: Graph, slug: string, parent: string)
    requires DistinctIds(tags) && slugOf == UuidToSlug(tags) && IsParentGraph(tags, slugOf, g)
    requires parent in Parents(g, slug)
    ensures slug != "" && Declares(tags, slug, parent)
  {
    AllSlugsOf(tags, slugOf);
    var k :| LastListed(tags, slugOf, slug, k) && g[slug] == ParentSlugs(slugOf, tags[k].parentIds);
    var pid :| pid in tags[k].parentIds && pid in slugOf && slugOf[pid] == parent;
    UuidToSlugLast(tags, pid);
    var j :| LastWith(tags, pid, j);
    assert DeclaredBy(tags[k], tags[j], slug, parent);
  }

  lemma DeclaredIsEdge(tags: seq<Tag>, slugOf: map<string, string>, g: Graph, slug: string, parent: string)
    requires DistinctIds(tags) && DistinctSlugs(tags) && slugOf == UuidToSlug(tags) && IsParentGraph(tags, slugOf, g)
    requires slug != "" && Declares(tags, slug, parent)
    ensures parent in Parents(g, slug)
  {
    AllSlugsOf(tags, slugOf);
    var i, j :| 0 <= i < |tags| && 0 <= j < |tags| && DeclaredBy(tags[i], tags[j], slug, parent);
    assert slugOf[tags[i].id] in g;
    var k :| LastListed(tags, slugOf, slug, k) && g[slug] == ParentSlugs(slugOf, tags[k].parentIds);
    assert tags[k].slug == slug;
    assert slugOf[tags[j].id] in g[slug];
  }

  /** With distinct ids and distinct slugs the edges are the declared ones, for every slug but the empty one. */
  lemma EdgesAreDeclared(tags: seq<Tag>, g: Graph, slug: string, parent: string)
    requires DistinctIds(tags) && DistinctSlugs(tags) && g == ParentGraph(tags, UuidToSlug(tags))
    ensures parent in Parents(g, slug) <==> slug != "" && Declares(tags, slug, parent)
  {
    ParentGraphIs(tags, UuidToSlug(tags));
    if parent in Parents(g, slug) {
      EdgeIsDeclared(tags, UuidToSlug(tags), g, slug, parent);
    }
    if slug != "" && Declares(tags, slug, parent) {
      DeclaredIsEdge(tags, UuidToSlug(tags), g, slug, parent);
    }
  }
}
