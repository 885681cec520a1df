/**
 * groupDuplicates: union-find over a mutable parent map, with recursive path
 * compression, proved to return exactly the connected components of size above one.
 */
module DuplicateGroups {
  import opened CodeUnits
  import opened Sorting
  import opened PageGraph

  type Labels = map<Page, Page>
  type Ranks = map<Page, nat>

  /**
   * A node's parent leads to the same root, and the rank falls along every parent
   * link and from a node to its root; so following parents ends, at the root.
   */
  predicate LinkOk(parent: Labels, root: Labels, rank: Ranks, x: Page) {
    && x in parent && x in root && x in rank
    && var p, r := parent[x], root[x];
    && p in parent && p in root && p in rank && root[p] == r
    && r in parent && r in root && r in rank && root[r] == r && parent[r] == r
    && (p == x ==> r == x)
    && (p != x ==> rank[p] < rank[x])
    && (r != x ==> rank[r] < rank[x])
  }

  ghost predicate Forest(parent: Labels, root: Labels, rank: Ranks) {
    && root.Keys == parent.Keys && rank.Keys == parent.Keys
    && forall x {:trigger LinkOk(parent, root, rank, x)} :: x in parent ==> LinkOk(parent, root, rank, x)
  }

  lemma {:induction false} CompressKeepsForest(parent: Labels, root: Labels, rank: Ranks, x: Page)
    requires Forest(parent, root, rank) && x in parent && parent[x] != x
    ensures Forest(parent[x := root[x]], root, rank)
  {
    assert LinkOk(parent, root, rank, x);
    var parent' := parent[x := root[x]];
    assert LinkOk(parent, root, rank, root[x]);
    assert root[x] != x;
    forall y | y in parent' ensures LinkOk(parent', root, rank, y) {
      assert LinkOk(parent, root, rank, y);
    }
  }

  lemma {:induction false} AddKeepsForest(parent: Labels, root: Labels, rank: Ranks, x: Page)
    requires Forest(parent, root, rank) && x !in parent
    ensures Forest(parent[x := x], root[x := x], rank[x := 0])
  {
    var parent', root', rank' := parent[x := x], root[x := x], rank[x := 0];
    forall y | y in parent' ensures LinkOk(parent', root', rank', y) {
      assert y != x ==> LinkOk(parent, root, rank, y);
    }
  }

  function Merged(root: Labels, ra: Page, rb: Page): Labels {
    map x | x in root :: if root[x] == ra then rb else root[x]
  }

  function Lifted(root: Labels, rank: Ranks, ra: Page, lift: nat): Ranks {
    map x | x in rank :: if x in root && root[x] == ra then rank[x] + lift else rank[x]
  }

  lemma {:induction false} LinkKeepsForest(parent: Labels, root: Labels, rank: Ranks, ra: Page, rb: Page)
    requires Forest(parent, root, rank) && ra in root && rb in root && root[ra] == ra && root[rb] == rb && ra != rb
    ensures Forest(parent[ra := rb], Merged(root, ra, rb), Lifted(root, rank, ra, rank[rb] + 1))
  {
    var parent', root', rank' := parent[ra := rb], Merged(root, ra, rb), Lifted(root, rank, ra, rank[rb] + 1);
    assert LinkOk(parent, root, rank, ra) && LinkOk(parent, root, rank, rb);
    forall y | y in parent' ensures LinkOk(parent', root', rank', y) {
      assert LinkOk(parent, root, rank, y);
    }
  }

  /** The nodes from x up to its root. */
  ghost function Path(parent: Labels, root: Labels, rank: Ranks, x: Page): set<Page>
    requires Forest(parent, root, rank) && x in parent
    decreases if x in rank then rank[x] else 0
  {
    assert LinkOk(parent, root, rank, x);
    if parent[x] == x then {x} else {x} + Path(parent, root, rank, parent[x])
  }

  /** Every node of the path points at its root, and no other parent changes. */
  function Compressed(parent: Labels, root: Labels, path: set<Page>): Labels {
    map y | y in parent :: if y in path && y in root then root[y] else parent[y]
  }

  lemma CompressedNothing(parent: Labels, root: Labels, rank: Ranks, x: Page)
    requires Forest(parent, root, rank) && x in parent && parent[x] == x
    ensures Compressed(parent, root, Path(parent, root, rank, x)) == parent
  {
    assert LinkOk(parent, root, rank, x);
    hide Forest, LinkOk;
    assert Path(parent, root, rank, x) == {x};
  }

  lemma CompressedOneMore(parent: Labels, root: Labels, rank: Ranks, x: Page)
    requires Forest(parent, root, rank) && x in parent && parent[x] != x
    ensures parent[x] in parent && x in root
    ensures Compressed(parent, root, Path(parent, root, rank, x)) ==
            Compressed(parent, root, Path(parent, root, rank, parent[x]))[x := root[x]]
  {
    assert LinkOk(parent, root, rank, x);
    hide LinkOk;
    assert Path(parent, root, rank, x) == {x} + Path(parent, root, rank, parent[x]);
  }

  lemma FindFacts(parent: Labels, root: Labels, rank: Ranks, x: Page)
    requires Forest(parent, root, rank) && x in parent
    ensures LinkOk(parent, root, rank, x)
    ensures LinkOk(parent, root, rank, parent[x]) && LinkOk(parent, root, rank, root[x])
  {
    assert LinkOk(parent, root, rank, x);
  }

  /**
   * The `parent` Map; `nodes` is its insertion order. The ghost maps say which root
   * each node leads to and how the ranks fall.
   */
  class PageForest {
    var parent: Labels
    var nodes: seq<Page>
    ghost var root: Labels
    ghost var rank: Ranks

    ghost predicate Valid()
      reads this
    {
      Forest(parent, root, rank) && Listed(nodes, parent)
    }

    constructor ()
      ensures Valid() && root == map[]
    {
      parent, nodes, root, rank := map[], [], map[], map[];
    }

    /** Path compression rewrites parents on the way back but moves no node to another root. */
    method Find(x: Page) returns (p: Page)
      requires Valid()
      modifies this`parent
      ensures Valid()
      ensures p == if x in root then root[x] else x
      ensures x in root ==> parent == Compressed(old(parent), root, Path(old(parent), root, rank, x))
      ensures x !in root ==> parent == old(parent)
      decreases if x in rank then rank[x] else 0
    {
      if x in parent {
        FindFacts(parent, root, rank, x);
      }
      assert root.Keys == parent.Keys;
      ghost var before := parent;
      hide Forest, Listed;
      p := if x in parent then parent[x] else x;
      if p != x {
        p := Find(p);
        CompressAgain(parent, nodes, root, rank, x);
        CompressedOneMore(before, root, rank, x);
        parent := parent[x := p];
      } else if x in parent {
        CompressedNothing(before, root, rank, x);
      }
    }

    /** parent.set(x, parent.get(x) ?? x) */
    method Add(x: Page)
      requires Valid()
      modifies this
      ensures Valid()
      ensures root == if x in old(root) then old(root) else old(root)[x := x]
    {
      assert root.Keys == parent.Keys;
      hide Forest;
      if x !in parent {
        AddKeepsForest(parent, root, rank, x);
        ListedAdd(nodes, parent, x);
        hide Listed;
        parent, nodes := parent[x := x], nodes + [x];
        root, rank := root[x := x], rank[x := 0];
      }
    }

    method Union(a: Page, b: Page)
      requires Valid() && a in root && b in root
      modifies this
      ensures Valid()
      ensures root == Merged(old(root), old(root)[a], old(root)[b])
    {
      hide Listed, LinkOk, Merged;
      RootsAreRoots(parent, root, rank, a, b);
      var ra := Find(a);
      var rb := Find(b);
      if ra != rb {
        Link(ra, rb);
      } else {
        MergedSame(root, ra);
      }
    }

    method Link(ra: Page, rb: Page)
      requires Valid() && ra in root && rb in root && root[ra] == ra && root[rb] == rb && ra != rb
      modifies this
      ensures Valid() && root == Merged(old(root), ra, rb)
    {
      hide Forest, Listed, Merged, Lifted;
      RootsAreRoots(parent, root, rank, ra, rb);
      LinkKeepsForest(parent, root, rank, ra, rb);
      ListedUpdate(nodes, parent, ra, rb);
      parent := parent[ra := rb];
      root, rank := Merged(root, ra, rb), Lifted(root, rank, ra, rank[rb] + 1);
    }
  }

  /** `nodes` lists the keys of the Map once each. */
  ghost predicate Listed(nodes: seq<Page>, parent: Labels) {
    && (forall x :: x in nodes <==> x in parent)
    && forall i, j | 0 <= i < j < |nodes| :: nodes[i] != nodes[j]
  }

  lemma ListedAdd(nodes: seq<Page>, parent: Labels, x: Page)
    requires Listed(nodes, parent) && x !in parent
    ensures Listed(nodes + [x], parent[x := x])
  {
  }

  lemma ListedUpdate(nodes: seq<Page>, parent: Labels, x: Page, p: Page)
    requires Listed(nodes, parent) && x in parent
    ensures Listed(nodes, parent[x := p])
  {
  }

  lemma {:induction false} CompressAgain(parent: Labels, nodes: seq<Page>, root: Labels, rank: Ranks, x: Page)
    requires Forest(parent, root, rank) && Listed(nodes, parent) && x in parent && root[x] != x
    ensures Forest(parent[x := root[x]], root, rank) && Listed(nodes, parent[x := root[x]])
  {
    hide Listed;
    assert LinkOk(parent, root, rank, x);
    if parent[x] == x {
      assert false;
    }
    CompressKeepsForest(parent, root, rank, x);
    ListedUpdate(nodes, parent, x, root[x]);
  }

  lemma MergedSame(root: Labels, r: Page)
    ensures Merged(root, r, r) == root
  {
  }

  lemma RootsAreRoots(parent: Labels, root: Labels, rank: Ranks, a: Page, b: Page)
    requires Forest(parent, root, rank) && a in root && b in root
    ensures root[a] in root && root[root[a]] == root[a] && root[b] in root && root[root[b]] == root[b]
    ensures root[a] in parent && root[b] in rank
  {
    assert LinkOk(parent, root, rank, a) && LinkOk(parent, root, rank, b);
  }

  // ---------------------------------------------------------------------------
  // Roots and components
  // ---------------------------------------------------------------------------

  /** Paired pages share a root, and pages that share a root are connected. */
  ghost predicate Tracks(pairs: seq<Pair>, root: Labels) {
    && (forall e | e in pairs :: e.a in root && e.b in root && root[e.a] == root[e.b])
    && (forall x, y | x in root && y in root && root[x] == root[y] :: Connected(pairs, x, y))
  }

  ghost predicate RootsInside(root: Labels) {
    forall x {:trigger root[x]} :: x in root ==> root[x] in root.Keys
  }

  ghost predicate Covers(pairs: seq<Pair>, root: Labels) {
    forall x :: x in root <==> IsNode(pairs, x)
  }

  function Grown(root: Labels, x: Page): Labels {
    if x in root then root else root[x := x]
  }

  lemma {:induction false} GrownTracks(pairs: seq<Pair>, root: Labels, x: Page)
    requires Tracks(pairs, root) && RootsInside(root)
    ensures Tracks(pairs, Grown(root, x)) && RootsInside(Grown(root, x))
  {
    hide Connected;
    var root' := Grown(root, x);
    if x !in root {
      ConnectedReflexive(pairs, x);
      forall y, z | y in root' && z in root' && root'[y] == root'[z] ensures Connected(pairs, y, z) {
        assert y != x ==> root[y] in root.Keys;
        assert z != x ==> root[z] in root.Keys;
      }
    }
  }

  lemma {:induction false} MergedTracks(pairs: seq<Pair>, root: Labels, e: Pair)
    requires Tracks(pairs, root) && e.a in root && e.b in root
    ensures Tracks(pairs + [e], Merged(root, root[e.a], root[e.b]))
  {
    hide Connected;
    var more, root' := pairs + [e], Merged(root, root[e.a], root[e.b]);
    forall x, y | x in root' && y in root' && root'[x] == root'[y] ensures Connected(more, x, y) {
      if root[x] == root[y] {
        ConnectedMonotone(pairs, more, x, y);
      } else if root[x] == root[e.a] {
        Across(pairs, more, e, x, y);
      } else {
        Across(pairs, more, e, y, x);
        ConnectedSymmetric(more, y, x);
      }
    }
  }

  /** From the first page's side of the new pair to the second's. */
  lemma {:induction false} Across(pairs: seq<Pair>, more: seq<Pair>, e: Pair, x: Page, y: Page)
    requires more == pairs + [e] && Connected(pairs, x, e.a) && Connected(pairs, e.b, y)
    ensures Connected(more, x, y)
  {
    hide Connected;
    ConnectedMonotone(pairs, more, x, e.a);
    ConnectedMonotone(pairs, more, e.b, y);
    assert more[|pairs|] == e;
    ConnectedEdge(more, e.a, e.b);
    ConnectedTransitive(more, x, e.a, e.b);
    ConnectedTransitive(more, x, e.b, y);
  }

  lemma {:induction false} MergedCovers(pairs: seq<Pair>, root: Labels, e: Pair)
    requires Covers(pairs, root)
    ensures var root' := Grown(Grown(root, e.a), e.b);
      forall ra, rb :: Covers(pairs + [e], Merged(root', ra, rb))
  {
    var more := pairs + [e];
    forall x ensures IsNode(more, x) <==> IsNode(pairs, x) || x == e.a || x == e.b {
      if IsNode(pairs, x) {
        var i :| 0 <= i < |pairs| && (pairs[i].a == x || pairs[i].b == x);
        assert more[i] == pairs[i];
      }
      assert more[|pairs|] == e;
    }
  }

  lemma RootsInsideOf(parent: Labels, root: Labels, rank: Ranks)
    requires Forest(parent, root, rank)
    ensures RootsInside(root)
  {
    forall x | x in root ensures root[x] in root.Keys {
      assert LinkOk(parent, root, rank, x);
    }
  }

  /** The finished roots tell connection exactly. */
  lemma {:induction false} SameRootIffConnected(pairs: seq<Pair>, root: Labels, x: Page, y: Page)
    requires Tracks(pairs, root) && x in root
    ensures Connected(pairs, x, y) <==> y in root && root[x] == root[y]
  {
    hide Connected;
    if Connected(pairs, x, y) {
      ConnectedKeepsLabel(pairs, root, x, y);
    }
  }

  // ---------------------------------------------------------------------------
  // Collecting the groups
  // ---------------------------------------------------------------------------

  ghost predicate BucketOk(done: seq<Page>, root: Labels, bucket: seq<Page>, r: Page) {
    && bucket != [] && NoRepeats(bucket)
    && forall x :: x in bucket <==> x in done && x in root && root[x] == r
  }

  ghost predicate Bucketed(done: seq<Page>, root: Labels, buckets: map<Page, seq<Page>>, order: seq<Page>) {
    && NoRepeats(order)
    && (forall r :: r in order <==> r in buckets)
    && (forall r {:trigger BucketOk(done, root, buckets[r], r)} | r in buckets :: BucketOk(done, root, buckets[r], r))
    && (forall x | x in done && x in root :: root[x] in order)
  }

  function AddTo(buckets: map<Page, seq<Page>>, r: Page, x: Page): map<Page, seq<Page>> {
    buckets[r := (if r in buckets then buckets[r] else []) + [x]]
  }

  lemma {:induction false} BucketStep(done: seq<Page>, root: Labels, buckets: map<Page, seq<Page>>, order: seq<Page>, x: Page)
    requires Bucketed(done, root, buckets, order) && x !in done && x in root
    ensures Bucketed(done + [x], root, AddTo(buckets, root[x], x), if root[x] in buckets then order else order + [root[x]])
  {
    var r := root[x];
    var buckets' := AddTo(buckets, r, x);
    if r in buckets {
      assert BucketOk(done, root, buckets[r], r);
    }
    forall q | q in buckets' ensures BucketOk(done + [x], root, buckets'[q], q) {
      assert q in buckets ==> BucketOk(done, root, buckets[q], q);
    }
  }

  /** A sorted whole component with more than one page. */
  ghost predicate GroupOk(pairs: seq<Pair>, g: seq<Page>) {
    && |g| > 1 && StrictlySorted(g)
    && forall x, y | x in g :: y in g <==> Connected(pairs, x, y)
  }

  lemma {:induction false} BucketIsGroup(pairs: seq<Pair>, done: seq<Page>, root: Labels, bucket: seq<Page>, r: Page)
    requires Tracks(pairs, root) && BucketOk(done, root, bucket, r) && |bucket| > 1 && forall x | x in root :: x in done
    ensures GroupOk(pairs, Sort(bucket, Itself))
    ensures forall x :: x in Sort(bucket, Itself) <==> x in root && root[x] == r
  {
    hide Connected, Sort, Tracks;
    SortStrict(bucket);
    SortMembers(bucket, Itself);
    var g := Sort(bucket, Itself);
    forall x, y | x in g ensures y in g <==> Connected(pairs, x, y) {
      SameRootIffConnected(pairs, root, x, y);
    }
  }

  /** Group k is the component of root roots[k]. */
  ghost predicate Collected(root: Labels, groups: seq<seq<Page>>, roots: seq<Page>) {
    && |groups| == |roots| && NoRepeats(roots)
    && forall k | 0 <= k < |groups| :: IsComponentOf(root, groups[k], roots[k])
  }

  ghost predicate IsComponentOf(root: Labels, g: seq<Page>, r: Page) {
    forall x :: x in g <==> x in root && root[x] == r
  }

  /** Every group is a whole component, no page is in two, and no connected pair is missed. */
  ghost predicate ExactGroups(pairs: seq<Pair>, groups: seq<seq<Page>>) {
    && (forall k | 0 <= k < |groups| :: GroupOk(pairs, groups[k]))
    && (forall j, k, x | 0 <= j < k < |groups| && x in groups[j] :: x !in groups[k])
    && (forall x, y | x != y && Connected(pairs, x, y) :: InSomeGroup(groups, x))
  }

  ghost predicate InSomeGroup(groups: seq<seq<Page>>, x: Page) {
    exists k :: 0 <= k < |groups| && x in groups[k]
  }

  lemma {:induction false} CollectedIsExact(pairs: seq<Pair>, root: Labels, buckets: map<Page, seq<Page>>,
                                            order: seq<Page>, groups: seq<seq<Page>>, roots: seq<Page>, done: seq<Page>)
    requires Tracks(pairs, root) && Covers(pairs, root) && Bucketed(done, root, buckets, order)
    requires forall x | x in root :: x in done
    requires Collected(root, groups, roots) && forall k | 0 <= k < |groups| :: GroupOk(pairs, groups[k])
    requires forall r | r in order :: r in buckets && (|buckets[r]| > 1 ==> r in roots)
    ensures ExactGroups(pairs, groups)
  {
    hide Connected, Tracks, GroupOk, IsNode;
    forall j, k, x | 0 <= j < k < |groups| && x in groups[j] ensures x !in groups[k] {
      assert IsComponentOf(root, groups[j], roots[j]) && IsComponentOf(root, groups[k], roots[k]);
    }
    forall x, y | x != y && Connected(pairs, x, y) ensures InSomeGroup(groups, x) {
      ConnectedAreNodes(pairs, x, y);
      SameRootIffConnected(pairs, root, x, y);
      var r := root[x];
      assert BucketOk(done, root, buckets[r], r);
      assert x in buckets[r] && y in buckets[r];
      var k :| 0 <= k < |roots| && roots[k] == r;
      assert IsComponentOf(root, groups[k], r);
    }
  }

  lemma {:induction false} CollectStep(pairs: seq<Pair>, done: seq<Page>, root: Labels, bucket: seq<Page>, r: Page,
                                       groups: seq<seq<Page>>, roots: seq<Page>)
    requires Tracks(pairs, root) && BucketOk(done, root, bucket, r) && |bucket| > 1 && forall x | x in root :: x in done
    requires Collected(root, groups, roots) && r !in roots
    requires forall k | 0 <= k < |groups| :: GroupOk(pairs, groups[k])
    ensures var groups' := groups + [Sort(bucket, Itself)];
      Collected(root, groups', roots + [r]) && forall k | 0 <= k < |groups'| :: GroupOk(pairs, groups'[k])
  {
    BucketIsGroup(pairs, done, root, bucket, r);
    hide GroupOk, Sort, Tracks, BucketOk;
  }

  method GroupDuplicates(pairs: seq<Pair>) returns (groups: seq<seq<Page>>)
    ensures ExactGroups(pairs, groups)
  {
    var forest := new PageForest();
    hide ExactGroups, Tracks, Forest, Listed, Merged;
    BuildStart();
    for i := 0 to |pairs|
      invariant forest.Valid() && Tracks(pairs[..i], forest.root) && Covers(pairs[..i], forest.root)
    {
      var a, b := pairs[i].a, pairs[i].b;
      ghost var root := forest.root;
      BuildStep(pairs, i, forest.parent, root, forest.rank);
      forest.Add(a);
      forest.Add(b);
      forest.Union(a, b);
    }
    assert pairs[..|pairs|] == pairs;
    groups := CollectGroups(pairs, forest);
  }

  lemma BuildStart()
    ensures Tracks([], map[]) && Covers([], map[])
  {
  }

  lemma {:induction false} BuildStep(pairs: seq<Pair>, i: nat, parent: Labels, root: Labels, rank: Ranks)
    requires i < |pairs| && Tracks(pairs[..i], root) && Covers(pairs[..i], root) && Forest(parent, root, rank)
    ensures var e := pairs[i];
      var root' := Grown(Grown(root, e.a), e.b);
      && Tracks(pairs[..i + 1], Merged(root', root'[e.a], root'[e.b]))
      && Covers(pairs[..i + 1], Merged(root', root'[e.a], root'[e.b]))
  {
    var e := pairs[i];
    RootsInsideOf(parent, root, rank);
    hide Forest, Tracks, Covers, RootsInside;
    assert pairs[..i + 1] == pairs[..i] + [e];
    GrownTracks(pairs[..i], root, e.a);
    GrownTracks(pairs[..i], Grown(root, e.a), e.b);
    MergedTracks(pairs[..i], Grown(Grown(root, e.a), e.b), e);
    MergedCovers(pairs[..i], root, e);
  }

  /** Every page goes into the bucket of its root; `order` is the order of the buckets. */
  method FillBuckets(forest: PageForest) returns (buckets: map<Page, seq<Page>>, order: seq<Page>)
    requires forest.Valid()
    modifies forest`parent
    ensures forest.Valid()
    ensures Bucketed(forest.nodes, forest.root, buckets, order)
  {
    ghost var root := forest.root;
    NodesAreKeys(forest.parent, forest.nodes, root, forest.rank);
    hide Forest, Listed, BucketOk;
    buckets, order := map[], [];
    for i := 0 to |forest.nodes|
      invariant forest.Valid()
      invariant Bucketed(forest.nodes[..i], root, buckets, order)
    {
      var node := forest.nodes[i];
      assert node !in forest.nodes[..i] && forest.nodes[..i + 1] == forest.nodes[..i] + [node];
      BucketStep(forest.nodes[..i], root, buckets, order, node);
      hide Bucketed, NoRepeats;
      var r := forest.Find(node);
      if r !in buckets {
        order := order + [r];
      }
      buckets := AddTo(buckets, r, node);
    }
    assert forest.nodes[..|forest.nodes|] == forest.nodes;
  }

  lemma {:induction false} NextBucket(done: seq<Page>, root: Labels, buckets: map<Page, seq<Page>>, order: seq<Page>, i: nat)
    requires Bucketed(done, root, buckets, order) && i < |order|
    ensures order[i] in buckets && BucketOk(done, root, buckets[order[i]], order[i])
    ensures order[i] !in order[..i] && order[..i + 1] == order[..i] + [order[i]]
  {
    hide BucketOk;
    assert order[i] in order;
  }

  method CollectGroups(ghost pairs: seq<Pair>, forest: PageForest) returns (groups: seq<seq<Page>>)
    requires forest.Valid() && Tracks(pairs, forest.root) && Covers(pairs, forest.root)
    modifies forest`parent
    ensures ExactGroups(pairs, groups)
  {
    ghost var root, done := forest.root, forest.nodes;
    NodesAreKeys(forest.parent, forest.nodes, root, forest.rank);
    assert Collected(root, [], []);
    hide Forest, Listed, Tracks, Covers, BucketOk, GroupOk, ExactGroups, Bucketed, NoRepeats, Collected;
    var buckets, order := FillBuckets(forest);
    groups := [];
    ghost var roots: seq<Page> := [];
    for i := 0 to |order|
      invariant Collected(root, groups, roots) && forall k | 0 <= k < |groups| :: GroupOk(pairs, groups[k])
      invariant forall r | r in roots :: r in order[..i]
      invariant forall r | r in order[..i] :: r in buckets && (|buckets[r]| > 1 ==> r in roots)
    {
      var r := order[i];
      NextBucket(done, root, buckets, order, i);
      if |buckets[r]| > 1 {
        CollectStep(pairs, done, root, buckets[r], r, groups, roots);
        groups, roots := groups + [Sort(buckets[r], Itself)], roots + [r];
      }
    }
    assert order[..|order|] == order;
    CollectedIsExact(pairs, root, buckets, order, groups, roots, done);
  }

  lemma NodesAreKeys(parent: Labels, nodes: seq<Page>, root: Labels, rank: Ranks)
    requires Forest(parent, root, rank) && Listed(nodes, parent)
    ensures NoRepeats(nodes) && forall x :: x in nodes <==> x in root
  {
    assert root.Keys == parent.Keys;
    hide LinkOk;
  }
}
