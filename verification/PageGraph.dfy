/** The graph whose edges are the reported duplicate pairs, and its components. */
module PageGraph {
  import opened CodeUnits

  type Page = Text

  datatype Pair = Pair(a: Page, b: Page)

  predicate Edge(pairs: seq<Pair>, x: Page, y: Page) {
    Pair(x, y) in pairs || Pair(y, x) in pairs
  }

  predicate IsPath(pairs: seq<Pair>, p: seq<Page>) {
    p != [] && forall i | 0 <= i < |p| - 1 :: Edge(pairs, p[i], p[i + 1])
  }

  predicate PathFromTo(pairs: seq<Pair>, p: seq<Page>, x: Page, y: Page) {
    IsPath(pairs, p) && p[0] == x && p[|p| - 1] == y
  }

  ghost predicate Connected(pairs: seq<Pair>, x: Page, y: Page) {
    exists p :: PathFromTo(pairs, p, x, y)
  }

  predicate IsNode(pairs: seq<Pair>, x: Page) {
    exists i | 0 <= i < |pairs| :: pairs[i].a == x || pairs[i].b == x
  }

  lemma ConnectedReflexive(pairs: seq<Pair>, x: Page)
    ensures Connected(pairs, x, x)
  {
    assert PathFromTo(pairs, [x], x, x);
  }

  lemma ConnectedEdge(pairs: seq<Pair>, x: Page, y: Page)
    requires Edge(pairs, x, y)
    ensures Connected(pairs, x, y)
  {
    assert PathFromTo(pairs, [x, y], x, y);
  }

  lemma {:induction false} ConnectedTransitive(pairs: seq<Pair>, x: Page, y: Page, z: Page)
    requires Connected(pairs, x, y) && Connected(pairs, y, z)
    ensures Connected(pairs, x, z)
  {
    hide Edge;
    var p :| PathFromTo(pairs, p, x, y);
    var q :| PathFromTo(pairs, q, y, z);
    var r := p + q[1..];
    forall i | 0 <= i < |r| - 1 ensures Edge(pairs, r[i], r[i + 1]) {
      if i >= |p| - 1 {
        assert r[i] == q[i - (|p| - 1)] && r[i + 1] == q[i - (|p| - 1) + 1];
      }
    }
    assert PathFromTo(pairs, r, x, z);
  }

  lemma {:induction false} ConnectedSymmetric(pairs: seq<Pair>, x: Page, y: Page)
    requires Connected(pairs, x, y)
    ensures Connected(pairs, y, x)
  {
    var p :| PathFromTo(pairs, p, x, y);
    var r := seq(|p|, i requires 0 <= i < |p| => p[|p| - 1 - i]);
    forall i | 0 <= i < |r| - 1 ensures Edge(pairs, r[i], r[i + 1]) {
      assert Edge(pairs, p[|p| - 2 - i], p[|p| - 2 - i + 1]);
    }
    assert PathFromTo(pairs, r, y, x);
  }

  lemma {:induction false} ConnectedMonotone(pairs: seq<Pair>, more: seq<Pair>, x: Page, y: Page)
    requires Connected(pairs, x, y) && forall e | e in pairs :: e in more
    ensures Connected(more, x, y)
  {
    var p :| PathFromTo(pairs, p, x, y);
    assert PathFromTo(more, p, x, y);
  }

  /** A labelling that agrees along every pair agrees along every path. */
  lemma {:induction false} PathKeepsLabel(pairs: seq<Pair>, root: map<Page, Page>, p: seq<Page>, x: Page, y: Page)
    requires PathFromTo(pairs, p, x, y) && x in root
    requires forall e | e in pairs :: e.a in root && e.b in root && root[e.a] == root[e.b]
    ensures y in root && root[x] == root[y]
    decreases |p|
  {
    if |p| > 1 {
      assert Edge(pairs, p[0], p[1]);
      var q := p[1..];
      forall i | 0 <= i < |q| - 1 ensures Edge(pairs, q[i], q[i + 1]) {
        assert Edge(pairs, p[i + 1], p[i + 1 + 1]);
      }
      assert PathFromTo(pairs, q, p[1], y);
      PathKeepsLabel(pairs, root, p[1..], p[1], y);
    }
  }

  lemma {:induction false} ConnectedKeepsLabel(pairs: seq<Pair>, root: map<Page, Page>, x: Page, y: Page)
    requires Connected(pairs, x, y) && x in root
    requires forall e | e in pairs :: e.a in root && e.b in root && root[e.a] == root[e.b]
    ensures y in root && root[x] == root[y]
  {
    var p :| PathFromTo(pairs, p, x, y);
    PathKeepsLabel(pairs, root, p, x, y);
  }

  /** Different connected pages both occur in some pair. */
  lemma {:induction false} ConnectedAreNodes(pairs: seq<Pair>, x: Page, y: Page)
    requires Connected(pairs, x, y) && x != y
    ensures IsNode(pairs, x) && IsNode(pairs, y)
  {
    var p :| PathFromTo(pairs, p, x, y);
    assert Edge(pairs, p[0], p[1]) && Edge(pairs, p[|p| - 2], p[|p| - 2 + 1]);
  }
}
