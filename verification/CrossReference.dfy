/**
 * Bidirectional links between wiki pages: normalizing a slug, the in-memory repair,
 * and the detector that reports links without a link back.
 */
module CrossReference {
  import opened CodeUnits
  import opened Prelude
  import opened TextTools

  type Slug = Text

  const SLASH: Unit := 0x2F
  const BACKSLASH: Unit := 0x5C

  // ---------------------------------------------------------------------------
  // Slugs
  // ---------------------------------------------------------------------------

  function StripSlashes(s: Text): (t: Text)
    ensures |t| <= |s| && (|t| == |s| ==> t == s)
    ensures t == [] || t[0] != SLASH
    ensures |t| == |s| <==> s == [] || s[0] != SLASH
  {
    if s != [] && s[0] == SLASH then StripSlashes(s[1..]) else s
  }

  /** The suffix .md, in either case. */
  predicate EndsInMd(s: Text) {
    && |s| >= 3
    && s[|s| - 3] == 0x2E
    && s[|s| - 2] in {0x6D, 0x4D}
    && s[|s| - 1] in {0x64, 0x44}
  }

  function StripMd(s: Text): Text {
    if EndsInMd(s) then s[..|s| - 3] else s
  }

  function NormalizeSlug(s: Text): Slug {
    StripMd(StripSlashes(Trim(s)))
  }

  function ForwardSlashes(s: Text): Text {
    seq(|s|, i requires 0 <= i < |s| => if s[i] == BACKSLASH then SLASH else s[i])
  }

  function ToWikiSlug(relativePath: Text): Slug {
    StripMd(ForwardSlashes(relativePath))
  }

  predicate Normalized(s: Slug) {
    NormalizeSlug(s) == s
  }

  /** Each step of the normalization can only shorten, so a fixed point survives every step. */
  lemma NormalizationShortens(s: Text)
    ensures |NormalizeSlug(s)| <= |StripSlashes(Trim(s))| <= |Trim(s)| <= |TrimStart(s)| <= |s|
    ensures |TrimStart(s)| == |s| ==> TrimStart(s) == s
    ensures |Trim(s)| == |TrimStart(s)| ==> Trim(s) == TrimStart(s)
    ensures |StripSlashes(Trim(s))| == |Trim(s)| ==> StripSlashes(Trim(s)) == Trim(s)
  {
    hide IsSpace, TrimStart, TrimEnd, StripSlashes;
  }

  /** What makes a slug normalized, read off the slug itself. */
  lemma {:induction false} NormalizedExactly(s: Slug)
    ensures Normalized(s) <==>
            s == [] || (!IsSpace(s[0]) && !IsSpace(s[|s| - 1]) && s[0] != SLASH && !EndsInMd(s))
  {
    hide TrimStart, TrimEnd, StripSlashes, IsSpace, Trim;
    NormalizationShortens(s);
    if Normalized(s) {
      TrimLeavesNoSpace(s);
    } else if s != [] && !IsSpace(s[0]) && !IsSpace(s[|s| - 1]) {
      TrimKeeps(s);
    }
  }

  predicate CleanPath(path: Text) {
    && BACKSLASH !in path
    && (path == [] || (!IsSpace(path[0]) && !IsSpace(path[|path| - 1]) && path[0] != SLASH))
  }

  /**
   * A link that names a page by its own path reaches the page exactly when the path has
   * forward slashes only, none in front, and no white space around it.
   */
  lemma {:induction false} OwnPathReachesExactly(path: Text)
    ensures NormalizeSlug(path) == ToWikiSlug(path) <==> CleanPath(path)
  {
    hide TrimStart, TrimEnd, StripSlashes, IsSpace, Trim;
    NormalizationShortens(path);
    var x, f := StripSlashes(Trim(path)), ForwardSlashes(path);
    SlashesKeepMd(path);
    if CleanPath(path) {
      TrimKeeps(path);
      assert f == path;
    } else if x == path {
      if path != [] {
        TrimLeavesNoSpace(path);
      }
      BackslashShows(path);
    } else {
      ShorterShows(path);
    }
  }

  lemma SlashesKeepMd(path: Text)
    ensures EndsInMd(ForwardSlashes(path)) <==> EndsInMd(path)
  {
  }

  /** A backslash is never in the suffix, so replacing it shows in the slug. */
  lemma BackslashShows(path: Text)
    requires BACKSLASH in path
    ensures StripMd(path) != StripMd(ForwardSlashes(path))
  {
    SlashesKeepMd(path);
    var i :| 0 <= i < |path| && path[i] == BACKSLASH;
    var a, b := StripMd(path), StripMd(ForwardSlashes(path));
    assert EndsInMd(path) ==> i < |path| - 3;
    assert a[i] != b[i];
  }

  /** Neither does trimming take the suffix away. */
  lemma {:induction false} ShorterShows(path: Text)
    requires StripSlashes(Trim(path)) != path
    ensures |NormalizeSlug(path)| < |ToWikiSlug(path)|
  {
    hide IsSpace;
    NormalizationShortens(path);
    SlashesKeepMd(path);
    if EndsInMd(path) {
      SuffixStays(path);
    }
  }

  lemma {:induction false} SuffixStays(path: Text)
    requires EndsInMd(path)
    ensures EndsInMd(StripSlashes(Trim(path)))
  {
    var n := |path|;
    assert !IsSpace(path[n - 3]) && !IsSpace(path[n - 1]);
    TrimStartKeepsSuffix(path);
    TrimEndKeeps(TrimStart(path));
    StripSlashesKeepsSuffix(TrimStart(path));
  }

  lemma {:induction false} TrimStartKeepsSuffix(s: Text)
    requires EndsInMd(s)
    ensures EndsInMd(TrimStart(s)) && TrimStart(s)[|TrimStart(s)| - 1] == s[|s| - 1]
  {
    if IsSpace(s[0]) {
      assert |s| > 3;
      TrimStartKeepsSuffix(s[1..]);
    }
  }

  lemma {:induction false} StripSlashesKeepsSuffix(s: Text)
    requires EndsInMd(s)
    ensures EndsInMd(StripSlashes(s))
  {
    if s[0] == SLASH {
      assert |s| > 3;
      StripSlashesKeepsSuffix(s[1..]);
    }
  }

  /** Any slug that does not begin with a slash can be written as a link. */
  function LinkTo(slug: Slug): Text {
    [SLASH] + slug + [0x2E, 0x6D, 0x64]
  }

  lemma {:induction false} LinkToReaches(slug: Slug)
    requires slug == [] || slug[0] != SLASH
    ensures NormalizeSlug(LinkTo(slug)) == slug
  {
    hide TrimEnd, TrimStart;
    var link := LinkTo(slug);
    assert link[0] == SLASH && link[|link| - 1] == 0x64;
    TrimStartKeeps(link);
    TrimEndKeeps(link);
    hide IsSpace;
    var rest := slug + [0x2E, 0x6D, 0x64];
    assert StripSlashes(link) == rest by {
      assert link[1..] == rest;
      assert rest[0] != SLASH;
      assert StripSlashes(rest) == rest;
    }
    hide StripSlashes;
    assert EndsInMd(rest) && rest[..|rest| - 3] == slug;
  }

  // ---------------------------------------------------------------------------
  // Links as values: the slugs and the related lists of the pages, by position
  // ---------------------------------------------------------------------------

  type Lists = seq<seq<Text>>

  /** Some entry of the list normalizes to the slug. */
  predicate HasLink(rs: seq<Text>, slug: Slug) {
    exists i | 0 <= i < |rs| :: NormalizeSlug(rs[i]) == slug
  }

  predicate DistinctSlugs(slugs: seq<Slug>) {
    forall i, j | 0 <= i < j < |slugs| :: slugs[i] != slugs[j]
  }

  /** The page a slug names: the last one, as a later Map entry replaces an earlier one. */
  function PageOf(slugs: seq<Slug>, slug: Slug): (i: Option<nat>)
    ensures i.Some? ==> i.value < |slugs| && slugs[i.value] == slug
    ensures i.None? ==> slug !in slugs
  {
    if slugs == [] then None
    else if slugs[|slugs| - 1] == slug then Some(|slugs| - 1)
    else PageOf(slugs[..|slugs| - 1], slug)
  }

  function LinkBack(slugs: seq<Slug>, rel: Lists, p: nat, r: Text): (rel': Lists)
    requires |rel| == |slugs| && p < |slugs|
    ensures |rel'| == |rel|
  {
    match PageOf(slugs, NormalizeSlug(r))
    case None => rel
    case Some(t) => if HasLink(rel[t], slugs[p]) then rel else rel[t := rel[t] + [slugs[p]]]
  }

  function LinkAllBack(slugs: seq<Slug>, rel: Lists, p: nat, rs: seq<Text>): (rel': Lists)
    requires |rel| == |slugs| && p < |slugs|
    ensures |rel'| == |rel|
  {
    if rs == [] then rel
    else LinkBack(slugs, LinkAllBack(slugs, rel, p, rs[..|rs| - 1]), p, rs[|rs| - 1])
  }

  /** The lists once the first k pages have been processed, each over the links it has by then. */
  function Pass(slugs: seq<Slug>, rel: Lists, k: nat): (rel': Lists)
    requires |rel| == |slugs| && k <= |slugs|
    ensures |rel'| == |rel|
  {
    if k == 0 then rel
    else
      var before := Pass(slugs, rel, k - 1);
      LinkAllBack(slugs, before, k - 1, before[k - 1])
  }

  // ---------------------------------------------------------------------------
  // One pass is the symmetric closure
  // ---------------------------------------------------------------------------

  predicate LinksTo(slugs: seq<Slug>, rel: Lists, p: nat, t: nat)
    requires |rel| == |slugs| && p < |slugs| && t < |slugs|
  {
    HasLink(rel[p], slugs[t])
  }

  predicate OneWay(slugs: seq<Slug>, rel: Lists, p: nat, t: nat)
    requires |rel| == |slugs| && p < |slugs| && t < |slugs|
  {
    LinksTo(slugs, rel, p, t) && !LinksTo(slugs, rel, t, p)
  }

  /** Every page that links one way has a normalized slug: the condition the repair needs. */
  predicate OneWayNormalized(slugs: seq<Slug>, rel: Lists)
    requires |rel| == |slugs|
  {
    forall p, t | 0 <= p < |slugs| && 0 <= t < |slugs| :: OneWay(slugs, rel, p, t) ==> Normalized(slugs[p])
  }

  /** The slugs of the first k pages that link to t and are not linked from it, in page order. */
  function Missing(slugs: seq<Slug>, rel: Lists, t: nat, k: nat): seq<Text>
    requires |rel| == |slugs| && t < |slugs| && k <= |slugs|
  {
    if k == 0 then []
    else Missing(slugs, rel, t, k - 1) + if OneWay(slugs, rel, k - 1, t) then [slugs[k - 1]] else []
  }

  lemma {:induction false} MissingMembers(slugs: seq<Slug>, rel: Lists, t: nat, k: nat, m: Slug)
    requires |rel| == |slugs| && t < |slugs| && k <= |slugs|
    ensures m in Missing(slugs, rel, t, k) <==> exists p | 0 <= p < k :: slugs[p] == m && OneWay(slugs, rel, p, t)
  {
    hide OneWay;
    if k > 0 {
      MissingMembers(slugs, rel, t, k - 1, m);
      if p :| 0 <= p < k && slugs[p] == m && OneWay(slugs, rel, p, t) {
        assert p < k - 1 || p == k - 1;
      }
    }
  }

  lemma HasLinkConcat(a: seq<Text>, b: seq<Text>, slug: Slug)
    ensures HasLink(a + b, slug) <==> HasLink(a, slug) || HasLink(b, slug)
  {
    if i :| 0 <= i < |a| && NormalizeSlug(a[i]) == slug {
      assert NormalizeSlug((a + b)[i]) == slug;
    }
    if i :| 0 <= i < |b| && NormalizeSlug(b[i]) == slug {
      assert NormalizeSlug((a + b)[|a| + i]) == slug;
    }
  }

  /** Normalized slugs in a list are links to exactly those slugs. */
  lemma HasLinkNormalized(ms: seq<Text>, slug: Slug)
    requires forall m | m in ms :: Normalized(m)
    ensures HasLink(ms, slug) <==> slug in ms
  {
    if i :| 0 <= i < |ms| && NormalizeSlug(ms[i]) == slug {
      assert ms[i] in ms;
    }
  }

  lemma MissingNormalized(slugs: seq<Slug>, rel: Lists, t: nat, k: nat)
    requires |rel| == |slugs| && t < |slugs| && k <= |slugs| && OneWayNormalized(slugs, rel)
    ensures forall m | m in Missing(slugs, rel, t, k) :: Normalized(m)
  {
    hide OneWay, NormalizeSlug, Normalized;
    forall m | m in Missing(slugs, rel, t, k) ensures Normalized(m) {
      MissingMembers(slugs, rel, t, k, m);
    }
  }

  /** What every list holds once the first k pages are done. */
  predicate ClosedUpTo(slugs: seq<Slug>, rel: Lists, cur: Lists, k: nat)
    requires |rel| == |slugs| && k <= |slugs|
  {
    && |cur| == |slugs|
    && forall t | 0 <= t < |slugs| :: cur[t] == rel[t] + Missing(slugs, rel, t, k)
  }

  /** Links added for earlier pages neither satisfy nor create a link between p and t. */
  lemma {:induction false} EarlierAdditions(slugs: seq<Slug>, rel: Lists, cur: Lists, p: nat, t: nat)
    requires |rel| == |slugs| && p < |slugs| && t < |slugs|
    requires DistinctSlugs(slugs) && OneWayNormalized(slugs, rel) && ClosedUpTo(slugs, rel, cur, p)
    ensures HasLink(cur[t], slugs[p]) <==> LinksTo(slugs, rel, t, p)
    ensures !LinksTo(slugs, rel, t, p) ==> (HasLink(cur[p], slugs[t]) <==> LinksTo(slugs, rel, p, t))
  {
    hide NormalizeSlug, HasLink, OneWayNormalized, Missing;
    HasLinkConcat(rel[t], Missing(slugs, rel, t, p), slugs[p]);
    HasLinkConcat(rel[p], Missing(slugs, rel, p, p), slugs[t]);
    MissingNormalized(slugs, rel, t, p);
    MissingNormalized(slugs, rel, p, p);
    HasLinkNormalized(Missing(slugs, rel, t, p), slugs[p]);
    HasLinkNormalized(Missing(slugs, rel, p, p), slugs[t]);
    MissingMembers(slugs, rel, p, p, slugs[t]);
    MissingMembers(slugs, rel, t, p, slugs[p]);
  }

  /** What processing the links rs of page p appends to list t. */
  function Back(slugs: seq<Slug>, rel: Lists, p: nat, rs: seq<Text>, t: nat): seq<Text>
    requires |rel| == |slugs| && p < |slugs| && t < |slugs|
  {
    if HasLink(rs, slugs[t]) && !LinksTo(slugs, rel, t, p) then [slugs[p]] else []
  }

  predicate PageAdded(slugs: seq<Slug>, rel: Lists, cur: Lists, next: Lists, p: nat, rs: seq<Text>)
    requires |rel| == |slugs| && |cur| == |slugs| && p < |slugs|
  {
    && |next| == |slugs|
    && forall t | 0 <= t < |slugs| :: next[t] == cur[t] + Back(slugs, rel, p, rs, t)
  }

  lemma {:induction false} LinkBackAddsTo(slugs: seq<Slug>, rel: Lists, cur: Lists, mid: Lists, p: nat, rs: seq<Text>, r: Text, t: nat)
    requires |rel| == |slugs| && |cur| == |slugs| && p < |slugs| && t < |slugs|
    requires DistinctSlugs(slugs)
    requires Normalized(slugs[p]) || LinksTo(slugs, rel, t, p) || !HasLink(rs + [r], slugs[t])
    requires HasLink(cur[t], slugs[p]) <==> LinksTo(slugs, rel, t, p)
    requires |mid| == |slugs| && mid[t] == cur[t] + Back(slugs, rel, p, rs, t)
    ensures LinkBack(slugs, mid, p, r)[t] == cur[t] + Back(slugs, rel, p, rs + [r], t)
  {
    hide NormalizeSlug, HasLink, LinksTo;
    var slug := NormalizeSlug(r);
    HasLinkConcat(rs, [r], slugs[t]);
    HasLinkConcat(cur[t], [slugs[p]], slugs[p]);
    HasLinkOne(r, slugs[t]);
    HasLinkOne(slugs[p], slugs[p]);
    assert cur[t] + [] == cur[t];
    assert slug == slugs[t] ==> PageOf(slugs, slug) == Some(t);
  }

  lemma HasLinkOne(r: Text, slug: Slug)
    ensures HasLink([r], slug) <==> NormalizeSlug(r) == slug
  {
    hide NormalizeSlug;
    assert [r][0] == r;
  }

  lemma {:induction false} LinkAllBackAdds(slugs: seq<Slug>, rel: Lists, cur: Lists, p: nat, rs: seq<Text>)
    requires |rel| == |slugs| && p < |slugs|
    requires DistinctSlugs(slugs) && OneWayNormalized(slugs, rel) && ClosedUpTo(slugs, rel, cur, p)
    requires forall r | r in rs :: r in cur[p]
    ensures PageAdded(slugs, rel, cur, LinkAllBack(slugs, cur, p, rs), p, rs)
    decreases |rs|
  {
    hide DistinctSlugs, LinkBack, NormalizeSlug, Normalized, Missing, OneWayNormalized, HasLink, LinksTo;
    if rs != [] {
      var front, r := rs[..|rs| - 1], rs[|rs| - 1];
      LinkAllBackAdds(slugs, rel, cur, p, front);
      assert front + [r] == rs;
      forall t | 0 <= t < |slugs|
        ensures LinkAllBack(slugs, cur, p, rs)[t] == cur[t] + Back(slugs, rel, p, rs, t)
      {
        EarlierAdditions(slugs, rel, cur, p, t);
        OnlyNormalizedAppend(slugs, rel, cur, p, rs, t);
        LinkBackAddsTo(slugs, rel, cur, LinkAllBack(slugs, cur, p, front), p, front, r, t);
      }
    } else {
      forall t | 0 <= t < |slugs| ensures cur[t] == cur[t] + Back(slugs, rel, p, rs, t) {
        HasLinkNone(slugs[t]);
      }
    }
  }

  /** A page without a normalized slug has nothing to append: all its links are answered. */
  lemma {:induction false} OnlyNormalizedAppend(slugs: seq<Slug>, rel: Lists, cur: Lists, p: nat, rs: seq<Text>, t: nat)
    requires |rel| == |slugs| && p < |slugs| && t < |slugs|
    requires DistinctSlugs(slugs) && OneWayNormalized(slugs, rel) && ClosedUpTo(slugs, rel, cur, p)
    requires forall r | r in rs :: r in cur[p]
    ensures Normalized(slugs[p]) || LinksTo(slugs, rel, t, p) || !HasLink(rs, slugs[t])
  {
    hide NormalizeSlug, Missing, HasLink;
    EarlierAdditions(slugs, rel, cur, p, t);
    if HasLink(rs, slugs[t]) {
      HasLinkSubset(rs, cur[p], slugs[t]);
      assert !LinksTo(slugs, rel, t, p) ==> OneWay(slugs, rel, p, t);
    }
  }

  lemma HasLinkSubset(rs: seq<Text>, more: seq<Text>, slug: Slug)
    requires HasLink(rs, slug) && forall r | r in rs :: r in more
    ensures HasLink(more, slug)
  {
    hide NormalizeSlug;
    var i :| 0 <= i < |rs| && NormalizeSlug(rs[i]) == slug;
    assert rs[i] in rs;
  }

  lemma HasLinkNone(slug: Slug)
    ensures !HasLink([], slug)
  {
  }

  /** Every list ends as the old list followed by exactly the slugs it failed to link back to. */
  lemma {:induction false} PassAddsExactlyTheMissing(slugs: seq<Slug>, rel: Lists, k: nat)
    requires |rel| == |slugs| && k <= |slugs| && DistinctSlugs(slugs) && OneWayNormalized(slugs, rel)
    ensures ClosedUpTo(slugs, rel, Pass(slugs, rel, k), k)
  {
    hide DistinctSlugs, OneWayNormalized, NormalizeSlug, LinkAllBack, HasLink, LinksTo;
    if k > 0 {
      PassAddsExactlyTheMissing(slugs, rel, k - 1);
      var cur, p := Pass(slugs, rel, k - 1), k - 1;
      LinkAllBackAdds(slugs, rel, cur, p, cur[p]);
      forall t | 0 <= t < |slugs| ensures Pass(slugs, rel, k)[t] == rel[t] + Missing(slugs, rel, t, k) {
        EarlierAdditions(slugs, rel, cur, p, t);
        LinkedBackSame(slugs, rel, cur, p, t);
      }
    }
  }

  lemma LinkedBackSame(slugs: seq<Slug>, rel: Lists, cur: Lists, p: nat, t: nat)
    requires |rel| == |slugs| && |cur| == |slugs| && p < |slugs| && t < |slugs|
    requires !LinksTo(slugs, rel, t, p) ==> (HasLink(cur[p], slugs[t]) <==> LinksTo(slugs, rel, p, t))
    ensures Back(slugs, rel, p, cur[p], t) == if OneWay(slugs, rel, p, t) then [slugs[p]] else []
  {
    hide HasLink, LinksTo;
  }

  // ---------------------------------------------------------------------------
  // What a pass does to any lists
  // ---------------------------------------------------------------------------

  /** Lists only grow. */
  predicate Grown(rel: Lists, cur: Lists) {
    |cur| == |rel| && forall t | 0 <= t < |rel| :: rel[t] <= cur[t]
  }

  lemma GrownTransitive(a: Lists, b: Lists, c: Lists)
    requires Grown(a, b) && Grown(b, c)
    ensures Grown(a, c)
  {
  }

  lemma GrownBothWays(a: Lists, b: Lists)
    requires Grown(a, b) && Grown(b, a)
    ensures a == b
  {
    forall t | 0 <= t < |a| ensures a[t] == b[t] {
    }
  }

  lemma {:induction false} LinkAllBackGrows(slugs: seq<Slug>, cur: Lists, p: nat, rs: seq<Text>)
    requires |cur| == |slugs| && p < |slugs|
    ensures Grown(cur, LinkAllBack(slugs, cur, p, rs))
    decreases |rs|
  {
    hide NormalizeSlug, HasLink;
    if rs != [] {
      LinkAllBackGrows(slugs, cur, p, rs[..|rs| - 1]);
    }
  }

  lemma {:induction false} PassGrows(slugs: seq<Slug>, rel: Lists, j: nat, k: nat)
    requires |rel| == |slugs| && j <= k <= |slugs|
    ensures Grown(Pass(slugs, rel, j), Pass(slugs, rel, k))
    decreases k
  {
    hide LinkAllBack;
    if j < k {
      PassGrows(slugs, rel, j, k - 1);
      var before := Pass(slugs, rel, k - 1);
      LinkAllBackGrows(slugs, before, k - 1, before[k - 1]);
      GrownTransitive(Pass(slugs, rel, j), before, Pass(slugs, rel, k));
    }
  }

  /** A pass that changes nothing appended nothing for any link. */
  lemma {:induction false} IdleLink(slugs: seq<Slug>, rel: Lists, p: nat, rs: seq<Text>, r: Text)
    requires |rel| == |slugs| && p < |slugs| && r in rs && LinkAllBack(slugs, rel, p, rs) == rel
    ensures LinkBack(slugs, rel, p, r) == rel
    decreases |rs|
  {
    hide NormalizeSlug, HasLink;
    var front := rs[..|rs| - 1];
    var mid := LinkAllBack(slugs, rel, p, front);
    LinkAllBackGrows(slugs, rel, p, front);
    LinkBackGrows(slugs, mid, p, rs[|rs| - 1]);
    GrownBothWays(rel, mid);
    if r != rs[|rs| - 1] {
      assert r in front;
      IdleLink(slugs, rel, p, front, r);
    }
  }

  lemma LinkBackGrows(slugs: seq<Slug>, cur: Lists, p: nat, r: Text)
    requires |cur| == |slugs| && p < |slugs|
    ensures Grown(cur, LinkBack(slugs, cur, p, r))
  {
    hide NormalizeSlug, HasLink;
  }

  lemma {:induction false} IdlePassHasNoOneWay(slugs: seq<Slug>, rel: Lists, p: nat, t: nat)
    requires |rel| == |slugs| && p < |slugs| && t < |slugs| && DistinctSlugs(slugs)
    requires Pass(slugs, rel, |slugs|) == rel
    ensures !OneWay(slugs, rel, p, t)
  {
    hide NormalizeSlug, HasLink, LinkAllBack;
    PassGrows(slugs, rel, 0, p);
    PassGrows(slugs, rel, p, |slugs|);
    GrownBothWays(rel, Pass(slugs, rel, p));
    PassGrows(slugs, rel, 0, p + 1);
    PassGrows(slugs, rel, p + 1, |slugs|);
    GrownBothWays(rel, Pass(slugs, rel, p + 1));
    assert LinkAllBack(slugs, rel, p, rel[p]) == rel;
    if LinksTo(slugs, rel, p, t) {
      var r := LinkOf(rel[p], slugs[t]);
      IdleLink(slugs, rel, p, rel[p], r);
      assert PageOf(slugs, NormalizeSlug(r)) == Some(t);
    }
  }

  lemma LinkOf(rs: seq<Text>, slug: Slug) returns (r: Text)
    requires HasLink(rs, slug)
    ensures r in rs && NormalizeSlug(r) == slug
  {
    hide NormalizeSlug;
    var i :| 0 <= i < |rs| && NormalizeSlug(rs[i]) == slug;
    r := rs[i];
  }

  /** Entry i of list t was appended for a page that links to t, and nothing before it linked back. */
  predicate AppendedFor(slugs: seq<Slug>, cur: Lists, t: nat, i: nat, q: nat)
    requires |cur| == |slugs| && t < |slugs| && i < |cur[t]|
  {
    && q < |slugs|
    && cur[t][i] == slugs[q]
    && HasLink(cur[q], slugs[t])
    && !HasLink(cur[t][..i], slugs[q])
  }

  /** Every entry that is not an original one was appended so. */
  ghost predicate Explained(slugs: seq<Slug>, rel: Lists, cur: Lists)
    requires |rel| == |slugs|
  {
    && Grown(rel, cur)
    && forall t, i | 0 <= t < |slugs| && |rel[t]| <= i < |cur[t]| :: HasReason(slugs, cur, t, i)
  }

  ghost predicate HasReason(slugs: seq<Slug>, cur: Lists, t: nat, i: nat)
    requires |cur| == |slugs| && t < |slugs| && i < |cur[t]|
  {
    exists q: nat :: AppendedFor(slugs, cur, t, i, q)
  }

  lemma {:induction false} LinkBackExplained(slugs: seq<Slug>, rel: Lists, cur: Lists, p: nat, r: Text)
    requires |rel| == |slugs| && p < |slugs| && Explained(slugs, rel, cur) && r in cur[p]
    ensures Explained(slugs, rel, LinkBack(slugs, cur, p, r))
  {
    hide NormalizeSlug, HasLink;
    var next := LinkBack(slugs, cur, p, r);
    LinkBackGrows(slugs, cur, p, r);
    GrownTransitive(rel, cur, next);
    forall t, i | 0 <= t < |slugs| && |rel[t]| <= i < |next[t]| ensures HasReason(slugs, next, t, i) {
      if i < |cur[t]| {
        assert HasReason(slugs, cur, t, i);
        var q: nat :| AppendedFor(slugs, cur, t, i, q);
        StillAppendedFor(slugs, cur, next, t, i, q);
      } else {
        HasLinkMember(cur[p], r);
        assert next[t][..i] == cur[t];
        HasLinkPrefix(cur[p], next[p], slugs[t]);
        assert AppendedFor(slugs, next, t, i, p);
      }
    }
  }

  lemma HasLinkMember(rs: seq<Text>, r: Text)
    requires r in rs
    ensures HasLink(rs, NormalizeSlug(r))
  {
    hide NormalizeSlug;
  }

  lemma HasLinkPrefix(rs: seq<Text>, more: seq<Text>, slug: Slug)
    requires rs <= more
    ensures HasLink(rs, slug) ==> HasLink(more, slug)
  {
    hide NormalizeSlug;
    if HasLink(rs, slug) {
      HasLinkSubset(rs, more, slug);
    }
  }

  lemma StillAppendedFor(slugs: seq<Slug>, cur: Lists, next: Lists, t: nat, i: nat, q: nat)
    requires |cur| == |slugs| && t < |slugs| && i < |cur[t]| && AppendedFor(slugs, cur, t, i, q) && Grown(cur, next)
    ensures i < |next[t]| && AppendedFor(slugs, next, t, i, q)
  {
    hide NormalizeSlug, HasLink;
    HasLinkPrefix(cur[q], next[q], slugs[t]);
    assert next[t][..i] == cur[t][..i];
  }

  lemma {:induction false} LinkAllBackExplained(slugs: seq<Slug>, rel: Lists, cur: Lists, p: nat, rs: seq<Text>)
    requires |rel| == |slugs| && |cur| == |slugs| && p < |slugs|
    requires Explained(slugs, rel, cur) && forall r | r in rs :: r in cur[p]
    ensures Explained(slugs, rel, LinkAllBack(slugs, cur, p, rs))
    decreases |rs|
  {
    hide NormalizeSlug, HasLink, Explained, LinkBack;
    if rs != [] {
      var front, r := rs[..|rs| - 1], rs[|rs| - 1];
      LinkAllBackExplained(slugs, rel, cur, p, front);
      LinkAllBackGrows(slugs, cur, p, front);
      var mid := LinkAllBack(slugs, cur, p, front);
      assert r in rs && cur[p] <= mid[p] && r in mid[p];
      LinkBackExplained(slugs, rel, mid, p, r);
    }
  }

  lemma {:induction false} PassExplained(slugs: seq<Slug>, rel: Lists, k: nat)
    requires |rel| == |slugs| && k <= |slugs|
    ensures Explained(slugs, rel, Pass(slugs, rel, k))
  {
    hide LinkAllBack, AppendedFor;
    if k > 0 {
      PassExplained(slugs, rel, k - 1);
      var before := Pass(slugs, rel, k - 1);
      hide Explained;
      LinkAllBackExplained(slugs, rel, before, k - 1, before[k - 1]);
    }
  }

  /** An appended slug that is not normalized leaves some link unanswered. */
  lemma {:induction false} BadAppendShows(slugs: seq<Slug>, rel: Lists, cur: Lists, t: nat, i: nat, q: nat)
    requires |rel| == |slugs| && Explained(slugs, rel, cur) && t < |slugs| && |rel[t]| <= i < |cur[t]|
    requires AppendedFor(slugs, cur, t, i, q) && !Normalized(slugs[q])
    ensures !Symmetric(slugs, cur)
    decreases |cur[t]| - i
  {
    hide NormalizeSlug, HasLink;
    if HasLink(cur[t], slugs[q]) {
      var j := LaterLink(cur[t], i, slugs[q]);
      assert HasReason(slugs, cur, t, j);
      var q': nat :| AppendedFor(slugs, cur, t, j, q');
      assert NormalizeSlug(slugs[q']) == slugs[q];
      BadAppendShows(slugs, rel, cur, t, j, q');
    } else {
      assert OneWay(slugs, cur, q, t);
    }
  }

  lemma LaterLink(rs: seq<Text>, i: nat, slug: Slug) returns (j: nat)
    requires i < |rs| && rs[i] == slug && !Normalized(slug) && HasLink(rs, slug) && !HasLink(rs[..i], slug)
    ensures i < j < |rs| && NormalizeSlug(rs[j]) == slug
  {
    hide NormalizeSlug;
    var k :| 0 <= k < |rs| && NormalizeSlug(rs[k]) == slug;
    assert forall m | 0 <= m < i :: rs[..i][m] == rs[m];
    j := k;
  }

  // ---------------------------------------------------------------------------
  // What the pass promises, and exactly when
  // ---------------------------------------------------------------------------

  predicate Symmetric(slugs: seq<Slug>, rel: Lists)
    requires |rel| == |slugs|
  {
    forall p, t | 0 <= p < |slugs| && 0 <= t < |slugs| :: !OneWay(slugs, rel, p, t)
  }

  /** In the normalized lists, every page t gains exactly the pages that linked to it. */
  ghost predicate IsSymmetricClosure(slugs: seq<Slug>, rel: Lists, after: Lists)
    requires |rel| == |slugs| && |after| == |slugs|
  {
    forall t, slug {:trigger HasLink(after[t], slug)} | 0 <= t < |slugs| ::
      HasLink(after[t], slug) <==> HasLink(rel[t], slug) || LinkedFrom(slugs, rel, t, slug)
  }

  predicate LinkedFrom(slugs: seq<Slug>, rel: Lists, t: nat, slug: Slug)
    requires |rel| == |slugs| && t < |slugs|
  {
    exists p | 0 <= p < |slugs| :: slugs[p] == slug && LinksTo(slugs, rel, p, t)
  }

  lemma {:induction false} PassCloses(slugs: seq<Slug>, rel: Lists, t: nat, slug: Slug)
    requires |rel| == |slugs| && t < |slugs| && DistinctSlugs(slugs) && OneWayNormalized(slugs, rel)
    ensures HasLink(Pass(slugs, rel, |slugs|)[t], slug) <==> HasLink(rel[t], slug) || LinkedFrom(slugs, rel, t, slug)
  {
    hide NormalizeSlug, HasLink, Pass, Missing, OneWayNormalized;
    PassAddsExactlyTheMissing(slugs, rel, |slugs|);
    var ms := Missing(slugs, rel, t, |slugs|);
    HasLinkConcat(rel[t], ms, slug);
    MissingNormalized(slugs, rel, t, |slugs|);
    HasLinkNormalized(ms, slug);
    MissingMembers(slugs, rel, t, |slugs|, slug);
  }

  lemma {:induction false} ClosureIsSymmetric(slugs: seq<Slug>, rel: Lists, after: Lists)
    requires |rel| == |slugs| && |after| == |slugs| && IsSymmetricClosure(slugs, rel, after) && DistinctSlugs(slugs)
    ensures Symmetric(slugs, after)
  {
    hide NormalizeSlug, HasLink;
    forall p, t | 0 <= p < |slugs| && 0 <= t < |slugs| ensures !OneWay(slugs, after, p, t) {
      assert HasLink(after[p], slugs[t]) <==> HasLink(rel[p], slugs[t]) || LinkedFrom(slugs, rel, p, slugs[t]);
      assert HasLink(after[t], slugs[p]) <==> HasLink(rel[t], slugs[p]) || LinkedFrom(slugs, rel, t, slugs[p]);
      assert LinkedFrom(slugs, rel, p, slugs[t]) ==> LinksTo(slugs, rel, t, p);
      assert LinksTo(slugs, rel, p, t) ==> LinkedFrom(slugs, rel, t, slugs[p]);
    }
  }

  lemma {:induction false} SymmetricNeedsNormalized(slugs: seq<Slug>, rel: Lists)
    requires |rel| == |slugs| && Symmetric(slugs, Pass(slugs, rel, |slugs|))
    ensures OneWayNormalized(slugs, rel)
  {
    hide NormalizeSlug, HasLink, Pass;
    var after := Pass(slugs, rel, |slugs|);
    PassExplained(slugs, rel, |slugs|);
    forall p: nat, t: nat | p < |slugs| && t < |slugs| && OneWay(slugs, rel, p, t) ensures Normalized(slugs[p]) {
      assert rel[p] <= after[p] && rel[t] <= after[t];
      HasLinkPrefix(rel[p], after[p], slugs[t]);
      assert LinksTo(slugs, after, p, t);
      assert !OneWay(slugs, after, p, t);
      var j := NewLink(rel[t], after[t], slugs[p]);
      assert HasReason(slugs, after, t, j);
      var q: nat :| AppendedFor(slugs, after, t, j, q);
      if !Normalized(slugs[q]) {
        BadAppendShows(slugs, rel, after, t, j, q);
      }
    }
  }

  lemma NewLink(rs: seq<Text>, more: seq<Text>, slug: Slug) returns (j: nat)
    requires rs <= more && HasLink(more, slug) && !HasLink(rs, slug)
    ensures |rs| <= j < |more| && NormalizeSlug(more[j]) == slug
  {
    hide NormalizeSlug;
    var k :| 0 <= k < |more| && NormalizeSlug(more[k]) == slug;
    assert forall m | 0 <= m < |rs| :: rs[m] == more[m];
    j := k;
  }

  /**
   * For any pages with distinct slugs: a pass is the symmetric closure, and answers
   * every link, exactly when every page that links one way has a normalized slug.
   */
  lemma {:induction false} OnePassIsTheSymmetricClosure(slugs: seq<Slug>, rel: Lists)
    requires |rel| == |slugs| && DistinctSlugs(slugs)
    ensures var after := Pass(slugs, rel, |slugs|);
            && (IsSymmetricClosure(slugs, rel, after) <==> OneWayNormalized(slugs, rel))
            && (Symmetric(slugs, after) <==> OneWayNormalized(slugs, rel))
  {
    hide NormalizeSlug, HasLink, Pass, Symmetric, OneWayNormalized, LinkedFrom;
    var after := Pass(slugs, rel, |slugs|);
    if OneWayNormalized(slugs, rel) {
      forall t, slug {:trigger HasLink(after[t], slug)} | 0 <= t < |slugs|
        ensures HasLink(after[t], slug) <==> HasLink(rel[t], slug) || LinkedFrom(slugs, rel, t, slug)
      {
        PassCloses(slugs, rel, t, slug);
      }
    }
    if IsSymmetricClosure(slugs, rel, after) {
      ClosureIsSymmetric(slugs, rel, after);
    }
    if Symmetric(slugs, after) {
      SymmetricNeedsNormalized(slugs, rel);
    }
  }

  lemma {:induction false} NothingMissing(slugs: seq<Slug>, rel: Lists, t: nat, k: nat)
    requires |rel| == |slugs| && t < |slugs| && k <= |slugs| && Symmetric(slugs, rel)
    ensures Missing(slugs, rel, t, k) == []
  {
    hide OneWay;
    if k > 0 {
      NothingMissing(slugs, rel, t, k - 1);
    }
  }

  /** A pass changes nothing exactly when every link already has its link back. */
  lemma {:induction false} PassStableExactly(slugs: seq<Slug>, rel: Lists)
    requires |rel| == |slugs| && DistinctSlugs(slugs)
    ensures Pass(slugs, rel, |slugs|) == rel <==> Symmetric(slugs, rel)
  {
    hide OneWay, NormalizeSlug, Pass, Missing, DistinctSlugs;
    if Symmetric(slugs, rel) {
      assert OneWayNormalized(slugs, rel);
      PassAddsExactlyTheMissing(slugs, rel, |slugs|);
      forall t | 0 <= t < |slugs| ensures Pass(slugs, rel, |slugs|)[t] == rel[t] {
        NothingMissing(slugs, rel, t, |slugs|);
      }
    }
    if Pass(slugs, rel, |slugs|) == rel {
      forall p, t | 0 <= p < |slugs| && 0 <= t < |slugs| ensures !OneWay(slugs, rel, p, t) {
        IdlePassHasNoOneWay(slugs, rel, p, t);
      }
    }
  }

  /** So a second pass changes nothing exactly under the same condition. */
  lemma {:induction false} SecondPassChangesNothing(slugs: seq<Slug>, rel: Lists)
    requires |rel| == |slugs| && DistinctSlugs(slugs)
    ensures Pass(slugs, Pass(slugs, rel, |slugs|), |slugs|) == Pass(slugs, rel, |slugs|) <==> OneWayNormalized(slugs, rel)
  {
    hide Pass, Symmetric, DistinctSlugs, OneWayNormalized;
    OnePassIsTheSymmetricClosure(slugs, rel);
    PassStableExactly(slugs, Pass(slugs, rel, |slugs|));
  }

  /**
   * Normalized slugs are what a caller can ensure whatever the links are: a slug that is
   * not normalized fails the promises for the one link from its page to any other.
   */
  lemma {:induction false} SlugMustBeNormalized(s: Slug, t: Slug)
    requires s != t && (t == [] || t[0] != SLASH)
    ensures OneWayNormalized([s, t], [[LinkTo(t)], []]) <==> Normalized(s)
  {
    hide NormalizeSlug, LinkTo, HasLink;
    LinkToReaches(t);
    HasLinkOne(LinkTo(t), t);
    HasLinkNone(s);
    HasLinkNone(t);
    var slugs, rel: Lists := [s, t], [[LinkTo(t)], []];
    assert OneWay(slugs, rel, 0, 1);
    forall p, q | 0 <= p < 2 && 0 <= q < 2 && OneWay(slugs, rel, p, q) ensures p == 0 {
    }
  }

  // ---------------------------------------------------------------------------
  // The repair, in place
  // ---------------------------------------------------------------------------

  class WikiPage {
    const relativePath: Text
    var related: seq<Text>

    constructor (relativePath: Text, related: seq<Text>)
      ensures this.relativePath == relativePath && this.related == related
    {
      this.relativePath := relativePath;
      this.related := related;
    }
  }

  function Slugs(pages: seq<WikiPage>): (slugs: seq<Slug>)
    ensures |slugs| == |pages|
  {
    seq(|pages|, i requires 0 <= i < |pages| => ToWikiSlug(pages[i].relativePath))
  }

  function RelatedLists(pages: seq<WikiPage>): (rel: Lists)
    reads set p | p in pages
    ensures |rel| == |pages|
    ensures forall i | 0 <= i < |pages| :: rel[i] == pages[i].related
  {
    seq(|pages|, i requires 0 <= i < |pages| reads set p | p in pages => pages[i].related)
  }

  predicate DistinctPages(pages: seq<WikiPage>) {
    forall i, j | 0 <= i < j < |pages| :: pages[i] != pages[j]
  }

  function ChangedSlugs(slugs: seq<Slug>, before: Lists, after: Lists): set<Slug>
    requires |before| == |after| == |slugs|
  {
    set i | 0 <= i < |slugs| && before[i] != after[i] :: slugs[i]
  }

  function Select(pages: seq<WikiPage>, slugs: set<Slug>): seq<WikiPage> {
    if pages == [] then []
    else Select(pages[..|pages| - 1], slugs) +
         if ToWikiSlug(pages[|pages| - 1].relativePath) in slugs then [pages[|pages| - 1]] else []
  }

  /** With distinct slugs, the pages handed back are exactly those whose list changed. */
  lemma {:induction false} SelectedExactly(pages: seq<WikiPage>, before: Lists, after: Lists, i: nat)
    requires |before| == |after| == |pages| && i < |pages|
    requires DistinctPages(pages) && DistinctSlugs(Slugs(pages))
    ensures pages[i] in Select(pages, ChangedSlugs(Slugs(pages), before, after)) <==> before[i] != after[i]
  {
    hide Select;
    var slugs := Slugs(pages);
    var changed := ChangedSlugs(slugs, before, after);
    SelectMembers(pages, changed, pages[i]);
    assert pages[i] in pages;
    assert slugs[i] in changed <==> before[i] != after[i];
  }

  lemma {:induction false} SelectMembers(pages: seq<WikiPage>, slugs: set<Slug>, page: WikiPage)
    ensures page in Select(pages, slugs) <==> page in pages && ToWikiSlug(page.relativePath) in slugs
  {
    if pages != [] {
      SelectMembers(pages[..|pages| - 1], slugs, page);
      assert pages == pages[..|pages| - 1] + [pages[|pages| - 1]];
    }
  }

  predicate Indexes(bySlug: map<Slug, WikiPage>, pages: seq<WikiPage>) {
    && (forall s | s in bySlug :: PageOf(Slugs(pages), s).Some? && bySlug[s] == pages[PageOf(Slugs(pages), s).value])
    && (forall s | s in Slugs(pages) :: s in bySlug)
  }

  method IndexBySlug(pages: seq<WikiPage>) returns (bySlug: map<Slug, WikiPage>)
    ensures Indexes(bySlug, pages)
  {
    hide ToWikiSlug;
    bySlug := map[];
    var i := 0;
    while i < |pages|
      invariant 0 <= i <= |pages|
      invariant Indexes(bySlug, pages[..i])
    {
      bySlug := bySlug[ToWikiSlug(pages[i].relativePath) := pages[i]];
      assert Slugs(pages[..i + 1])[..i] == Slugs(pages[..i]);
      assert Slugs(pages[..i + 1]) == Slugs(pages[..i]) + [ToWikiSlug(pages[i].relativePath)];
      i := i + 1;
    }
    assert pages[..i] == pages;
  }

  /** Lists only grow, and the slugs of the ones that did are collected. */
  ghost predicate Collected(slugs: seq<Slug>, before: Lists, after: Lists, mutated: set<Slug>) {
    && |before| == |after| == |slugs|
    && (forall i | 0 <= i < |slugs| :: before[i] <= after[i])
    && mutated == ChangedSlugs(slugs, before, after)
  }

  lemma {:induction false} CollectOne(slugs: seq<Slug>, before: Lists, after: Lists, mutated: set<Slug>, t: nat, s: Text)
    requires Collected(slugs, before, after, mutated) && t < |slugs|
    ensures Collected(slugs, before, after[t := after[t] + [s]], mutated + {slugs[t]})
  {
    var next := after[t := after[t] + [s]];
    assert |next[t]| > |before[t]|;
    forall i | 0 <= i < |slugs| && before[i] != after[i] ensures before[i] != next[i] {
    }
    assert slugs[t] in ChangedSlugs(slugs, before, next);
    forall slug ensures slug in mutated + {slugs[t]} <==> slug in ChangedSlugs(slugs, before, next) {
      if slug in mutated {
        var i :| 0 <= i < |slugs| && before[i] != after[i] && slugs[i] == slug;
        assert before[i] != next[i];
      }
    }
  }

  method AnswerLink(pages: seq<WikiPage>, bySlug: map<Slug, WikiPage>, p: nat, r: Text,
                    mutated: set<Slug>, ghost before: Lists)
    returns (mutated': set<Slug>)
    requires p < |pages| && DistinctPages(pages) && Indexes(bySlug, pages)
    requires Collected(Slugs(pages), before, RelatedLists(pages), mutated)
    modifies pages
    ensures RelatedLists(pages) == LinkBack(Slugs(pages), old(RelatedLists(pages)), p, r)
    ensures Collected(Slugs(pages), before, RelatedLists(pages), mutated')
  {
    hide NormalizeSlug, ToWikiSlug, HasLink, PageOf, Collected;
    ghost var slugs, rel := Slugs(pages), RelatedLists(pages);
    mutated' := mutated;
    var mySlug := ToWikiSlug(pages[p].relativePath);
    var name := NormalizeSlug(r);
    if name in bySlug {
      var target := bySlug[name];
      ghost var t := PageOf(slugs, name).value;
      if !HasLink(target.related, mySlug) {
        CollectOne(slugs, before, rel, mutated, t, mySlug);
        target.related := target.related + [mySlug];
        mutated' := mutated' + {ToWikiSlug(target.relativePath)};
        assert RelatedLists(pages) == rel[t := rel[t] + [mySlug]];
      }
    }
  }

  method AnswerLinks(pages: seq<WikiPage>, bySlug: map<Slug, WikiPage>, p: nat,
                     mutated: set<Slug>, ghost before: Lists)
    returns (mutated': set<Slug>)
    requires p < |pages| && DistinctPages(pages) && Indexes(bySlug, pages)
    requires Collected(Slugs(pages), before, RelatedLists(pages), mutated)
    modifies pages
    ensures RelatedLists(pages) ==
            LinkAllBack(Slugs(pages), old(RelatedLists(pages)), p, old(pages[p].related))
    ensures Collected(Slugs(pages), before, RelatedLists(pages), mutated')
  {
    hide NormalizeSlug, ToWikiSlug, PageOf, Collected, LinkBack, Indexes, DistinctPages, Slugs;
    mutated' := mutated;
    var links := pages[p].related;
    var j := 0;
    while j < |links|
      invariant 0 <= j <= |links|
      invariant RelatedLists(pages) == LinkAllBack(Slugs(pages), old(RelatedLists(pages)), p, links[..j])
      invariant Collected(Slugs(pages), before, RelatedLists(pages), mutated')
    {
      mutated' := AnswerLink(pages, bySlug, p, links[j], mutated', before);
      assert links[..j + 1][..j] == links[..j];
      j := j + 1;
    }
    assert links[..j] == links;
  }

  method RepairBidirectionalLinks(pages: seq<WikiPage>) returns (changed: seq<WikiPage>)
    requires DistinctPages(pages)
    modifies pages
    ensures RelatedLists(pages) == Pass(Slugs(pages), old(RelatedLists(pages)), |pages|)
    ensures changed == Select(pages, ChangedSlugs(Slugs(pages), old(RelatedLists(pages)), RelatedLists(pages)))
  {
    hide NormalizeSlug, ToWikiSlug, PageOf, Indexes, DistinctPages, Slugs, LinkAllBack, Select, Collected, ChangedSlugs,
         RelatedLists, Pass;
    ghost var before := RelatedLists(pages);
    PassBegins(Slugs(pages), before);
    var bySlug := IndexBySlug(pages);
    var mutated: set<Slug> := {};
    NothingCollected(Slugs(pages), before);
    var i := 0;
    while i < |pages|
      invariant 0 <= i <= |pages|
      invariant RelatedLists(pages) == Pass(Slugs(pages), before, i)
      invariant Collected(Slugs(pages), before, RelatedLists(pages), mutated)
    {
      PassStep(Slugs(pages), before, i);
      mutated := AnswerLinks(pages, bySlug, i, mutated, before);
      i := i + 1;
    }
    WhatIsCollected(Slugs(pages), before, RelatedLists(pages), mutated);
    changed := Select(pages, mutated);
  }

  lemma PassBegins(slugs: seq<Slug>, rel: Lists)
    requires |rel| == |slugs|
    ensures Pass(slugs, rel, 0) == rel
  {
  }

  lemma PassStep(slugs: seq<Slug>, rel: Lists, k: nat)
    requires |rel| == |slugs| && k < |slugs|
    ensures Pass(slugs, rel, k + 1) == LinkAllBack(slugs, Pass(slugs, rel, k), k, Pass(slugs, rel, k)[k])
  {
    hide LinkAllBack;
  }

  lemma NothingCollected(slugs: seq<Slug>, before: Lists)
    requires |before| == |slugs|
    ensures Collected(slugs, before, before, {})
  {
  }

  lemma WhatIsCollected(slugs: seq<Slug>, before: Lists, after: Lists, mutated: set<Slug>)
    requires Collected(slugs, before, after, mutated)
    ensures |before| == |after| == |slugs| && mutated == ChangedSlugs(slugs, before, after)
  {
  }

  // ---------------------------------------------------------------------------
  // The detector of links without a link back
  // ---------------------------------------------------------------------------

  /** Page `from` names page `target`, which does not name it. */
  datatype Finding = MissingBacklink(from: Slug, target: Slug)

  /** The findings for the first j links of page p. */
  function FindingsOf(slugs: seq<Slug>, rel: Lists, p: nat, rs: seq<Text>): seq<Finding>
    requires |rel| == |slugs| && p < |slugs|
  {
    if rs == [] then []
    else
      var target := NormalizeSlug(rs[|rs| - 1]);
      var page := PageOf(slugs, target);
      FindingsOf(slugs, rel, p, rs[..|rs| - 1]) +
      if page.Some? && !HasLink(rel[page.value], slugs[p]) then [MissingBacklink(slugs[p], target)] else []
  }

  function Findings(slugs: seq<Slug>, rel: Lists, k: nat): seq<Finding>
    requires |rel| == |slugs| && k <= |slugs|
  {
    if k == 0 then []
    else Findings(slugs, rel, k - 1) + FindingsOf(slugs, rel, k - 1, rel[k - 1])
  }

  lemma {:induction false} FindingsOfMembers(slugs: seq<Slug>, rel: Lists, p: nat, rs: seq<Text>, p': nat, t: nat)
    requires |rel| == |slugs| && p < |slugs| && p' < |slugs| && t < |slugs| && DistinctSlugs(slugs)
    ensures MissingBacklink(slugs[p'], slugs[t]) in FindingsOf(slugs, rel, p, rs) <==>
            p' == p && HasLink(rs, slugs[t]) && !HasLink(rel[t], slugs[p])
  {
    hide NormalizeSlug, HasLink;
    HasLinkNone(slugs[t]);
    if rs != [] {
      var front, r := rs[..|rs| - 1], rs[|rs| - 1];
      assert rs == front + [r];
      FindingsOfMembers(slugs, rel, p, front, p', t);
      HasLinkConcat(front, [r], slugs[t]);
      HasLinkOne(r, slugs[t]);
      var page := PageOf(slugs, NormalizeSlug(r));
      assert page == Some(t) <==> NormalizeSlug(r) == slugs[t];
    }
  }

  /** The detector reports exactly the one-way links among the pages. */
  lemma {:induction false} FindingsExact(slugs: seq<Slug>, rel: Lists, k: nat, p: nat, t: nat)
    requires |rel| == |slugs| && k <= |slugs| && p < |slugs| && t < |slugs| && DistinctSlugs(slugs)
    ensures MissingBacklink(slugs[p], slugs[t]) in Findings(slugs, rel, k) <==> p < k && OneWay(slugs, rel, p, t)
  {
    hide NormalizeSlug, HasLink, DistinctSlugs;
    if k > 0 {
      FindingsExact(slugs, rel, k - 1, p, t);
      FindingsOfMembers(slugs, rel, k - 1, rel[k - 1], p, t);
    }
  }

  lemma {:induction false} FindingsNamePages(slugs: seq<Slug>, rel: Lists, p: nat, rs: seq<Text>, f: Finding)
    requires |rel| == |slugs| && p < |slugs| && f in FindingsOf(slugs, rel, p, rs)
    ensures f.from == slugs[p] && f.target in slugs
  {
    hide NormalizeSlug, HasLink;
    var front := rs[..|rs| - 1];
    if f in FindingsOf(slugs, rel, p, front) {
      FindingsNamePages(slugs, rel, p, front, f);
    }
  }

  lemma {:induction false} NoFindingsExactly(slugs: seq<Slug>, rel: Lists)
    requires |rel| == |slugs| && DistinctSlugs(slugs)
    ensures Findings(slugs, rel, |slugs|) == [] <==> Symmetric(slugs, rel)
  {
    hide OneWay, DistinctSlugs;
    var all := Findings(slugs, rel, |slugs|);
    if all != [] {
      AllFindingsNamePages(slugs, rel, |slugs|, all[0]);
      var p, t :| 0 <= p < |slugs| && 0 <= t < |slugs| && all[0] == MissingBacklink(slugs[p], slugs[t]);
      assert all[0] in all;
      FindingsExact(slugs, rel, |slugs|, p, t);
    } else {
      forall p, t | 0 <= p < |slugs| && 0 <= t < |slugs| ensures !OneWay(slugs, rel, p, t) {
        FindingsExact(slugs, rel, |slugs|, p, t);
      }
    }
  }

  lemma {:induction false} AllFindingsNamePages(slugs: seq<Slug>, rel: Lists, k: nat, f: Finding)
    requires |rel| == |slugs| && k <= |slugs| && f in Findings(slugs, rel, k)
    ensures exists p, t | 0 <= p < |slugs| && 0 <= t < |slugs| :: f == MissingBacklink(slugs[p], slugs[t])
  {
    hide FindingsOf;
    if f in Findings(slugs, rel, k - 1) {
      AllFindingsNamePages(slugs, rel, k - 1, f);
    } else {
      FindingsNamePages(slugs, rel, k - 1, rel[k - 1], f);
      var t :| 0 <= t < |slugs| && slugs[t] == f.target;
      assert f == MissingBacklink(slugs[k - 1], slugs[t]);
    }
  }

  /** After a repair the detector has nothing to report, exactly under the condition of the repair. */
  lemma {:induction false} RepairLeavesNoFindings(slugs: seq<Slug>, rel: Lists)
    requires |rel| == |slugs| && DistinctSlugs(slugs)
    ensures Findings(slugs, Pass(slugs, rel, |slugs|), |slugs|) == [] <==> OneWayNormalized(slugs, rel)
  {
    hide Pass, Findings, Symmetric, OneWayNormalized, DistinctSlugs;
    OnePassIsTheSymmetricClosure(slugs, rel);
    NoFindingsExactly(slugs, Pass(slugs, rel, |slugs|));
  }

  ghost predicate IsLinkSet(links: set<Slug>, rs: seq<Text>) {
    forall x :: x in links <==> HasLink(rs, x)
  }

  /** The normalized links of each page, kept under the slug of the last page that has it. */
  ghost predicate Keeps(links: map<Slug, set<Slug>>, slugs: seq<Slug>, rel: Lists)
    requires |rel| == |slugs|
  {
    && (forall s | s in slugs :: s in links)
    && (forall s | s in links :: PageOf(slugs, s).Some? && IsLinkSet(links[s], rel[PageOf(slugs, s).value]))
  }

  method NormalizedSet(rs: seq<Text>) returns (links: set<Slug>)
    ensures IsLinkSet(links, rs)
  {
    hide NormalizeSlug;
    links := set i | 0 <= i < |rs| :: NormalizeSlug(rs[i]);
  }

  method CollectLinks(slugs: seq<Slug>, rel: Lists) returns (links: map<Slug, set<Slug>>)
    requires |rel| == |slugs|
    ensures Keeps(links, slugs, rel)
  {
    hide NormalizeSlug, HasLink;
    links := map[];
    var i := 0;
    while i < |slugs|
      invariant 0 <= i <= |slugs|
      invariant Keeps(links, slugs[..i], rel[..i])
    {
      var mine := NormalizedSet(rel[i]);
      links := links[slugs[i] := mine];
      assert slugs[..i + 1][..i] == slugs[..i] && slugs[..i + 1] == slugs[..i] + [slugs[i]];
      i := i + 1;
    }
    assert slugs[..i] == slugs && rel[..i] == rel;
  }

  method DetectMissingBacklinks(slugs: seq<Slug>, rel: Lists) returns (findings: seq<Finding>)
    requires |rel| == |slugs|
    ensures findings == Findings(slugs, rel, |slugs|)
  {
    hide NormalizeSlug, HasLink, Keeps, FindingsOf, PageOf;
    var links := CollectLinks(slugs, rel);
    findings := [];
    var i := 0;
    while i < |slugs|
      invariant 0 <= i <= |slugs|
      invariant findings == Findings(slugs, rel, i)
    {
      var mine := DetectForPage(slugs, rel, links, i);
      findings := findings + mine;
      i := i + 1;
    }
  }

  method DetectForPage(slugs: seq<Slug>, rel: Lists, links: map<Slug, set<Slug>>, p: nat) returns (findings: seq<Finding>)
    requires |rel| == |slugs| && p < |slugs| && Keeps(links, slugs, rel)
    ensures findings == FindingsOf(slugs, rel, p, rel[p])
  {
    hide NormalizeSlug, HasLink, PageOf;
    findings := [];
    var rs := rel[p];
    var j := 0;
    while j < |rs|
      invariant 0 <= j <= |rs|
      invariant findings == FindingsOf(slugs, rel, p, rs[..j])
    {
      var target := NormalizeSlug(rs[j]);
      if target in links && slugs[p] !in links[target] {
        findings := findings + [MissingBacklink(slugs[p], target)];
      }
      assert rs[..j + 1][..j] == rs[..j];
      j := j + 1;
    }
    assert rs[..j] == rs;
  }
}
