/**
 * Rendering the tiers of a progressive answer within a token budget. The parsing of a
 * page is done: a hit carries its paragraphs, section ledes and outline lines.
 */
module ProgressiveRender {
  import opened CodeUnits
  import opened Prelude
  import opened TextTools
  import opened Truncation

  datatype SectionLede = SectionLede(header: Option<Text>, lede: Text)

  datatype Hit = Hit(
    title: Text,
    path: Text,
    score: Text,
    lede: Text,
    sections: seq<SectionLede>,
    body: Text,
    outline: seq<Text>,
    truncated: bool)

  datatype Kind = Lede | SectionLedes | FullBody

  const NEWLINE: Text := [0xA]
  const DOT: Text := [0x20, 0xB7, 0x20]

  function Min(a: int, b: int): int {
    if a <= b then a else b
  }

  function Max(a: int, b: int): int {
    if a >= b then a else b
  }

  // ---------------------------------------------------------------------------
  // One hit
  // ---------------------------------------------------------------------------

  function Header(kind: Kind, h: Hit): Text {
    Literal("## ") + h.title + Literal("\n_path: ") + h.path + DOT + Literal("score: ") + h.score +
    (if kind.FullBody? && h.truncated then DOT + Literal("[pre-fetch truncated]") else []) + Literal("_\n\n")
  }

  function SectionTitle(s: SectionLede): Text {
    if s.header.Some? then Literal("### ") + s.header.value else []
  }

  function SectionBlock(s: SectionLede): Text {
    (if s.header.Some? then SectionTitle(s) + NEWLINE else []) + s.lede + NEWLINE
  }

  function SqueezedBlock(s: SectionLede, remaining: int): Text {
    SectionTitle(s) + NEWLINE + Truncated(s.lede, remaining - HeuristicTokens(SectionTitle(s)) - 2) + NEWLINE
  }

  /** Whole sections while they fit; then a shortened one if enough budget is left for it. */
  function SectionBlocks(sections: seq<SectionLede>, remaining: int): Text {
    if sections == [] || remaining <= 0 then []
    else
      var block := SectionBlock(sections[0]);
      var tokens := HeuristicTokens(block);
      if tokens <= remaining then block + SectionBlocks(sections[1..], remaining - tokens)
      else if remaining > HeuristicTokens(SectionTitle(sections[0])) + 8 then SqueezedBlock(sections[0], remaining)
      else []
  }

  function Remaining(kind: Kind, h: Hit, budget: int): nat {
    Max(0, budget - HeuristicTokens(Header(kind, h)))
  }

  function Content(kind: Kind, h: Hit, remaining: nat): Text {
    match kind
    case Lede => Truncated(h.lede, remaining)
    case SectionLedes =>
      if h.sections == [] then Truncated(h.lede, remaining) else SectionBlocks(h.sections, remaining)
    case FullBody => Truncated(h.body, remaining)
  }

  function RenderHit(kind: Kind, h: Hit, budget: int): Text {
    if budget <= 0 then []
    else TrimEnd(Header(kind, h) + Content(kind, h, Remaining(kind, h, budget)))
  }

  lemma {:induction false} SectionBlocksBound(sections: seq<SectionLede>, remaining: int)
    ensures |SectionBlocks(sections, remaining)| <= TokensToChars(remaining)
  {
    hide Truncated, SectionTitle;
    if sections != [] && remaining > 0 {
      var s := sections[0];
      var tokens := HeuristicTokens(SectionBlock(s));
      if tokens <= remaining {
        SectionBlocksBound(sections[1..], remaining - tokens);
      } else {
        TruncatedBounds(s.lede, remaining - HeuristicTokens(SectionTitle(s)) - 2);
      }
    }
  }

  /** A hit's block keeps to its budget, except for a header that alone is over it. */
  lemma RenderHitBound(kind: Kind, h: Hit, budget: int)
    ensures HeuristicTokens(RenderHit(kind, h, budget)) <= Max(0, budget) ||
            HeuristicTokens(RenderHit(kind, h, budget)) <= HeuristicTokens(Header(kind, h))
    ensures budget <= 0 ==> RenderHit(kind, h, budget) == []
  {
    hide Truncated, Header, SectionBlocks, TrimEnd;
    var remaining := Remaining(kind, h, budget);
    TruncatedBounds(h.lede, remaining);
    TruncatedBounds(h.body, remaining);
    SectionBlocksBound(h.sections, remaining);
  }

  // ---------------------------------------------------------------------------
  // A page of blocks
  // ---------------------------------------------------------------------------

  /** The blocks taken so far and the tokens counted for them. */
  datatype Page = Page(sections: seq<Text>, used: nat)

  function Fill(kind: Kind, hits: seq<Hit>, share: int, budget: int, page: Page): Page {
    if hits == [] || page.used >= budget then page
    else
      var block := RenderHit(kind, hits[0], Min(share, budget - page.used));
      var tokens := HeuristicTokens(block);
      if page.used + tokens > budget then page
      else Fill(kind, hits[1..], share, budget, Page(page.sections + [block], page.used + tokens))
  }

  function Chars(sections: seq<Text>): nat {
    if sections == [] then 0 else Chars(sections[..|sections| - 1]) + |sections[|sections| - 1]|
  }

  function Join(sections: seq<Text>): Text {
    if sections == [] then []
    else if |sections| == 1 then sections[0]
    else Join(sections[..|sections| - 1]) + NEWLINE + sections[|sections| - 1]
  }

  lemma {:induction false} JoinLength(sections: seq<Text>)
    ensures |Join(sections)| == Chars(sections) + if sections == [] then 0 else |sections| - 1
  {
    if sections != [] {
      JoinLength(sections[..|sections| - 1]);
    }
  }

  /** Every token a page holds is counted, and the count is within the budget. */
  predicate PageOk(page: Page, budget: int) {
    page.used <= budget && Chars(page.sections) <= TokensToChars(page.used)
  }

  lemma {:induction false} FillKeepsPageOk(kind: Kind, hits: seq<Hit>, share: int, budget: int, page: Page)
    requires PageOk(page, budget)
    ensures PageOk(Fill(kind, hits, share, budget, page), budget)
    ensures |Fill(kind, hits, share, budget, page).sections| <= |page.sections| + |hits|
    ensures page.sections <= Fill(kind, hits, share, budget, page).sections
    decreases |hits|
  {
    hide RenderHit;
    if hits != [] && page.used < budget {
      var block := RenderHit(kind, hits[0], Min(share, budget - page.used));
      var tokens := HeuristicTokens(block);
      if page.used + tokens <= budget {
        assert (page.sections + [block])[..|page.sections|] == page.sections;
        FillKeepsPageOk(kind, hits[1..], share, budget, Page(page.sections + [block], page.used + tokens));
      }
    }
  }

  /** The newlines between the blocks are not counted: five blocks cost one token more. */
  lemma JoinedPageBound(page: Page, budget: int)
    requires PageOk(page, budget) && |page.sections| <= 5
    ensures HeuristicTokens(Trim(Join(page.sections))) <= budget + 1
  {
    hide Trim, Join, Chars;
    JoinLength(page.sections);
  }

  // ---------------------------------------------------------------------------
  // The tiers
  // ---------------------------------------------------------------------------

  const NO_PAGE := Page([], 0)

  function RenderTier0(top: Option<Hit>, budget: int): Text {
    if top.None? then []
    else
      var header := Header(Lede, top.value);
      var remaining := budget - HeuristicTokens(header);
      if remaining <= 0 then Truncated(header, budget)
      else Trim(header + Truncated(top.value.lede, remaining))
  }

  function OutlineBlock(top: Hit): Text {
    Join([Literal("## Outline: ") + top.title, Literal("_path: ") + top.path + Literal("_"), []] + top.outline) + NEWLINE
  }

  function OutlinePage(top: Option<Hit>, budget: int): Page {
    if top.Some? && top.value.outline != [] && HeuristicTokens(OutlineBlock(top.value)) <= budget
    then Page([OutlineBlock(top.value)], HeuristicTokens(OutlineBlock(top.value)))
    else NO_PAGE
  }

  function Share(budget: int, n: nat): nat {
    if n > 0 then Max(0, budget / n) else 0
  }

  function Tier1Page(top: Option<Hit>, next: seq<Hit>, budget: int): Page {
    var page := OutlinePage(top, budget);
    Fill(Lede, next, Share(budget - page.used, |next|), budget, page)
  }

  /** Six tenths of the budget, in equal parts, rounded down. */
  function TopShare(budget: int, n: nat): nat {
    if n > 0 then Max(0, (budget as real * 0.6 / n as real).Floor) else 0
  }

  function Tier2Page(top: seq<Hit>, delta: seq<Hit>, budget: int): Page {
    var page := Fill(SectionLedes, top, TopShare(budget, |top|), budget, NO_PAGE);
    Fill(Lede, delta, Share(budget - page.used, |delta|), budget, page)
  }

  /** The new hits; or, when there are none, the earlier ones again. */
  function Tier3Hits(top: seq<Hit>, delta: seq<Hit>): seq<Hit> {
    if delta == [] then top else delta
  }

  function Tier3Page(top: seq<Hit>, delta: seq<Hit>, budget: int): Page {
    var all := Tier3Hits(top, delta);
    Fill(FullBody, all, Share(budget, |all|), budget, NO_PAGE)
  }

  /** How many hits the answers up to a tier refer to. */
  function HitsUpTo(tier: nat): nat
    requires tier <= 3
  {
    match tier
    case 0 => 1
    case 1 => 3
    case 2 => 5
    case 3 => 8
  }

  /** Array.prototype.slice with bounds that may lie past the end. */
  function Slice(hits: seq<Hit>, from: nat, to: nat): seq<Hit>
    requires from <= to
  {
    hits[Min(from, |hits|)..Min(to, |hits|)]
  }

  /** The hits a tier adds to those before it. */
  function Delta(hits: seq<Hit>, tier: nat): seq<Hit>
    requires tier <= 3
  {
    Slice(hits, if tier == 0 then 0 else HitsUpTo(tier - 1), HitsUpTo(tier))
  }

  function Top(hits: seq<Hit>): Option<Hit> {
    if hits == [] then None else Some(hits[0])
  }

  function RenderTier(tier: nat, hits: seq<Hit>, budget: int): Text
    requires tier <= 3
  {
    if budget <= 0 then []
    else
      match tier
      case 0 => RenderTier0(Top(hits), budget)
      case 1 => Trim(Join(Tier1Page(Top(hits), Slice(hits, 1, 3), budget).sections))
      case 2 => Trim(Join(Tier2Page(Slice(hits, 0, 3), Delta(hits, 2), budget).sections))
      case 3 => Trim(Join(Tier3Page(Slice(hits, 0, 5), Delta(hits, 3), budget).sections))
  }

  lemma Tier0Bound(hits: seq<Hit>, budget: int)
    ensures HeuristicTokens(RenderTier(0, hits, budget)) <= Max(0, budget)
  {
    hide Truncated, Header, Trim;
    if hits != [] {
      var header := Header(Lede, hits[0]);
      TruncatedBounds(header, budget);
      TruncatedBounds(hits[0].lede, budget - HeuristicTokens(header));
    }
  }

  lemma NoPageOk(budget: int)
    requires budget > 0
    ensures PageOk(NO_PAGE, budget)
  {
  }

  lemma OutlinePageOk(top: Option<Hit>, budget: int)
    requires budget > 0
    ensures PageOk(OutlinePage(top, budget), budget) && |OutlinePage(top, budget).sections| <= 1
  {
    hide OutlineBlock;
    NoPageOk(budget);
    if top.Some? {
      var block := OutlineBlock(top.value);
      var sections := [block];
      assert sections[..0] == [] && Chars(sections) == Chars(sections[..0]) + |block|;
    }
  }

  lemma {:induction false} TierBound(tier: nat, hits: seq<Hit>, budget: int)
    requires 1 <= tier <= 3
    ensures HeuristicTokens(RenderTier(tier, hits, budget)) <= if budget <= 0 then 0 else budget + 1
  {
    hide Fill, Trim, Join, Chars, OutlineBlock, TopShare, Share, Slice;
    if budget > 0 {
      SliceLengths(hits);
      NoPageOk(budget);
      match tier {
        case 1 =>
          var page := OutlinePage(Top(hits), budget);
          OutlinePageOk(Top(hits), budget);
          FillKeepsPageOk(Lede, Slice(hits, 1, 3), Share(budget - page.used, |Slice(hits, 1, 3)|), budget, page);
          JoinedPageBound(Tier1Page(Top(hits), Slice(hits, 1, 3), budget), budget);
        case 2 =>
          var top, delta := Slice(hits, 0, 3), Delta(hits, 2);
          var page := Fill(SectionLedes, top, TopShare(budget, |top|), budget, NO_PAGE);
          FillKeepsPageOk(SectionLedes, top, TopShare(budget, |top|), budget, NO_PAGE);
          FillKeepsPageOk(Lede, delta, Share(budget - page.used, |delta|), budget, page);
          JoinedPageBound(Tier2Page(top, delta, budget), budget);
        case 3 =>
          var all := Tier3Hits(Slice(hits, 0, 5), Delta(hits, 3));
          FillKeepsPageOk(FullBody, all, Share(budget, |all|), budget, NO_PAGE);
          JoinedPageBound(Tier3Page(Slice(hits, 0, 5), Delta(hits, 3), budget), budget);
      }
    }
  }

  lemma SliceLengths(hits: seq<Hit>)
    ensures |Slice(hits, 1, 3)| <= 2 && |Slice(hits, 0, 3)| <= 3 && |Slice(hits, 0, 5)| <= 5
    ensures |Delta(hits, 2)| <= 2 && |Delta(hits, 3)| <= 3
  {
  }

  /** The tiers' own hits are the first eight, in order, none twice. */
  lemma DeltasPartition(hits: seq<Hit>)
    ensures Delta(hits, 0) + Delta(hits, 1) + Delta(hits, 2) + Delta(hits, 3) == Slice(hits, 0, 8)
  {
    assert forall tier | 1 <= tier <= 3 :: Slice(hits, 0, HitsUpTo(tier - 1)) + Delta(hits, tier) == Slice(hits, 0, HitsUpTo(tier));
    assert Delta(hits, 0) == Slice(hits, 0, HitsUpTo(0));
    assert HitsUpTo(0) == 1 && HitsUpTo(1) == 3 && HitsUpTo(2) == 5 && HitsUpTo(3) == 8;
    assert Delta(hits, 0) + Delta(hits, 1) == Slice(hits, 0, 3);
    assert Slice(hits, 0, 3) + Delta(hits, 2) == Slice(hits, 0, 5);
    assert Slice(hits, 0, 5) + Delta(hits, 3) == Slice(hits, 0, 8);
  }

  /**
   * Tier 3 renders its own hits exactly when there are more than five; with fewer it
   * goes back to hits that earlier tiers drew on.
   */
  lemma Tier3RepeatsExactly(hits: seq<Hit>)
    requires hits != []
    ensures Tier3Hits(Slice(hits, 0, 5), Delta(hits, 3)) == (if |hits| > 5 then Delta(hits, 3) else hits)
    ensures Delta(hits, 3) == [] <==> |hits| <= 5
  {
    if |hits| <= 5 {
      assert Slice(hits, 0, 5) == hits;
    }
  }

  // ---------------------------------------------------------------------------
  // When the bound is reached: from 14 tokens on
  // ---------------------------------------------------------------------------

  /** A score has three decimals, and an outline line a bullet and a title. */
  predicate Formatted(h: Hit) {
    |h.score| >= 5 && forall i | 0 <= i < |h.outline| :: |h.outline[i]| >= 3
  }

  predicate AllFormatted(hits: seq<Hit>) {
    forall i | 0 <= i < |hits| :: Formatted(hits[i])
  }

  lemma HeaderShape(kind: Kind, h: Hit)
    ensures var s := Header(kind, h);
      && |s| >= 24 + |h.title| + |h.path| + |h.score|
      && (!h.truncated ==> |s| == 24 + |h.title| + |h.path| + |h.score|)
      && s[0] == 0x23 && s[|s| - 3] == 0x5F && s[|s| - 2] == s[|s| - 1] == 0xA
  {
    var end := Literal("_\n\n");
    assert end == [0x5F, 0xA, 0xA];
    var s := Header(kind, h);
    assert s[|s| - 3..] == end;
  }

  /** A hit that is all title. */
  function Titled(n: nat): Hit {
    Hit(seq(n, i => 0x61), [], Literal("1.000"), [], [], [], [], false)
  }

  /** When its header uses up the budget, the block is the header without the blank lines. */
  lemma TitledBlock(kind: Kind, n: nat, budget: int)
    requires 1 <= budget <= HeuristicTokens(Header(kind, Titled(n)))
    ensures var block := RenderHit(kind, Titled(n), budget);
      |block| == n + 27 && block[0] == 0x23 && !IsSpace(block[|block| - 1])
  {
    HeaderShape(kind, Titled(n));
    hide TrimEnd, Header, Literal, HeuristicTokens, Truncated, SectionBlocks, IsSpace;
    var h := Titled(n);
    var header := Header(kind, h);
    assert h.lede == [] && h.body == [] && h.sections == [] && |h.score| == 5 && |h.title| == n;
    assert Remaining(kind, h, budget) == 0;
    TruncatedToNothing();
    assert header + [] == header;
    assert RenderHit(kind, h, budget) == TrimEnd(header);
    TrimEndOfHeader(header);
  }

  lemma TruncatedToNothing()
    ensures Truncated([], 0) == []
  {
  }

  lemma TrimEndOfHeader(s: Text)
    requires |s| >= 3 && s[|s| - 3] == 0x5F && s[|s| - 2] == s[|s| - 1] == 0xA
    ensures TrimEnd(s) == s[..|s| - 2] && !IsSpace(0x5F)
  {
    var t := s[..|s| - 1];
    assert TrimEnd(s) == TrimEnd(t);
    assert t[..|t| - 1] == s[..|s| - 2];
    assert TrimEnd(t) == TrimEnd(s[..|s| - 2]);
    TrimEndKeeps(s[..|s| - 2]);
  }

  /** Blocks of budget - 7 and of 7 whole tokens. */
  function LongOne(budget: nat): Hit
    requires budget >= 14
  {
    Titled(4 * budget - 55)
  }

  function ShortOne(): Hit {
    Titled(1)
  }

  lemma PairFills(kind: Kind, share: int, budget: nat)
    requires budget >= 14 && 1 <= share <= budget - 6
    ensures var page := Fill(kind, [LongOne(budget), ShortOne()], share, budget, NO_PAGE);
      page.used == budget && |page.sections| == 2 && HeuristicTokens(Trim(Join(page.sections))) == budget + 1
  {
    hide RenderHit, Trim, Join;
    HeaderShape(kind, LongOne(budget));
    HeaderShape(kind, ShortOne());
    TitledBlock(kind, 4 * budget - 55, share);
    TitledBlock(kind, 1, Min(share, 7));
    var a, b := LongOne(budget), ShortOne();
    var long, short := RenderHit(kind, a, share), RenderHit(kind, b, Min(share, 7));
    hide Titled, LongOne, ShortOne, Header;
    var none: seq<Text> := [];
    assert none + [long] == [long] && [long] + [short] == [long, short];
    assert [a, b][1..] == [b] && [b][1..] == [];
    assert Fill(kind, [b], share, budget, Page([long], budget - 7)) == Page([long, short], budget);
    assert Fill(kind, [a, b], share, budget, NO_PAGE) == Page([long, short], budget);
    TwoBlocks(long, short);
  }

  lemma TwoBlocks(a: Text, b: Text)
    requires a != [] && b != [] && a[0] == 0x23 && !IsSpace(b[|b| - 1])
    ensures |Trim(Join([a, b]))| == |a| + 1 + |b|
  {
    hide TrimStart, TrimEnd;
    assert [a, b][..1] == [a] && Join([a]) == a;
    var joined := Join([a, b]);
    assert joined == a + NEWLINE + b;
    TrimStartKeeps(joined);
    TrimEndKeeps(joined);
  }

  /** Hits for which a tier under this budget delivers one token more. */
  function Overrunning(tier: nat, budget: nat): seq<Hit>
    requires 1 <= tier <= 3 && budget >= 14
  {
    var pair := [LongOne(budget), ShortOne()];
    var x := ShortOne();
    if tier == 1 then [x] + pair else if tier == 2 then pair else [x, x, x, x, x] + pair
  }

  lemma {:induction false} TierOverruns(tier: nat, budget: nat)
    requires 1 <= tier <= 3 && budget >= 14
    ensures AllFormatted(Overrunning(tier, budget))
    ensures HeuristicTokens(RenderTier(tier, Overrunning(tier, budget), budget)) == budget + 1
  {
    hide Fill, Trim, Join, Literal;
    var hits := Overrunning(tier, budget);
    var pair := [LongOne(budget), ShortOne()];
    var x := ShortOne();
    match tier {
      case 1 =>
        assert Slice(hits, 1, 3) == pair && hits[0] == x && OutlinePage(Top(hits), budget) == NO_PAGE;
        PairFills(Lede, Share(budget, 2), budget);
      case 2 =>
        assert Slice(hits, 0, 3) == pair && Delta(hits, 2) == [];
        TopShareBounds(budget);
        PairFills(SectionLedes, TopShare(budget, 2), budget);
        var page := Fill(SectionLedes, pair, TopShare(budget, 2), budget, NO_PAGE);
        FillNothing(Lede, Share(budget - page.used, 0), budget, page);
      case 3 =>
        assert Delta(hits, 3) == pair;
        PairFills(FullBody, Share(budget, 2), budget);
    }
  }

  lemma TopShareBounds(budget: nat)
    requires budget >= 14
    ensures 1 <= TopShare(budget, 2) <= budget - 6
  {
    var x := budget as real * 0.6 / 2.0;
    assert x == budget as real * 0.3;
    assert 4.0 <= x <= budget as real - 6.0;
  }

  lemma FillNothing(kind: Kind, share: int, budget: int, page: Page)
    ensures Fill(kind, [], share, budget, page) == page
  {
  }

  // ---------------------------------------------------------------------------
  // Below 14 tokens there is room for one block only
  // ---------------------------------------------------------------------------

  /** How many sections are not empty. */
  function Filled(sections: seq<Text>): nat {
    if sections == [] then 0
    else Filled(sections[..|sections| - 1]) + if sections[|sections| - 1] == [] then 0 else 1
  }

  lemma {:induction false} BlockIsBig(kind: Kind, h: Hit, budget: int)
    requires Formatted(h)
    ensures RenderHit(kind, h, budget) == [] || HeuristicTokens(RenderHit(kind, h, budget)) >= 7
  {
    hide Header, Content, TrimEnd;
    if budget > 0 {
      HeaderShape(kind, h);
      var header := Header(kind, h);
      var s := header + Content(kind, h, Remaining(kind, h, budget));
      assert s[|header| - 3] == 0x5F;
      if |TrimEnd(s)| <= |header| - 3 {
        TrimEndDrops(s, |header| - 3);
      }
    }
  }

  lemma {:induction false} OutlineIsBig(h: Hit)
    requires Formatted(h) && h.outline != []
    ensures HeuristicTokens(OutlineBlock(h)) >= 7
  {
    var lines := [Literal("## Outline: ") + h.title, Literal("_path: ") + h.path + Literal("_"), []] + h.outline;
    assert lines[..|lines|] == lines && lines[3] == h.outline[0];
    hide Literal, Join;
    JoinLength(lines);
    CharsAtLeast(lines, 4);
    FourChars(lines[..4]);
  }

  lemma {:induction false} CharsAtLeast(sections: seq<Text>, n: nat)
    requires n <= |sections|
    ensures Chars(sections[..n]) <= Chars(sections)
  {
    if n < |sections| {
      CharsAtLeast(sections[..|sections| - 1], n);
      assert sections[..|sections| - 1][..n] == sections[..n];
    } else {
      assert sections[..n] == sections;
    }
  }

  lemma FourChars(s: seq<Text>)
    requires |s| == 4
    ensures Chars(s) == |s[0]| + |s[1]| + |s[2]| + |s[3]|
  {
    assert s[..3][..2] == s[..2] && s[..2][..1] == s[..1] && s[..1][..0] == s[..0];
    assert Chars(s[..0]) == 0 && Chars(s[..1]) == |s[0]|;
    assert Chars(s[..2]) == |s[0]| + |s[1]| && Chars(s[..3]) == |s[0]| + |s[1]| + |s[2]|;
  }

  predicate Sparse(page: Page) {
    7 * Filled(page.sections) <= page.used
  }

  lemma {:induction false} FillKeepsSparse(kind: Kind, hits: seq<Hit>, share: int, budget: int, page: Page)
    requires AllFormatted(hits) && Sparse(page)
    ensures Sparse(Fill(kind, hits, share, budget, page))
    decreases |hits|
  {
    hide RenderHit, Formatted;
    if hits != [] && page.used < budget {
      var block := RenderHit(kind, hits[0], Min(share, budget - page.used));
      var tokens := HeuristicTokens(block);
      if page.used + tokens <= budget {
        BlockIsBig(kind, hits[0], Min(share, budget - page.used));
        assert (page.sections + [block])[..|page.sections|] == page.sections;
        FillKeepsSparse(kind, hits[1..], share, budget, Page(page.sections + [block], page.used + tokens));
      }
    }
  }

  predicate SpacesOutside(t: Text, lo: nat, hi: nat) {
    lo <= hi <= |t| && forall i | 0 <= i < |t| && !(lo <= i < hi) :: IsSpace(t[i])
  }

  lemma {:induction false} EmptiesJoin(sections: seq<Text>)
    requires Filled(sections) == 0
    ensures SpacesOutside(Join(sections), 0, 0) && Chars(sections) == 0
  {
    hide IsSpace;
    assert IsSpace(NEWLINE[0]) by { NewlineIsSpace(); }
    if sections != [] {
      EmptiesJoin(sections[..|sections| - 1]);
    }
  }

  lemma NewlineIsSpace()
    ensures IsSpace(0xA)
  {
  }

  /** With one filled section, everything else in the joined text is white space. */
  lemma {:induction false} OneFilled(sections: seq<Text>) returns (lo: nat, hi: nat)
    requires Filled(sections) <= 1
    ensures SpacesOutside(Join(sections), lo, hi) && hi - lo <= Chars(sections)
  {
    hide IsSpace;
    NewlineIsSpace();
    var n := |sections| - 1;
    if sections == [] {
      lo, hi := 0, 0;
    } else if n == 0 {
      lo, hi := 0, |sections[0]|;
    } else if sections[n] == [] {
      lo, hi := OneFilled(sections[..n]);
    } else {
      EmptiesJoin(sections[..n]);
      lo, hi := |Join(sections[..n])| + 1, |Join(sections)|;
    }
  }

  lemma {:induction false} TrimWithin(t: Text, lo: nat, hi: nat)
    requires SpacesOutside(t, lo, hi)
    ensures |Trim(t)| <= hi - lo
  {
    hide IsSpace, TrimStart, TrimEnd;
    TrimStartIsSuffix(t);
    TrimStartDrops(t, lo);
    var u := TrimStart(t);
    assert u == t[|t| - |u|..];
    var n := if |u| >= |t| - hi then |u| - (|t| - hi) else 0;
    assert forall i | n <= i < |u| :: u[i] == t[|t| - |u| + i];
    TrimEndAtMost(u, n);
  }

  lemma {:induction false} OneBlockFits(page: Page, budget: int)
    requires PageOk(page, budget) && Sparse(page) && page.used <= 13
    ensures HeuristicTokens(Trim(Join(page.sections))) <= Max(0, budget)
  {
    hide Join, Trim, Chars, Filled, SpacesOutside;
    var lo, hi := OneFilled(page.sections);
    TrimWithin(Join(page.sections), lo, hi);
  }

  lemma {:induction false} SmallTierHolds(tier: nat, hits: seq<Hit>, budget: int)
    requires 1 <= tier <= 3 && budget < 14 && AllFormatted(hits)
    ensures HeuristicTokens(RenderTier(tier, hits, budget)) <= Max(0, budget)
  {
    if budget > 0 {
      match tier {
        case 1 => SmallTier1(hits, budget);
        case 2 => SmallTier2(hits, budget);
        case 3 => SmallTier3(hits, budget);
      }
    }
  }

  lemma SlicesFormatted(hits: seq<Hit>, from: nat, to: nat)
    requires AllFormatted(hits) && from <= to
    ensures AllFormatted(Slice(hits, from, to))
  {
    hide Formatted;
  }

  lemma NoPageSparse(budget: int)
    requires budget > 0
    ensures PageOk(NO_PAGE, budget) && Sparse(NO_PAGE)
  {
  }

  lemma {:induction false} SmallTier1(hits: seq<Hit>, budget: int)
    requires 0 < budget < 14 && AllFormatted(hits)
    ensures HeuristicTokens(RenderTier(1, hits, budget)) <= budget
  {
    hide Fill, Trim, Join, OutlineBlock, Share, Slice, Filled, Chars, Formatted;
    NoPageSparse(budget);
    OutlinePageOk(Top(hits), budget);
    OutlineSparse(hits, budget);
    SlicesFormatted(hits, 1, 3);
    var page, next := OutlinePage(Top(hits), budget), Slice(hits, 1, 3);
    FillKeepsPageOk(Lede, next, Share(budget - page.used, |next|), budget, page);
    FillKeepsSparse(Lede, next, Share(budget - page.used, |next|), budget, page);
    OneBlockFits(Tier1Page(Top(hits), next, budget), budget);
  }

  lemma OutlineSparse(hits: seq<Hit>, budget: int)
    requires AllFormatted(hits)
    ensures Sparse(OutlinePage(Top(hits), budget))
  {
    hide OutlineBlock, Formatted;
    if hits != [] && hits[0].outline != [] {
      OutlineIsBig(hits[0]);
      var block := OutlineBlock(hits[0]);
      var sections := [block];
      assert sections[..0] == [] && Filled(sections) == Filled(sections[..0]) + (if block == [] then 0 else 1);
    }
  }

  lemma {:induction false} SmallTier2(hits: seq<Hit>, budget: int)
    requires 0 < budget < 14 && AllFormatted(hits)
    ensures HeuristicTokens(RenderTier(2, hits, budget)) <= budget
  {
    hide Fill, Trim, Join, TopShare, Share, Slice, Filled, Chars, Formatted;
    NoPageSparse(budget);
    SlicesFormatted(hits, 0, 3);
    SlicesFormatted(hits, 3, 5);
    var top, delta := Slice(hits, 0, 3), Delta(hits, 2);
    var page := Fill(SectionLedes, top, TopShare(budget, |top|), budget, NO_PAGE);
    FillKeepsPageOk(SectionLedes, top, TopShare(budget, |top|), budget, NO_PAGE);
    FillKeepsSparse(SectionLedes, top, TopShare(budget, |top|), budget, NO_PAGE);
    FillKeepsPageOk(Lede, delta, Share(budget - page.used, |delta|), budget, page);
    FillKeepsSparse(Lede, delta, Share(budget - page.used, |delta|), budget, page);
    OneBlockFits(Tier2Page(top, delta, budget), budget);
  }

  lemma {:induction false} SmallTier3(hits: seq<Hit>, budget: int)
    requires 0 < budget < 14 && AllFormatted(hits)
    ensures HeuristicTokens(RenderTier(3, hits, budget)) <= budget
  {
    hide Fill, Trim, Join, Share, Slice, Filled, Chars, Formatted;
    NoPageSparse(budget);
    SlicesFormatted(hits, 0, 5);
    SlicesFormatted(hits, 5, 8);
    var all := Tier3Hits(Slice(hits, 0, 5), Delta(hits, 3));
    FillKeepsPageOk(FullBody, all, Share(budget, |all|), budget, NO_PAGE);
    FillKeepsSparse(FullBody, all, Share(budget, |all|), budget, NO_PAGE);
    OneBlockFits(Tier3Page(Slice(hits, 0, 5), Delta(hits, 3), budget), budget);
  }

  ghost predicate CanOverrun(tier: nat, budget: int)
    requires 1 <= tier <= 3
  {
    exists hits :: AllFormatted(hits) && Overruns(tier, hits, budget)
  }

  predicate Overruns(tier: nat, hits: seq<Hit>, budget: int)
    requires 1 <= tier <= 3
  {
    HeuristicTokens(RenderTier(tier, hits, budget)) > Max(0, budget)
  }

  /** There are hits for which a tier overruns its budget exactly from 14 tokens on. */
  lemma {:induction false} OverrunsExactly(tier: nat, budget: int)
    requires 1 <= tier <= 3
    ensures CanOverrun(tier, budget) <==> budget >= 14
  {
    hide RenderTier, HeuristicTokens, AllFormatted;
    if budget >= 14 {
      TierOverruns(tier, budget);
      assert Overruns(tier, Overrunning(tier, budget), budget);
    } else if hits :| AllFormatted(hits) && Overruns(tier, hits, budget) {
      SmallTierHolds(tier, hits, budget);
    }
  }

  // ---------------------------------------------------------------------------
  // The renderers, as the loops they are
  // ---------------------------------------------------------------------------

  lemma Reassociate(a: Text, b: Text, c: Text)
    ensures a + (b + c) == (a + b) + c
  {
  }

  method RenderHitSectionLedes(h: Hit, budget: int) returns (r: Text)
    ensures r == RenderHit(SectionLedes, h, budget)
  {
    hide Truncated, Header, TrimEnd, SectionTitle, SectionBlock;
    if budget <= 0 {
      return [];
    }
    var header := Header(SectionLedes, h);
    var remaining := Max(0, budget - HeuristicTokens(header));
    ghost var start := remaining;
    if |h.sections| == 0 {
      assert h.sections == [];
      return TrimEnd(header + Truncated(h.lede, remaining));
    }
    var out: Text := [];
    var i := 0;
    while i < |h.sections| && remaining > 0
      invariant 0 <= i <= |h.sections|
      invariant out + SectionBlocks(h.sections[i..], remaining) == SectionBlocks(h.sections, start)
    {
      var section := h.sections[i];
      var block := SectionBlock(section);
      var tokens := HeuristicTokens(block);
      assert h.sections[i..][0] == section && h.sections[i..][1..] == h.sections[i + 1..];
      if tokens <= remaining {
        Reassociate(out, block, SectionBlocks(h.sections[i + 1..], remaining - tokens));
        out := out + block;
        remaining := remaining - tokens;
        i := i + 1;
      } else {
        if remaining > HeuristicTokens(SectionTitle(section)) + 8 {
          out := out + SqueezedBlock(section, remaining);
        }
        assert out == SectionBlocks(h.sections, start);
        return TrimEnd(header + out);
      }
    }
    assert out == SectionBlocks(h.sections, start);
    return TrimEnd(header + out);
  }

  method RenderBlock(kind: Kind, h: Hit, budget: int) returns (r: Text)
    ensures r == RenderHit(kind, h, budget)
  {
    hide RenderHit;
    if kind.SectionLedes? {
      r := RenderHitSectionLedes(h, budget);
    } else {
      r := RenderHit(kind, h, budget);
    }
  }

  /** The loop all three tiers share. */
  method FillPage(kind: Kind, hits: seq<Hit>, share: int, budget: int, page: Page) returns (r: Page)
    ensures r == Fill(kind, hits, share, budget, page)
  {
    hide RenderHit;
    r := page;
    var i := 0;
    while i < |hits|
      invariant 0 <= i <= |hits|
      invariant Fill(kind, hits[i..], share, budget, r) == Fill(kind, hits, share, budget, page)
    {
      if r.used >= budget {
        break;
      }
      var block := RenderBlock(kind, hits[i], Min(share, budget - r.used));
      var tokens := HeuristicTokens(block);
      assert hits[i..][0] == hits[i] && hits[i..][1..] == hits[i + 1..];
      if r.used + tokens > budget {
        break;
      }
      r := Page(r.sections + [block], r.used + tokens);
      i := i + 1;
    }
  }

  method RenderTier1(top: Option<Hit>, next: seq<Hit>, budget: int) returns (r: Text)
    ensures r == Trim(Join(Tier1Page(top, next, budget).sections))
  {
    hide Fill, Trim, Join, OutlineBlock;
    var page := OutlinePage(top, budget);
    var perHit := Share(budget - page.used, |next|);
    page := FillPage(Lede, next, perHit, budget, page);
    return Trim(Join(page.sections));
  }

  method RenderTier2(top: seq<Hit>, delta: seq<Hit>, budget: int) returns (r: Text)
    ensures r == Trim(Join(Tier2Page(top, delta, budget).sections))
  {
    hide Fill, Trim, Join;
    var page := FillPage(SectionLedes, top, TopShare(budget, |top|), budget, NO_PAGE);
    var perDelta := Share(budget - page.used, |delta|);
    page := FillPage(Lede, delta, perDelta, budget, page);
    return Trim(Join(page.sections));
  }

  method RenderTier3(top: seq<Hit>, delta: seq<Hit>, budget: int) returns (r: Text)
    ensures r == Trim(Join(Tier3Page(top, delta, budget).sections))
  {
    hide Fill, Trim, Join;
    var all := delta;
    if |top| > 0 && |delta| == 0 {
      all := all + top;
    }
    assert all == Tier3Hits(top, delta);
    var page := FillPage(FullBody, all, Share(budget, |all|), budget, NO_PAGE);
    return Trim(Join(page.sections));
  }

  method Render(tier: nat, hits: seq<Hit>, budget: int) returns (r: Text)
    requires tier <= 3
    ensures r == RenderTier(tier, hits, budget)
  {
    hide Trim, Join, Tier1Page, Tier2Page, Tier3Page;
    if budget <= 0 {
      return [];
    }
    match tier {
      case 0 => r := RenderTier0(Top(hits), budget);
      case 1 => r := RenderTier1(Top(hits), Slice(hits, 1, 3), budget);
      case 2 => r := RenderTier2(Slice(hits, 0, 3), Delta(hits, 2), budget);
      case 3 => r := RenderTier3(Slice(hits, 0, 5), Delta(hits, 3), budget);
    }
  }
}
