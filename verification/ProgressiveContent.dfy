/**
 * What a tier shows: given ample room, the blocks of exactly its own hits, each in full
 * and in rank order; and, of one hit, never anything but the beginning of its text.
 */
module ProgressiveContent {
  import opened CodeUnits
  import opened Prelude
  import opened TextTools
  import opened Truncation
  import opened ProgressiveRender

  // ---------------------------------------------------------------------------
  // What an answer is made of, without any budget
  // ---------------------------------------------------------------------------

  /** The section's title, if it has one, on a line of its own, and its lede on the next. */
  function SectionText(s: SectionLede): Text {
    match s.header
    case Some(title) => Literal("### ") + title + Literal("\n") + s.lede + Literal("\n")
    case None => s.lede + Literal("\n")
  }

  function SectionTexts(sections: seq<SectionLede>): Text {
    if sections == [] then [] else SectionText(sections[0]) + SectionTexts(sections[1..])
  }

  /** The text that a kind of block is about. */
  function Subject(kind: Kind, h: Hit): Text {
    match kind
    case Lede => h.lede
    case SectionLedes => if h.sections == [] then h.lede else SectionTexts(h.sections)
    case FullBody => h.body
  }

  /** Title, path and score of a hit, and below an empty line the text. */
  function BlockText(kind: Kind, h: Hit, text: Text): Text {
    var note := if kind == FullBody && h.truncated then [0x20, 0xB7, 0x20] + Literal("[pre-fetch truncated]") else [];
    Literal("## ") + h.title + Literal("\n_path: ") + h.path + [0x20, 0xB7, 0x20] + Literal("score: ") + h.score
    + note + Literal("_\n\n") + text
  }

  function FullBlock(kind: Kind, h: Hit): Text {
    TrimEnd(BlockText(kind, h, Subject(kind, h)))
  }

  lemma BlockIsHeaderAndText(kind: Kind, h: Hit, text: Text)
    ensures BlockText(kind, h, text) == Header(kind, h) + text
  {
  }

  // ---------------------------------------------------------------------------
  // One hit
  // ---------------------------------------------------------------------------

  function SectionNeed(sections: seq<SectionLede>): nat {
    if sections == [] then 0 else HeuristicTokens(SectionText(sections[0])) + SectionNeed(sections[1..])
  }

  /** The tokens a hit's full block may take. */
  function Need(kind: Kind, h: Hit): nat {
    HeuristicTokens(BlockText(kind, h, [])) +
    if kind == SectionLedes && h.sections != [] then SectionNeed(h.sections) else HeuristicTokens(Subject(kind, h))
  }

  lemma SectionTextIsBlock(s: SectionLede)
    ensures SectionText(s) == SectionBlock(s)
  {
    assert Literal("\n") == NEWLINE;
  }

  lemma {:induction false} AllSectionsFit(sections: seq<SectionLede>, remaining: int)
    requires SectionNeed(sections) <= remaining
    ensures SectionBlocks(sections, remaining) == SectionTexts(sections)
    ensures |SectionTexts(sections)| <= TokensToChars(SectionNeed(sections))
  {
    if sections != [] {
      SectionTextIsBlock(sections[0]);
      assert SectionText(sections[0]) != [];
      hide SectionText, SectionBlock, SectionTitle, Truncated;
      AllSectionsFit(sections[1..], remaining - HeuristicTokens(SectionText(sections[0])));
    }
  }

  lemma WholeText(text: Text, tokens: nat)
    requires HeuristicTokens(text) <= tokens
    ensures Truncated(text, tokens) == text
  {
    TokensCountChars(text, tokens);
    TruncatedBounds(text, tokens);
    hide Truncated;
  }

  /** With the room it needs, a block shows its text in full. */
  lemma {:induction false} HitInFull(kind: Kind, h: Hit, budget: int)
    requires Need(kind, h) <= budget
    ensures RenderHit(kind, h, budget) == FullBlock(kind, h)
    ensures HeuristicTokens(FullBlock(kind, h)) <= Need(kind, h)
  {
    HeaderShape(kind, h);
    BlockIsHeaderAndText(kind, h, []);
    BlockIsHeaderAndText(kind, h, Subject(kind, h));
    hide Truncated, Header, SectionBlocks, TrimEnd, BlockText, SectionNeed, SectionTexts;
    assert Header(kind, h) + [] == Header(kind, h);
    var remaining := Remaining(kind, h, budget);
    if kind == SectionLedes && h.sections != [] {
      AllSectionsFit(h.sections, remaining);
    } else {
      WholeText(Subject(kind, h), remaining);
    }
    assert Content(kind, h, remaining) == Subject(kind, h);
  }

  /** With less, it shows a beginning of it; section ledes may end in a shortened one. */
  lemma HitShowsABeginning(kind: Kind, h: Hit, budget: int)
    requires budget > 0 && (kind != SectionLedes || h.sections == [])
    ensures exists n | 0 <= n <= |Subject(kind, h)| ::
      RenderHit(kind, h, budget) == TrimEnd(BlockText(kind, h, Subject(kind, h)[..n]))
  {
    var text := Subject(kind, h);
    var t := Truncated(text, Remaining(kind, h, budget));
    TruncatedBounds(text, Remaining(kind, h, budget));
    BlockIsHeaderAndText(kind, h, t);
    hide Truncated, Header, TrimEnd, BlockText, SectionBlocks;
    assert t == text[..|t|];
  }

  /** The sections taken whole, and what is shown of the next one. */
  predicate SectionsShown(sections: seq<SectionLede>, shown: Text, k: nat, cut: Option<nat>) {
    && k <= |sections|
    && match cut
       case None => shown == SectionTexts(sections[..k])
       case Some(n) =>
         && k < |sections| && n <= |sections[k].lede|
         && var title := if sections[k].header.Some? then Literal("### ") + sections[k].header.value else [];
            shown == SectionTexts(sections[..k]) + title + Literal("\n") + sections[k].lede[..n] + Literal("\n")
  }

  lemma WholeSectionShown(sections: seq<SectionLede>, shown: Text, k: nat, cut: Option<nat>)
    requires sections != [] && SectionsShown(sections[1..], shown, k, cut)
    ensures SectionsShown(sections, SectionText(sections[0]) + shown, k + 1, cut)
  {
    hide SectionText;
    assert sections[..k + 1][0] == sections[0] && sections[..k + 1][1..] == sections[1..][..k];
  }

  lemma SqueezedSectionShown(sections: seq<SectionLede>, remaining: int, n: nat)
    requires sections != []
    requires var t := Truncated(sections[0].lede, remaining - HeuristicTokens(SectionTitle(sections[0])) - 2);
      n == |t| && t <= sections[0].lede
    ensures SectionsShown(sections, SqueezedBlock(sections[0], remaining), 0, Some(n))
  {
    hide Truncated, HeuristicTokens;
    assert Literal("\n") == NEWLINE;
    assert sections[..0] == [];
  }

  lemma {:induction false} SectionsShowABeginning(sections: seq<SectionLede>, remaining: int) returns (k: nat, cut: Option<nat>)
    ensures SectionsShown(sections, SectionBlocks(sections, remaining), k, cut)
  {
    hide SectionText, SectionBlock, SectionTitle, SqueezedBlock, Truncated, HeuristicTokens;
    k, cut := 0, None;
    if sections != [] && remaining > 0 {
      var s := sections[0];
      SectionTextIsBlock(s);
      var tokens := HeuristicTokens(SectionBlock(s));
      if tokens <= remaining {
        k, cut := SectionsShowABeginning(sections[1..], remaining - tokens);
        WholeSectionShown(sections, SectionBlocks(sections[1..], remaining - tokens), k, cut);
        k := k + 1;
      } else if remaining > HeuristicTokens(SectionTitle(s)) + 8 {
        var room := remaining - HeuristicTokens(SectionTitle(s)) - 2;
        TruncatedBounds(s.lede, room);
        cut := Some(|Truncated(s.lede, room)|);
        SqueezedSectionShown(sections, remaining, cut.value);
      } else {
        assert sections[..0] == [];
      }
    } else {
      assert sections[..0] == [];
    }
  }

  // ---------------------------------------------------------------------------
  // A tier
  // ---------------------------------------------------------------------------

  function FullBlocks(kind: Kind, hits: seq<Hit>): seq<Text> {
    if hits == [] then [] else [FullBlock(kind, hits[0])] + FullBlocks(kind, hits[1..])
  }

  predicate AllNeed(kind: Kind, hits: seq<Hit>, most: nat) {
    forall i | 0 <= i < |hits| :: Need(kind, hits[i]) <= most
  }

  /** A page with room for every hit takes them all, in order. */
  lemma {:induction false} FillsAll(kind: Kind, hits: seq<Hit>, share: int, budget: int, page: Page, most: nat)
    requires AllNeed(kind, hits, most) && (hits != [] ==> most <= share) && page.used + |hits| * most <= budget
    ensures var filled := Fill(kind, hits, share, budget, page);
      filled.sections == page.sections + FullBlocks(kind, hits) && filled.used <= page.used + |hits| * most
    decreases |hits|
  {
    hide RenderHit, FullBlock, Need;
    if hits == [] {
      assert page.sections + [] == page.sections;
    } else {
      var h := hits[0];
      NeedIsPositive(kind, h);
      var rest := |hits| - 1;
      assert |hits| * most == most + rest * most;
      RestIsRoom(rest, most);
      HitInFull(kind, h, Min(share, budget - page.used));
      var block := FullBlock(kind, h);
      var next := Page(page.sections + [block], page.used + HeuristicTokens(block));
      hide HeuristicTokens;
      FillsAll(kind, hits[1..], share, budget, next, most);
      assert page.sections + [block] + FullBlocks(kind, hits[1..]) == page.sections + FullBlocks(kind, hits);
    }
  }

  lemma NeedIsPositive(kind: Kind, h: Hit)
    ensures Need(kind, h) > 0
  {
    BlockIsHeaderAndText(kind, h, []);
    HeaderShape(kind, h);
    hide Header, BlockText, SectionNeed;
  }

  lemma RestIsRoom(n: nat, most: nat)
    ensures n * most >= 0
  {
  }

  function OutlineLines(lines: seq<Text>): Text {
    if lines == [] then [] else OutlineLines(lines[..|lines| - 1]) + Literal("\n") + lines[|lines| - 1]
  }

  /** Title, path, an empty line, and the outline line by line. */
  function OutlineText(h: Hit): Text {
    Literal("## Outline: ") + h.title + Literal("\n_path: ") + h.path + Literal("_\n") + OutlineLines(h.outline) + Literal("\n")
  }

  lemma {:induction false} JoinedLines(front: seq<Text>, lines: seq<Text>)
    requires front != []
    ensures Join(front + lines) == Join(front) + OutlineLines(lines)
  {
    assert Literal("\n") == NEWLINE;
    if lines == [] {
      assert front + [] == front;
    } else {
      var n := |lines| - 1;
      JoinedLines(front, lines[..n]);
      assert (front + lines)[..|front + lines| - 1] == front + lines[..n];
    }
  }

  lemma OutlineBlockIsText(h: Hit)
    ensures OutlineBlock(h) == OutlineText(h)
  {
    var first := Literal("## Outline: ") + h.title;
    var second := Literal("_path: ") + h.path + Literal("_");
    var front := [first, second, []];
    JoinedLines(front, h.outline);
    assert front[..2][..1] == [first] && Join([first]) == first;
    assert Join(front[..2]) == first + NEWLINE + second;
    assert Join(front) == first + NEWLINE + second + NEWLINE + [];
    hide Join, OutlineLines;
    assert Literal("\n_path: ") == NEWLINE + Literal("_path: ") && Literal("_\n") == Literal("_") + NEWLINE;
    assert Literal("\n") == NEWLINE;
    hide Literal;
    Regrouped(first, NEWLINE, Literal("_path: "), h.path, Literal("_"), OutlineLines(h.outline));
  }

  lemma Regrouped(first: Text, newline: Text, a: Text, path: Text, b: Text, lines: Text)
    ensures first + newline + (a + path + b) + newline + [] + lines + newline
         == first + (newline + a) + path + (b + newline) + lines + newline
  {
  }

  /** The blocks of a tier, in the order of the answer. */
  function Expected(tier: nat, hits: seq<Hit>): seq<Text>
    requires 1 <= tier <= 3
  {
    match tier
    case 1 =>
      (if hits != [] && hits[0].outline != [] then [OutlineText(hits[0])] else []) + FullBlocks(Lede, Slice(hits, 1, 3))
    case 2 => FullBlocks(SectionLedes, Slice(hits, 0, 3)) + FullBlocks(Lede, Slice(hits, 3, 5))
    case 3 => FullBlocks(FullBody, if |hits| > 5 then Slice(hits, 5, 8) else hits)
  }

  /** No block of the tier needs more than so many tokens. */
  predicate AtMostEach(tier: nat, hits: seq<Hit>, most: nat)
    requires 1 <= tier <= 3
  {
    match tier
    case 1 => (hits != [] && hits[0].outline != [] ==> HeuristicTokens(OutlineText(hits[0])) <= most) && AllNeed(Lede, Slice(hits, 1, 3), most)
    case 2 => AllNeed(SectionLedes, Slice(hits, 0, 3), most) && AllNeed(Lede, Slice(hits, 3, 5), most)
    case 3 => AllNeed(FullBody, if |hits| > 5 then Slice(hits, 5, 8) else hits, most)
  }

  /** With ten times the room of its longest block a tier shows every one of its blocks in full. */
  lemma {:induction false} TierInFull(tier: nat, hits: seq<Hit>, budget: nat, most: nat)
    requires 1 <= tier <= 3 && hits != [] && AtMostEach(tier, hits, most) && 0 < 10 * most <= budget
    ensures RenderTier(tier, hits, budget) == Trim(Join(Expected(tier, hits)))
  {
    hide Fill, Trim, Join, OutlineBlock, OutlineText, TopShare, Share, AllNeed, FullBlocks;
    SliceLengths(hits);
    match tier {
      case 1 =>
        var next, page := Slice(hits, 1, 3), OutlinePage(Top(hits), budget);
        OutlineBlockIsText(hits[0]);
        EnoughShare(budget - page.used, |next|, most);
        FillsAll(Lede, next, Share(budget - page.used, |next|), budget, page, most);
        assert Tier1Page(Top(hits), next, budget).sections == Expected(1, hits);
      case 2 =>
        var top, delta := Slice(hits, 0, 3), Slice(hits, 3, 5);
        EnoughTopShare(budget, |top|, most);
        FillsAll(SectionLedes, top, TopShare(budget, |top|), budget, NO_PAGE, most);
        var page := Fill(SectionLedes, top, TopShare(budget, |top|), budget, NO_PAGE);
        EnoughShare(budget - page.used, |delta|, most);
        FillsAll(Lede, delta, Share(budget - page.used, |delta|), budget, page, most);
        assert Tier2Page(top, delta, budget).sections == Expected(2, hits);
      case 3 =>
        var all := Tier3Hits(Slice(hits, 0, 5), Delta(hits, 3));
        Tier3RepeatsExactly(hits);
        EnoughShare(budget, |all|, most);
        FillsAll(FullBody, all, Share(budget, |all|), budget, NO_PAGE, most);
        assert Tier3Page(Slice(hits, 0, 5), Delta(hits, 3), budget).sections == Expected(3, hits);
    }
  }

  /** The first answer shows the block of the top hit in full if there is room for it. */
  lemma Tier0InFull(hits: seq<Hit>, budget: nat)
    requires hits != [] && Need(Lede, hits[0]) <= budget && HeuristicTokens(BlockText(Lede, hits[0], [])) < budget
    ensures RenderTier(0, hits, budget) == Trim(BlockText(Lede, hits[0], hits[0].lede))
  {
    var h := hits[0];
    BlockIsHeaderAndText(Lede, h, []);
    BlockIsHeaderAndText(Lede, h, h.lede);
    hide Truncated, Header, Trim, BlockText;
    assert Header(Lede, h) + [] == Header(Lede, h);
    WholeText(h.lede, budget - HeuristicTokens(Header(Lede, h)));
  }

  lemma EnoughShare(left: int, n: nat, most: nat)
    requires n <= 5 && left >= 5 * most
    ensures n > 0 ==> most <= Share(left, n)
    ensures n * most <= 5 * most
  {
    ProductOrder(n, 5, most);
    if n > 0 {
      assert left / n >= most;
    }
  }

  lemma ProductOrder(m: nat, n: nat, x: nat)
    requires m <= n
    ensures m * x <= n * x
  {
    assert (n - m) * x >= 0;
  }

  lemma EnoughTopShare(budget: nat, n: nat, most: nat)
    requires 0 < n <= 3 && budget >= 10 * most
    ensures most <= TopShare(budget, n) && n * most <= 3 * most
  {
    ProductOrder(n, 3, most);
    var x := budget as real * 0.6 / n as real;
    assert x * n as real == budget as real * 0.6;
    assert n == 1 || n == 2 || n == 3;
    assert x >= most as real;
  }
}
