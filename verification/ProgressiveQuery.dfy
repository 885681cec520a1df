/**
 * The progressive query conversation: one first answer and any number of expansions,
 * through a cache of continuations with a time to live and a size limit.
 */
module ProgressiveQuery {
  import opened CodeUnits
  import opened Prelude
  import opened Truncation
  import opened ProgressiveRender

  type Token = Text

  const MAX_TIER := 3

  /** A missing, non-finite or non-positive request falls back; the rest is rounded down. */
  function ClampPositive(value: Option<real>, fallback: nat): nat {
    if value.None? || value.value <= 0.0 then fallback else value.value.Floor
  }

  // ---------------------------------------------------------------------------
  // A conversation as a function of its requests
  // ---------------------------------------------------------------------------

  /** What is kept between answers. */
  datatype Entry = Entry(hits: seq<Hit>, lastTierServed: nat, tokensShipped: nat, maxTokensTotal: nat)

  datatype ExpandError = UnknownToken | NoFurtherTiers | BudgetExhausted

  function Budget(e: Entry, additional: Option<real>): int {
    Min(ClampPositive(additional, 1024), Max(0, e.maxTokensTotal - e.tokensShipped))
  }

  function Expanded(e: Entry, additional: Option<real>): Result<Text, ExpandError> {
    if e.lastTierServed >= MAX_TIER then Err(NoFurtherTiers)
    else if Budget(e, additional) <= 0 then Err(BudgetExhausted)
    else Ok(RenderTier(e.lastTierServed + 1, e.hits, Budget(e, additional)))
  }

  /**
   * An expansion is granted exactly while there is a tier to come and a token left for a
   * request that amounts to one; the budget is then the smaller of the two.
   */
  lemma GrantedExactly(e: Entry, request: Option<real>)
    ensures Expanded(e, request).Ok? <==>
      && e.lastTierServed < 3 && e.tokensShipped < e.maxTokensTotal
      && (request.None? || request.value <= 0.0 || request.value >= 1.0)
    ensures Expanded(e, request) == Err(NoFurtherTiers) <==> e.lastTierServed >= 3
    ensures var asked := ClampPositive(request, 1024);
      && (request.Some? && request.value > 0.0 ==> asked as real <= request.value < asked as real + 1.0)
      && (request.None? || request.value <= 0.0 ==> asked == 1024)
    ensures Expanded(e, request).Ok? ==>
      var asked, left := ClampPositive(request, 1024), e.maxTokensTotal - e.tokensShipped;
      Expanded(e, request).value == RenderTier(e.lastTierServed + 1, e.hits, if asked <= left then asked else left)
  {
    hide RenderTier;
  }

  function AfterExpand(e: Entry, additional: Option<real>): Entry {
    match Expanded(e, additional)
    case Err(_) => e
    case Ok(content) =>
      e.(lastTierServed := e.lastTierServed + 1, tokensShipped := e.tokensShipped + HeuristicTokens(content))
  }

  function FirstBudget(maxInitial: Option<real>, maxTotal: Option<real>): nat {
    Min(ClampPositive(maxInitial, 512), ClampPositive(maxTotal, 8192))
  }

  function FirstAnswer(hits: seq<Hit>, maxInitial: Option<real>, maxTotal: Option<real>): Text {
    RenderTier(0, hits, FirstBudget(maxInitial, maxTotal))
  }

  function FirstEntry(hits: seq<Hit>, maxInitial: Option<real>, maxTotal: Option<real>): Entry {
    Entry(hits, 0, HeuristicTokens(FirstAnswer(hits, maxInitial, maxTotal)), ClampPositive(maxTotal, 8192))
  }

  function Conversation(e: Entry, requests: seq<Option<real>>): Entry {
    if requests == [] then e
    else AfterExpand(Conversation(e, requests[..|requests| - 1]), requests[|requests| - 1])
  }

  /** The answers an entry gave to a sequence of requests. */
  function Contents(e: Entry, requests: seq<Option<real>>): seq<Text> {
    if requests == [] then []
    else
      var before := Conversation(e, requests[..|requests| - 1]);
      Contents(e, requests[..|requests| - 1]) +
      match Expanded(before, requests[|requests| - 1]) case Ok(content) => [content] case Err(_) => []
  }

  function TotalTokens(contents: seq<Text>): nat {
    if contents == [] then 0
    else TotalTokens(contents[..|contents| - 1]) + HeuristicTokens(contents[|contents| - 1])
  }

  predicate EntryOk(e: Entry) {
    e.lastTierServed <= MAX_TIER && e.tokensShipped <= e.maxTokensTotal + 1
  }

  lemma {:induction false} ExpandKeepsEntryOk(e: Entry, additional: Option<real>)
    requires EntryOk(e)
    ensures EntryOk(AfterExpand(e, additional))
    ensures Expanded(e, additional).Ok? ==> e.tokensShipped < e.maxTokensTotal
  {
    hide RenderTier, HeuristicTokens;
    var budget := Budget(e, additional);
    if e.lastTierServed < MAX_TIER && budget > 0 {
      TierBound(e.lastTierServed + 1, e.hits, budget);
    }
  }

  lemma FirstEntryOk(hits: seq<Hit>, maxInitial: Option<real>, maxTotal: Option<real>)
    ensures EntryOk(FirstEntry(hits, maxInitial, maxTotal))
    ensures FirstEntry(hits, maxInitial, maxTotal).tokensShipped <= FirstBudget(maxInitial, maxTotal)
  {
    hide RenderTier, HeuristicTokens;
    Tier0Bound(hits, FirstBudget(maxInitial, maxTotal));
  }

  /**
   * However a client expands, all the answers together are at most one token over the
   * total it may consume, and the tokens shipped are exactly those of the answers.
   */
  lemma {:induction false} ConversationBound(
    hits: seq<Hit>, maxInitial: Option<real>, maxTotal: Option<real>, requests: seq<Option<real>>)
    ensures var first := FirstEntry(hits, maxInitial, maxTotal);
            var last := Conversation(first, requests);
            && EntryOk(last) && last.hits == hits && last.maxTokensTotal == ClampPositive(maxTotal, 8192)
            && last.tokensShipped == TotalTokens([FirstAnswer(hits, maxInitial, maxTotal)] + Contents(first, requests))
            && last.tokensShipped <= ClampPositive(maxTotal, 8192) + 1
            && last.lastTierServed == |Contents(first, requests)|
  {
    hide RenderTier, HeuristicTokens, ClampPositive, FirstAnswer;
    var first := FirstEntry(hits, maxInitial, maxTotal);
    var answer := FirstAnswer(hits, maxInitial, maxTotal);
    if requests == [] {
      FirstEntryOk(hits, maxInitial, maxTotal);
      var none: seq<Text> := [];
      assert [answer][..0] == none && [answer] + none == [answer];
    } else {
      var front, request := requests[..|requests| - 1], requests[|requests| - 1];
      ConversationBound(hits, maxInitial, maxTotal, front);
      var before := Conversation(first, front);
      ExpandKeepsEntryOk(before, request);
      var contents, contents' := [answer] + Contents(first, front), [answer] + Contents(first, requests);
      if Expanded(before, request).Ok? {
        assert contents' == contents + [Expanded(before, request).value];
        assert contents'[..|contents|] == contents;
      } else {
        assert contents' == contents;
      }
    }
  }

  /** No answer is given twice: once the last tier is out, every request is refused. */
  lemma {:induction false} AtMostThreeExpansions(e: Entry, requests: seq<Option<real>>)
    requires EntryOk(e)
    ensures EntryOk(Conversation(e, requests))
    ensures e.lastTierServed + |Contents(e, requests)| == Conversation(e, requests).lastTierServed <= MAX_TIER
  {
    hide RenderTier, HeuristicTokens, ClampPositive;
    if requests != [] {
      var front := requests[..|requests| - 1];
      AtMostThreeExpansions(e, front);
      ExpandKeepsEntryOk(Conversation(e, front), requests[|requests| - 1]);
    }
  }

  // ---------------------------------------------------------------------------
  // When the cap on a conversation holds
  // ---------------------------------------------------------------------------

  function Left(e: Entry): int {
    e.maxTokensTotal - e.tokensShipped
  }

  /** A request that cannot break the cap, whatever the hits hold. */
  predicate AsksWithin(left: int, request: Option<real>) {
    left < 14 || ClampPositive(request, 1024) < left
  }

  /** Every expansion that is granted asks so. */
  predicate AllAskWithin(e: Entry, requests: seq<Option<real>>) {
    requests == [] ||
    var before, request := Conversation(e, requests[..|requests| - 1]), requests[|requests| - 1];
    && AllAskWithin(e, requests[..|requests| - 1])
    && (Expanded(before, request).Ok? ==> AsksWithin(Left(before), request))
  }

  lemma {:induction false} AskingWithinKeepsTheCap(e: Entry, requests: seq<Option<real>>)
    requires AllFormatted(e.hits)
    requires e.lastTierServed <= MAX_TIER && e.tokensShipped <= e.maxTokensTotal && AllAskWithin(e, requests)
    ensures var last := Conversation(e, requests);
      && last.lastTierServed <= MAX_TIER && last.tokensShipped <= last.maxTokensTotal == e.maxTokensTotal
      && last.hits == e.hits
  {
    hide RenderTier, HeuristicTokens, ClampPositive, Formatted;
    if requests != [] {
      var front, request := requests[..|requests| - 1], requests[|requests| - 1];
      AskingWithinKeepsTheCap(e, front);
      var before := Conversation(e, front);
      if Expanded(before, request).Ok? {
        OneExpansionKeepsTheCap(before, request);
      }
    }
  }

  lemma {:induction false} OneExpansionKeepsTheCap(e: Entry, request: Option<real>)
    requires AllFormatted(e.hits) && e.tokensShipped <= e.maxTokensTotal
    requires Expanded(e, request).Ok? ==> AsksWithin(Left(e), request)
    ensures AfterExpand(e, request).tokensShipped <= e.maxTokensTotal
  {
    hide RenderTier, HeuristicTokens, ClampPositive, Formatted;
    var budget := Budget(e, request);
    if Expanded(e, request).Ok? {
      TierBound(e.lastTierServed + 1, e.hits, budget);
      if budget < 14 {
        SmallTierHolds(e.lastTierServed + 1, e.hits, budget);
      }
    }
  }

  /** Whatever the hits, the next expansion keeps a conversation within its cap. */
  ghost predicate Safe(lastTierServed: nat, shipped: nat, left: nat, request: Option<real>) {
    forall hits :: AllFormatted(hits) ==> StaysWithin(hits, lastTierServed, shipped, left, request)
  }

  predicate StaysWithin(hits: seq<Hit>, lastTierServed: nat, shipped: nat, left: nat, request: Option<real>) {
    AfterExpand(Entry(hits, lastTierServed, shipped, shipped + left), request).tokensShipped <= shipped + left
  }

  /**
   * The first, the second and the third expansion alike are safe for all hits exactly
   * when they ask for less than what is left, or fewer than 14 tokens are left.
   */
  lemma {:induction false} SafeExactly(lastTierServed: nat, shipped: nat, left: nat, request: Option<real>)
    requires lastTierServed < MAX_TIER
    ensures Safe(lastTierServed, shipped, left, request) <==> left < 14 || ClampPositive(request, 1024) < left
  {
    hide RenderTier, HeuristicTokens, ClampPositive, AllFormatted;
    if AsksWithin(left, request) {
      forall hits | AllFormatted(hits) ensures StaysWithin(hits, lastTierServed, shipped, left, request) {
        OneExpansionKeepsTheCap(Entry(hits, lastTierServed, shipped, shipped + left), request);
      }
    } else {
      var hits := Overrunning(lastTierServed + 1, left);
      hide Overrunning;
      var e := Entry(hits, lastTierServed, shipped, shipped + left);
      assert Budget(e, request) == left;
      TierOverruns(lastTierServed + 1, left);
      assert AfterExpand(e, request).tokensShipped == shipped + left + 1;
      assert !StaysWithin(hits, lastTierServed, shipped, left, request);
    }
  }

  /** A first answer of 8 tokens and one default expansion ship 23 tokens under a cap of 22. */
  lemma {:induction false} CapIsExceeded()
    ensures var first := FirstEntry(Overrunning(1, 14), Some(8.0), Some(22.0));
      first.maxTokensTotal == 22 && Conversation(first, [None]).tokensShipped == 23
  {
    hide RenderTier, HeuristicTokens, Overrunning;
    var hits := Overrunning(1, 14);
    ShortFirstAnswer();
    var first := FirstEntry(hits, Some(8.0), Some(22.0));
    assert first == Entry(hits, 0, 8, 22);
    TierOverruns(1, 14);
    var requests: seq<Option<real>> := [None];
    assert requests[..0] == [] && Conversation(first, []) == first;
    assert Conversation(first, requests) == AfterExpand(first, None);
    assert Budget(first, None) == 14;
  }

  lemma ShortFirstAnswer()
    ensures HeuristicTokens(RenderTier(0, Overrunning(1, 14), 8)) == 8
  {
    hide Truncated, Header;
    HeaderShape(Lede, ShortOne());
    TruncatedBounds(Header(Lede, ShortOne()), 8);
  }

  // ---------------------------------------------------------------------------
  // Entries and the cache, updated in place
  // ---------------------------------------------------------------------------

  class ProgressiveEntry {
    const hits: seq<Hit>
    const maxTokensTotal: nat
    var lastTierServed: nat
    var tokensShippedSoFar: nat
    var lastAccessMs: int

    constructor (e: Entry, now: int)
      ensures Model() == e && lastAccessMs == now
    {
      hits := e.hits;
      maxTokensTotal := e.maxTokensTotal;
      lastTierServed := e.lastTierServed;
      tokensShippedSoFar := e.tokensShipped;
      lastAccessMs := now;
    }

    function Model(): Entry
      reads this
    {
      Entry(hits, lastTierServed, tokensShippedSoFar, maxTokensTotal)
    }
  }

  ghost predicate OwnEntries(entries: map<Token, ProgressiveEntry>) {
    forall s, t | s in entries && t in entries && s != t :: entries[s] != entries[t]
  }

  lemma FewerOwnEntries(entries: map<Token, ProgressiveEntry>, gone: set<Token>)
    requires OwnEntries(entries)
    ensures OwnEntries(entries - gone)
  {
  }

  lemma MoreOwnEntries(entries: map<Token, ProgressiveEntry>, token: Token, entry: ProgressiveEntry)
    requires OwnEntries(entries) && entry !in entries.Values
    ensures OwnEntries(entries[token := entry])
  {
  }

  class ProgressiveCache {
    const ttlMs: nat
    const maxEntries: nat
    var entries: map<Token, ProgressiveEntry>

    /** Each continuation has an entry of its own. */
    ghost predicate Valid()
      reads this
    {
      OwnEntries(entries)
    }

    constructor (ttlMs: nat, maxEntries: nat)
      ensures this.ttlMs == ttlMs && this.maxEntries == maxEntries && entries == map[] && Valid()
    {
      this.ttlMs := ttlMs;
      this.maxEntries := maxEntries;
      entries := map[];
    }

    predicate Live(token: Token, now: int)
      reads this, entries.Values
    {
      token in entries && now - entries[token].lastAccessMs <= ttlMs
    }

    function Stamps(): (stamps: map<Token, int>)
      reads this, entries.Values
      ensures stamps.Keys == entries.Keys
    {
      map t | t in entries :: entries[t].lastAccessMs
    }

    /** The entries idle for longer than the time to live. */
    ghost function Stale(now: int): set<Token>
      reads this, entries.Values
    {
      set t | t in entries && entries[t].lastAccessMs < now - ttlMs
    }

    method EvictExpired(now: int)
      requires Valid()
      modifies this`entries
      ensures Valid()
      ensures entries == old(entries) - old(Stale(now))
    {
      hide OwnEntries;
      var keys := entries.Keys;
      ghost var before := entries;
      ghost var stale := Stale(now);
      ghost var gone: set<Token> := {};
      while keys != {}
        invariant keys <= before.Keys && gone == stale - keys
        invariant entries == before - gone
        decreases keys
      {
        var key :| key in keys;
        if entries[key].lastAccessMs < now - ttlMs {
          entries := entries - {key};
          gone := gone + {key};
        }
        keys := keys - {key};
      }
      assert gone == stale;
      FewerOwnEntries(before, stale);
    }

    /** Drops one entry that was accessed no later than any other. */
    method EvictLru() returns (evicted: Option<Token>)
      requires Valid()
      modifies this`entries
      ensures Valid()
      ensures old(entries) == map[] ==> evicted == None && entries == old(entries)
      ensures old(entries) != map[] ==>
                && evicted.Some? && evicted.value in old(entries)
                && entries == old(entries) - {evicted.value}
                && forall t | t in old(entries) :: old(Stamps())[evicted.value] <= old(Stamps())[t]
    {
      hide OwnEntries;
      evicted := None;
      ghost var stamps := Stamps();
      var keys := entries.Keys;
      while keys != {}
        invariant keys <= entries.Keys
        invariant evicted.None? ==> keys == entries.Keys
        invariant evicted.Some? ==> evicted.value in entries
        invariant evicted.Some? ==> forall t | t in stamps && t !in keys :: stamps[evicted.value] <= stamps[t]
        decreases keys
      {
        var key :| key in keys;
        if evicted.None? || entries[key].lastAccessMs < entries[evicted.value].lastAccessMs {
          evicted := Some(key);
        }
        keys := keys - {key};
      }
      assert evicted.None? ==> entries == map[];
      if evicted.Some? {
        FewerOwnEntries(entries, {evicted.value});
        entries := entries - {evicted.value};
      }
    }

    /**
     * The entries that make way for a new one: the stale ones, and, if that leaves the
     * cache full, one that was accessed no later than any other that is left.
     */
    ghost predicate MakesWay(gone: set<Token>, now: int)
      reads this, entries.Values
    {
      var stale := Stale(now);
      var left := entries.Keys - stale;
      if |left| < maxEntries || left == {} then gone == stale
      else exists lru | lru in left ::
        gone == stale + {lru} && forall t | t in left :: Stamps()[lru] <= Stamps()[t]
    }

    /** `token` is the UUID drawn for the continuation. */
    method Put(token: Token, e: Entry, now: int) returns (ghost gone: set<Token>)
      requires Valid() && token !in entries
      modifies this`entries
      ensures Valid()
      ensures old(MakesWay(gone, now))
      ensures token in entries && fresh(entries[token]) && entries[token].Model() == e && entries[token].lastAccessMs == now
      ensures entries == (old(entries) - gone)[token := entries[token]]
      ensures maxEntries > 0 && |old(entries)| <= maxEntries ==> |entries| <= maxEntries
    {
      hide OwnEntries, MakesWay;
      gone := MakeRoom(now);
      var entry := new ProgressiveEntry(e, now);
      ghost var before := entries;
      MoreOwnEntries(before, token, entry);
      entries := entries[token := entry];
      assert entries.Keys == before.Keys + {token};
    }

    method MakeRoom(now: int) returns (ghost gone: set<Token>)
      requires Valid()
      modifies this`entries
      ensures Valid()
      ensures old(MakesWay(gone, now)) && entries == old(entries) - gone
      ensures maxEntries > 0 && |old(entries)| <= maxEntries ==> |entries| < maxEntries
    {
      hide OwnEntries;
      gone := Stale(now);
      EvictExpired(now);
      assert entries.Keys == old(entries).Keys - gone;
      assert |entries.Keys| == |entries|;
      SubsetSize(entries.Keys, old(entries).Keys);
      if |entries| >= maxEntries {
        ghost var before := entries;
        var evicted := EvictLru();
        assert before == map[] <==> before.Keys == {};
        if before != map[] {
          assert entries.Keys == before.Keys - {evicted.value};
          gone := gone + {evicted.value};
          assert entries == old(entries) - gone;
        }
      }
    }

    /** Touches the entry it finds; an expired one is dropped. */
    method Get(token: Token, now: int) returns (entry: ProgressiveEntry?)
      requires Valid()
      modifies this`entries, entries.Values`lastAccessMs
      ensures Valid()
      ensures entry != null <==> old(Live(token, now))
      ensures entry != null ==> entries == old(entries) && entry == entries[token] && entry.lastAccessMs == now
      ensures entry == null ==> entries == old(entries) - {token}
      ensures forall e | e in old(entries.Values) && e != entry :: e.lastAccessMs == old(e.lastAccessMs)
    {
      if token !in entries {
        return null;
      }
      if now - entries[token].lastAccessMs > ttlMs {
        entries := entries - {token};
        return null;
      }
      entry := entries[token];
      entry.lastAccessMs := now;
    }
  }

  lemma SubsetSize(a: set<Token>, b: set<Token>)
    requires a <= b
    ensures |a| <= |b|
  {
    assert b == a + (b - a);
  }

  /** What is said instead of an answer; it is not held to any budget. */
  function Apology(indexEmpty: bool): Text {
    if indexEmpty then Literal("_search index is empty \U{2014} rebuild required_") else Literal("_no matching pages_")
  }

  /**
   * The first answer. `indexEmpty` is the case of an empty index over a store that has
   * pages. An answer from hits leaves a continuation in the cache.
   */
  method Query(cache: ProgressiveCache, token: Token, indexEmpty: bool, hits: seq<Hit>,
               maxInitial: Option<real>, maxTotal: Option<real>, now: int)
    returns (content: Text, continuation: Option<Token>, ghost gone: set<Token>)
    requires cache.Valid() && token !in cache.entries
    modifies cache`entries
    ensures cache.Valid()
    ensures indexEmpty || hits == [] ==>
              content == Apology(indexEmpty) && continuation == None && cache.entries == old(cache.entries)
    ensures !indexEmpty && hits != [] ==>
              && content == FirstAnswer(hits, maxInitial, maxTotal)
              && old(cache.MakesWay(gone, now))
              && token in cache.entries
              && cache.entries == (old(cache.entries) - gone)[token := cache.entries[token]]
              && continuation == (if HeuristicTokens(content) < ClampPositive(maxTotal, 8192) && |hits| > 1
                                  then Some(token) else None)
              && HeuristicTokens(content) <= FirstBudget(maxInitial, maxTotal)
              && cache.entries[token].Model() == FirstEntry(hits, maxInitial, maxTotal)
  {
    hide RenderTier, HeuristicTokens, Apology;
    if indexEmpty || hits == [] {
      return Apology(indexEmpty), None, {};
    }
    content := Render(0, hits, FirstBudget(maxInitial, maxTotal));
    Tier0Bound(hits, FirstBudget(maxInitial, maxTotal));
    gone := cache.Put(token, FirstEntry(hits, maxInitial, maxTotal), now);
    var tokens := HeuristicTokens(content);
    var hasMore := ClampPositive(maxTotal, 8192) - tokens > 0 && |hits| > 1;
    continuation := if hasMore then Some(token) else None;
  }

  /** One expansion; the clock is read once for the whole call. */
  method Expand(cache: ProgressiveCache, token: Token, additional: Option<real>, now: int)
    returns (r: Result<Text, ExpandError>)
    requires cache.Valid()
    modifies cache`entries, cache.entries.Values
    ensures cache.Valid()
    ensures !old(cache.Live(token, now)) ==> r == Err(UnknownToken) && cache.entries == old(cache.entries) - {token}
    ensures old(cache.Live(token, now)) ==>
              && cache.entries == old(cache.entries)
              && r == Expanded(old(cache.entries[token].Model()), additional)
              && cache.entries[token].Model() == AfterExpand(old(cache.entries[token].Model()), additional)
    ensures forall e | e in old(cache.entries.Values) && (token !in old(cache.entries) || e != old(cache.entries)[token]) ::
              e.Model() == old(e.Model())
  {
    hide RenderTier, HeuristicTokens;
    var entry := cache.Get(token, now);
    if entry == null {
      return Err(UnknownToken);
    }
    if entry.lastTierServed >= MAX_TIER {
      return Err(NoFurtherTiers);
    }
    var budget := Budget(entry.Model(), additional);
    if budget <= 0 {
      return Err(BudgetExhausted);
    }
    var nextTier := entry.lastTierServed + 1;
    var content := Render(nextTier, entry.hits, budget);
    var tokens := HeuristicTokens(content);
    var again := cache.Get(token, now);
    if again != null {
      again.lastTierServed := nextTier;
      again.tokensShippedSoFar := again.tokensShippedSoFar + tokens;
      again.lastAccessMs := now;
    }
    return Ok(content);
  }
}
