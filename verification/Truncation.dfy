/** Token budgets at four code units a token, and truncation to a budget. */
module Truncation {
  import opened CodeUnits
  import opened Prelude
  import opened TextTools

  const CHARS_PER_TOKEN := 4

  function TokensToChars(tokens: int): nat {
    if tokens <= 0 then 0 else tokens * CHARS_PER_TOKEN
  }

  /** Rounded up. */
  function CharsToTokens(chars: nat): nat {
    (chars + CHARS_PER_TOKEN - 1) / CHARS_PER_TOKEN
  }

  function HeuristicTokens(text: Text): nat {
    CharsToTokens(|text|)
  }

  /** A text fits a number of tokens exactly when it fits their code units. */
  lemma TokensCountChars(text: Text, tokens: nat)
    ensures HeuristicTokens(text) <= tokens <==> |text| <= TokensToChars(tokens)
  {
  }

  predicate Terminator(u: Unit) {
    u == 0x2E || u == 0x21 || u == 0x3F
  }

  predicate SentenceEnd(text: Text, i: nat) {
    i < |text| && Terminator(text[i]) && (i + 1 < |text| ==> IsSpace(text[i + 1]))
  }

  predicate SpaceAt(text: Text, i: nat) {
    i < |text| && IsSpace(text[i])
  }

  /** The last place in a range that satisfies a test. */
  predicate IsLast(text: Text, test: (Text, nat) -> bool, lo: nat, hi: nat, found: Option<nat>) {
    match found
    case None => forall i | lo <= i < hi :: !test(text, i)
    case Some(k) => lo <= k < hi && test(text, k) && forall i | k < i < hi :: !test(text, i)
  }

  /** The scan back covers the last 30 percent of the budget. */
  function WindowStart(maxChars: nat): (start: nat)
    ensures start <= maxChars
  {
    var lookBack := (maxChars as real * 0.3).Floor;
    assert 0.0 <= maxChars as real * 0.3 <= maxChars as real;
    maxChars - lookBack
  }

  function Cut(text: Text, maxChars: nat, sentence: Option<nat>, space: Option<nat>): Text
    requires maxChars <= |text|
    requires sentence.Some? ==> sentence.value < maxChars
    requires space.Some? ==> space.value < maxChars
  {
    match sentence
    case Some(i) => text[..i + 1]
    case None =>
      match space
      case Some(i) => TrimEnd(text[..i])
      case None => text[..maxChars]
  }

  function FindLast(text: Text, test: (Text, nat) -> bool, lo: nat, hi: nat): (found: Option<nat>)
    ensures IsLast(text, test, lo, hi, found)
    decreases hi
  {
    if hi <= lo then None
    else if test(text, hi - 1) then Some(hi - 1)
    else FindLast(text, test, lo, hi - 1)
  }

  /**
   * A text that fits is kept. Otherwise it is cut after the last sentence end of the
   * window; failing that before its last whitespace; failing that at the budget.
   */
  function Truncated(text: Text, maxTokens: int): Text {
    var maxChars := TokensToChars(maxTokens);
    if maxTokens <= 0 then []
    else if |text| <= maxChars then text
    else
      Cut(text, maxChars,
          FindLast(text, SentenceEnd, WindowStart(maxChars), maxChars),
          FindLast(text, SpaceAt, WindowStart(maxChars), maxChars))
  }

  /** The result is a beginning of the text within the budget, and all of it exactly when it fits. */
  lemma TruncatedBounds(text: Text, maxTokens: int)
    ensures Truncated(text, maxTokens) <= text
    ensures |Truncated(text, maxTokens)| <= TokensToChars(maxTokens)
    ensures Truncated(text, maxTokens) == text <==> |text| <= TokensToChars(maxTokens)
  {
    hide FindLast, WindowStart;
  }

  /**
   * A cut falls inside a sentence only if none ends in the window, the last 30 percent of
   * the budget, and inside a word only if the window has no whitespace either. Of several
   * places it takes the last.
   */
  lemma CutsPreferBoundaries(text: Text, maxTokens: int)
    requires maxTokens > 0 && |text| > TokensToChars(maxTokens)
    ensures var r, hi := Truncated(text, maxTokens), TokensToChars(maxTokens);
            var lo := hi - 3 * hi / 10;
            && ((exists i | lo <= i < hi :: SentenceEnd(text, i)) ==>
                  r != [] && SentenceEnd(text, |r| - 1) && forall i | |r| <= i < hi :: !SentenceEnd(text, i))
            && (!(exists i | lo <= i < hi :: SentenceEnd(text, i)) && (exists i | lo <= i < hi :: SpaceAt(text, i)) ==>
                  && |r| < hi && SpaceAt(text, |r|) && (r == [] || !IsSpace(r[|r| - 1]))
                  && forall i, j | |r| <= i < j < hi && lo <= j && SpaceAt(text, j) :: SpaceAt(text, i))
            && (!(exists i | lo <= i < hi :: SentenceEnd(text, i)) && !(exists i | lo <= i < hi :: SpaceAt(text, i)) ==>
                  |r| == hi)
  {
    var hi := TokensToChars(maxTokens);
    WindowIsThirtyPercent(hi);
    hide FindLast, WindowStart, TrimEnd;
    var space := FindLast(text, SpaceAt, WindowStart(hi), hi);
    if space.Some? {
      TrimmedBefore(text, space.value);
    }
  }

  lemma WindowIsThirtyPercent(maxChars: nat)
    ensures WindowStart(maxChars) == maxChars - 3 * maxChars / 10
  {
    var x := maxChars as real * 0.3;
    var q := 3 * maxChars / 10;
    assert 10.0 * x == (3 * maxChars) as real;
    assert 10 * q <= 3 * maxChars < 10 * (q + 1);
    assert q as real <= x < (q + 1) as real;
  }

  lemma TrimmedBefore(text: Text, i: nat)
    requires SpaceAt(text, i)
    ensures var r := TrimEnd(text[..i]);
            && |r| <= i && SpaceAt(text, |r|) && (r == [] || !IsSpace(r[|r| - 1]))
            && forall k | |r| <= k <= i :: SpaceAt(text, k)
  {
    hide IsSpace;
    var r := TrimEnd(text[..i]);
    forall k | |r| <= k < i ensures SpaceAt(text, k) {
      TrimEndDrops(text[..i], k);
    }
    if |r| < i {
      TrimEndDrops(text[..i], |r|);
    }
  }

  method TruncateToTokenBudget(text: Text, maxTokens: int) returns (r: Text)
    ensures r == Truncated(text, maxTokens)
  {
    hide WindowStart, SentenceEnd, SpaceAt;
    if maxTokens <= 0 || |text| == 0 {
      assert |text| == 0 ==> text == [];
      return [];
    }
    var maxChars := TokensToChars(maxTokens);
    if |text| <= maxChars {
      return text;
    }
    var slice := text[..maxChars];
    var minIdx := WindowStart(maxChars);
    var i := |slice|;
    while i > minIdx
      invariant minIdx <= i <= maxChars
      invariant FindLast(text, SentenceEnd, minIdx, maxChars) == FindLast(text, SentenceEnd, minIdx, i)
    {
      i := i - 1;
      if SentenceEnd(text, i) {
        assert slice[..i + 1] == text[..i + 1];
        return slice[..i + 1];
      }
    }
    i := |slice|;
    while i > minIdx
      invariant minIdx <= i <= maxChars
      invariant FindLast(text, SpaceAt, minIdx, maxChars) == FindLast(text, SpaceAt, minIdx, i)
    {
      i := i - 1;
      if SpaceAt(text, i) {
        assert slice[..i] == text[..i];
        return TrimEnd(slice[..i]);
      }
    }
    return slice;
  }
}
