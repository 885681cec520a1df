/**
 * JSON values and their text: what JSON.stringify prints, a reader for the grammar of
 * RFC 8259 that allows no white space between tokens, and the proof that the reader
 * gives back what was printed, members in their order, wherever the text ends.
 */
module JsonText {
  import opened CodeUnits
  import opened Prelude

  /**
   * A JSON-serializable JavaScript value. A finite number is carried as the text
   * Number::toString gives it, with no sign on zero; NaN and the infinities are NonFinite
   * (parsing 1e999 gives one). An object is its list of own properties in enumeration order.
   */
  datatype Json =
    | Null
    | Bool(b: bool)
    | Num(text: Text)
    | NonFinite(name: Text)
    | Str(s: Text)
    | Arr(items: seq<Json>)
    | Obj(fields: seq<Field>)

  datatype Field = Field(key: Text, value: Json)

  /** What a value is apart from the order in which objects enumerate their members. */
  datatype Value =
    | VNull
    | VBool(b: bool)
    | VNum(text: Text)
    | VNonFinite(name: Text)
    | VStr(s: Text)
    | VArr(items: seq<Value>)
    | VObj(fields: map<Text, Value>)

  const QUOTE: Unit := '"' as int
  const BACKSLASH: Unit := '\\' as int
  const COMMA: Unit := ',' as int
  const COLON: Unit := ':' as int
  const LBRACKET: Unit := '[' as int
  const RBRACKET: Unit := ']' as int
  const LBRACE: Unit := '{' as int
  const RBRACE: Unit := '}' as int
  const ZERO: Unit := '0' as int
  const NINE: Unit := '9' as int

  // ---------------------------------------------------------------------------
  // Numbers, as section 6 of RFC 8259 has them
  // ---------------------------------------------------------------------------

  predicate Digit(u: Unit) {
    '0' as int <= u <= '9' as int
  }

  predicate Digits(t: Text) {
    forall i | 0 <= i < |t| :: Digit(t[i])
  }

  function DecimalValue(t: Text): nat
    requires Digits(t)
  {
    if t == [] then 0 else 10 * DecimalValue(t[..|t| - 1]) + (t[|t| - 1] - '0' as int)
  }

  /** Where the digits from position i on end. */
  function DigitsEnd(t: Text, i: nat): (r: nat)
    requires i <= |t|
    ensures i <= r <= |t|
    decreases |t| - i
  {
    if i < |t| && Digit(t[i]) then DigitsEnd(t, i + 1) else i
  }

  /** A zero, or digits that do not start with one; 0 if there is neither. */
  function IntegerEnd(t: Text, i: nat): (r: nat)
    requires i <= |t|
    ensures r <= |t|
  {
    if i < |t| && t[i] == '0' as int then i + 1
    else if i < |t| && Digit(t[i]) then DigitsEnd(t, i)
    else 0
  }

  /** Past a point and digits, if there are any at position i. */
  function FractionEnd(t: Text, i: nat): (r: nat)
    requires i <= |t|
    ensures i <= r <= |t|
  {
    if i + 1 < |t| && t[i] == '.' as int && Digit(t[i + 1]) then DigitsEnd(t, i + 1) else i
  }

  /** Past an exponent, if there is one at position i. */
  function ExponentEnd(t: Text, i: nat): (r: nat)
    requires i <= |t|
    ensures i <= r <= |t|
  {
    if i < |t| && (t[i] == 'e' as int || t[i] == 'E' as int) then
      var j := if i + 1 < |t| && (t[i + 1] == '+' as int || t[i + 1] == '-' as int) then i + 2 else i + 1;
      if j < |t| && Digit(t[j]) then DigitsEnd(t, j) else i
    else i
  }

  /** The length of the longest number a text begins with; 0 if it begins with none. */
  function NumberEnd(t: Text): (r: nat)
    ensures r <= |t|
  {
    var i := IntegerEnd(t, if t != [] && t[0] == '-' as int then 1 else 0);
    if i == 0 then 0 else ExponentEnd(t, FractionEnd(t, i))
  }

  predicate NumberText(t: Text) {
    t != [] && NumberEnd(t) == |t|
  }

  function KeySet(fs: seq<Field>): set<Text> {
    if fs == [] then {} else KeySet(fs[1..]) + {fs[0].key}
  }

  predicate WellFormed(v: Json) {
    match v
    case Num(t) => NumberText(t)
    case Arr(items) => WellFormedItems(items)
    case Obj(fs) => WellFormedFields(fs)
    case _ => true
  }

  predicate WellFormedItems(items: seq<Json>) {
    items == [] || (WellFormed(items[0]) && WellFormedItems(items[1..]))
  }

  /** Values well formed and keys distinct. */
  predicate WellFormedFields(fs: seq<Field>) {
    fs == [] || (WellFormed(fs[0].value) && fs[0].key !in KeySet(fs[1..]) && WellFormedFields(fs[1..]))
  }

  // ---------------------------------------------------------------------------
  // Meaning
  // ---------------------------------------------------------------------------

  function Meaning(v: Json): Value {
    match v
    case Null => VNull
    case NonFinite(t) => VNonFinite(t)
    case Bool(b) => VBool(b)
    case Num(t) => VNum(t)
    case Str(s) => VStr(s)
    case Arr(items) => VArr(MeaningItems(items))
    case Obj(fs) => VObj(MeaningFields(fs))
  }

  function MeaningItems(items: seq<Json>): seq<Value> {
    if items == [] then [] else [Meaning(items[0])] + MeaningItems(items[1..])
  }

  function MeaningFields(fs: seq<Field>): map<Text, Value> {
    if fs == [] then map[] else MeaningFields(fs[1..])[fs[0].key := Meaning(fs[0].value)]
  }

  // ---------------------------------------------------------------------------
  // JSON.stringify without whitespace
  // ---------------------------------------------------------------------------

  function HexDigit(n: nat): Unit
    requires n < 16
  {
    if n < 10 then ZERO + n else 'a' as int + n - 10
  }

  function Hex4(u: Unit): Text {
    [HexDigit(u / 4096), HexDigit(u / 256 % 16), HexDigit(u / 16 % 16), HexDigit(u % 16)]
  }

  predicate IsHigh(u: Unit) { 0xD800 <= u <= 0xDBFF }

  predicate IsLow(u: Unit) { 0xDC00 <= u <= 0xDFFF }

  /** The letter of a two-character escape, if there is one. */
  function ShortEscape(u: Unit): int {
    if u == 8 then 'b' as int
    else if u == 9 then 't' as int
    else if u == 10 then 'n' as int
    else if u == 12 then 'f' as int
    else if u == 13 then 'r' as int
    else if u == QUOTE then QUOTE
    else if u == BACKSLASH then BACKSLASH
    else -1
  }

  function EscapeUnit(u: Unit): Text {
    if ShortEscape(u) >= 0 then [BACKSLASH, ShortEscape(u)]
    else if u < 0x20 || IsHigh(u) || IsLow(u) then [BACKSLASH, 'u' as int] + Hex4(u)
    else [u]
  }

  predicate StartsPair(s: Text) {
    |s| >= 2 && IsHigh(s[0]) && IsLow(s[1])
  }

  /** Surrogate pairs are kept; a surrogate on its own is escaped. */
  function Escape(s: Text): Text {
    if s == [] then []
    else if StartsPair(s) then [s[0], s[1]] + Escape(s[2..])
    else EscapeUnit(s[0]) + Escape(s[1..])
  }

  function Quote(s: Text): Text {
    [QUOTE] + Escape(s) + [QUOTE]
  }

  const NULL_TEXT: Text := ['n' as int, 'u' as int, 'l' as int, 'l' as int]
  const TRUE_TEXT: Text := ['t' as int, 'r' as int, 'u' as int, 'e' as int]
  const FALSE_TEXT: Text := ['f' as int, 'a' as int, 'l' as int, 's' as int, 'e' as int]

  function Print(v: Json): Text {
    match v
    case Null => NULL_TEXT
    case NonFinite(_) => NULL_TEXT
    case Bool(b) => if b then TRUE_TEXT else FALSE_TEXT
    case Num(t) => t
    case Str(s) => Quote(s)
    case Arr(items) => [LBRACKET] + PrintItems(items) + [RBRACKET]
    case Obj(fs) => [LBRACE] + PrintFields(fs) + [RBRACE]
  }

  function PrintItems(items: seq<Json>): Text {
    if items == [] then []
    else Print(items[0]) + (if |items| == 1 then [] else [COMMA] + PrintItems(items[1..]))
  }

  function PrintFields(fs: seq<Field>): Text {
    if fs == [] then []
    else Quote(fs[0].key) + [COLON] + Print(fs[0].value) + (if |fs| == 1 then [] else [COMMA] + PrintFields(fs[1..]))
  }

  /**
   * How JSON.stringify writes a string of one unit: the two-character escapes, lower-case
   * hex for other control characters and lone surrogates, and all else as it is.
   */
  lemma UnitQuoted(u: Unit)
    ensures u == 0x22 ==> Quote([u]) == [0x22, 0x5C, 0x22, 0x22]
    ensures u == 0x5C ==> Quote([u]) == [0x22, 0x5C, 0x5C, 0x22]
    ensures u == 0x08 ==> Quote([u]) == [0x22, 0x5C] + Literal("b") + [0x22]
    ensures u == 0x09 ==> Quote([u]) == [0x22, 0x5C] + Literal("t") + [0x22]
    ensures u == 0x0A ==> Quote([u]) == [0x22, 0x5C] + Literal("n") + [0x22]
    ensures u == 0x0C ==> Quote([u]) == [0x22, 0x5C] + Literal("f") + [0x22]
    ensures u == 0x0D ==> Quote([u]) == [0x22, 0x5C] + Literal("r") + [0x22]
    ensures (0x20 <= u < 0xD800 || u >= 0xE000) && u != 0x22 && u != 0x5C ==> Quote([u]) == [0x22, u, 0x22]
  {
    assert [u][1..] == [] && Escape([]) == [];
    assert Escape([u]) == EscapeUnit(u);
    hide Escape;
  }

  lemma ControlQuoted(u: Unit, digits: string)
    requires (u < 0x20 && u !in {0x08, 0x09, 0x0A, 0x0C, 0x0D}) || 0xD800 <= u < 0xE000
    requires LowerHex(digits) && ValueOfHex(digits) == u
    ensures Quote([u]) == [0x22, 0x5C] + Literal("u") + Literal(digits) + [0x22]
  {
    assert [u][1..] == [] && Escape([]) == [];
    assert Escape([u]) == EscapeUnit(u);
    hide Escape;
    LowerHexDigits(u, digits);
    hide Hex4, ValueOfHex;
    assert EscapeUnit(u) == [0x5C, 0x75] + Literal(digits);
  }

  predicate LowerHex(digits: string) {
    |digits| == 4 && forall i | 0 <= i < 4 :: '0' <= digits[i] <= '9' || 'a' <= digits[i] <= 'f'
  }

  function ValueOfHex(digits: string): nat
    requires LowerHex(digits)
  {
    LowerValue(digits[0]) * 0x1000 + LowerValue(digits[1]) * 0x100 + LowerValue(digits[2]) * 0x10 + LowerValue(digits[3])
  }

  function LowerValue(c: char): (v: nat)
    requires '0' <= c <= '9' || 'a' <= c <= 'f'
    ensures v < 16
  {
    if c <= '9' then c as int - '0' as int else c as int - 'a' as int + 10
  }

  lemma LowerHexDigits(u: Unit, digits: string)
    requires LowerHex(digits) && ValueOfHex(digits) == u
    ensures Hex4(u) == Literal(digits)
  {
    var a, b, c, d := LowerValue(digits[0]), LowerValue(digits[1]), LowerValue(digits[2]), LowerValue(digits[3]);
    HexPlaces(u, a, b, c, d);
    assert HexDigit(a) == UnitOf(digits[0]) && HexDigit(b) == UnitOf(digits[1]);
    assert HexDigit(c) == UnitOf(digits[2]) && HexDigit(d) == UnitOf(digits[3]);
    hide HexDigit, LowerValue, UnitOf;
  }

  lemma HexPlaces(u: nat, a: nat, b: nat, c: nat, d: nat)
    requires a < 16 && b < 16 && c < 16 && d < 16 && u == a * 0x1000 + b * 0x100 + c * 0x10 + d
    ensures u / 4096 == a && u / 256 % 16 == b && u / 16 % 16 == c && u % 16 == d
  {
    assert u / 256 == 16 * a + b;
    assert u / 16 == 16 * (16 * a + b) + c;
  }

  // ---------------------------------------------------------------------------
  // A reader
  // ---------------------------------------------------------------------------

  /** What was read, and the text that follows it. */
  datatype Reading<T> = Reading(value: T, rest: Text)

  predicate StartsWith(t: Text, word: string) {
    |word| <= |t| && t[..|word|] == Literal(word)
  }

  /** The value of a hex digit of either case, or -1. */
  function HexValue(u: Unit): (v: int)
    ensures -1 <= v < 16
  {
    if '0' as int <= u <= '9' as int then u - '0' as int
    else if 'a' as int <= u <= 'f' as int then u - 'a' as int + 10
    else if 'A' as int <= u <= 'F' as int then u - 'A' as int + 10
    else -1
  }

  /** The code unit that four hex digits give. */
  function FourHex(a: Unit, b: Unit, c: Unit, d: Unit): Option<Unit> {
    if HexValue(a) < 0 || HexValue(b) < 0 || HexValue(c) < 0 || HexValue(d) < 0 then None
    else Some(HexValue(a) * 0x1000 + HexValue(b) * 0x100 + HexValue(c) * 0x10 + HexValue(d))
  }

  /** What a letter after a backslash stands for. */
  function Escaped(u: Unit): Option<Unit> {
    if u == '"' as int || u == '\\' as int || u == '/' as int then Some(u)
    else if u == 'b' as int then Some(0x08)
    else if u == 't' as int then Some(0x09)
    else if u == 'n' as int then Some(0x0A)
    else if u == 'f' as int then Some(0x0C)
    else if u == 'r' as int then Some(0x0D)
    else None
  }

  /** One code unit of a string. */
  function ReadUnit(t: Text): (r: Option<Reading<Unit>>)
    ensures r.Some? ==> |r.value.rest| < |t|
  {
    if t == [] then None
    else if t[0] == '\\' as int then
      if |t| >= 2 && Escaped(t[1]).Some? then Some(Reading(Escaped(t[1]).value, t[2..]))
      else if |t| >= 6 && t[1] == 'u' as int && FourHex(t[2], t[3], t[4], t[5]).Some? then
        Some(Reading(FourHex(t[2], t[3], t[4], t[5]).value, t[6..]))
      else None
    else if t[0] >= 0x20 && t[0] != '"' as int then Some(Reading(t[0], t[1..]))
    else None
  }

  /** The rest of a string whose quotation mark has been read. */
  function ReadChars(t: Text): (r: Option<Reading<Text>>)
    ensures r.Some? ==> |r.value.rest| < |t|
    decreases |t|
  {
    if t != [] && t[0] == '"' as int then Some(Reading([], t[1..]))
    else match ReadUnit(t)
      case None => None
      case Some(Reading(u, rest)) =>
        match ReadChars(rest)
        case None => None
        case Some(Reading(s, end)) => Some(Reading([u] + s, end))
  }

  predicate Begins(t: Text, c: char) {
    t != [] && t[0] == c as int
  }

  function ReadValue(t: Text): (r: Option<Reading<Json>>)
    ensures r.Some? ==> |r.value.rest| < |t|
    decreases |t|, 1
  {
    if StartsWith(t, "null") then Some(Reading(Null, t[4..]))
    else if StartsWith(t, "true") then Some(Reading(Bool(true), t[4..]))
    else if StartsWith(t, "false") then Some(Reading(Bool(false), t[5..]))
    else if Begins(t, '"') then
      match ReadChars(t[1..])
      case None => None
      case Some(Reading(s, rest)) => Some(Reading(Str(s), rest))
    else if Begins(t, '[') then
      if Begins(t[1..], ']') then Some(Reading(Arr([]), t[2..]))
      else match ReadItems(t[1..])
        case None => None
        case Some(Reading(items, rest)) => Some(Reading(Arr(items), rest))
    else if Begins(t, '{') then
      if Begins(t[1..], '}') then Some(Reading(Obj([]), t[2..]))
      else match ReadMembers(t[1..])
        case None => None
        case Some(Reading(fs, rest)) => Some(Reading(Obj(fs), rest))
    else if NumberEnd(t) > 0 then Some(Reading(Num(t[..NumberEnd(t)]), t[NumberEnd(t)..]))
    else None
  }

  /** Values separated by commas, up to the closing bracket. */
  function ReadItems(t: Text): (r: Option<Reading<seq<Json>>>)
    ensures r.Some? ==> |r.value.rest| < |t|
    decreases |t|, 2
  {
    match ReadValue(t)
    case None => None
    case Some(Reading(v, rest)) =>
      if Begins(rest, ']') then Some(Reading([v], rest[1..]))
      else if Begins(rest, ',') then
        match ReadItems(rest[1..])
        case None => None
        case Some(Reading(items, end)) => Some(Reading([v] + items, end))
      else None
  }

  /** Members separated by commas, up to the closing brace. */
  function ReadMembers(t: Text): (r: Option<Reading<seq<Field>>>)
    ensures r.Some? ==> |r.value.rest| < |t|
    decreases |t|, 0
  {
    if !Begins(t, '"') then None
    else match ReadChars(t[1..])
      case None => None
      case Some(Reading(key, afterKey)) =>
        if !Begins(afterKey, ':') then None
        else match ReadValue(afterKey[1..])
          case None => None
          case Some(Reading(v, rest)) =>
            if Begins(rest, '}') then Some(Reading([Field(key, v)], rest[1..]))
            else if Begins(rest, ',') then
              match ReadMembers(rest[1..])
              case None => None
              case Some(Reading(fs, end)) => Some(Reading([Field(key, v)] + fs, end))
            else None
  }

  /** A whole text as one value. */
  function Read(t: Text): Option<Json> {
    match ReadValue(t)
    case None => None
    case Some(Reading(v, rest)) => if rest == [] then Some(v) else None
  }

  // ---------------------------------------------------------------------------
  // Strings are read back
  // ---------------------------------------------------------------------------

  lemma {:induction false} SplitAt(a: Text, x: Text, b: Text, y: Text)
    requires a + x == b + y && |a| == |b|
    ensures a == b && x == y
  {
    assert a == (a + x)[..|a|] && b == (b + y)[..|b|];
    assert x == (a + x)[|a|..] && y == (b + y)[|b|..];
  }

  lemma HexDigitRead(n: nat)
    requires n < 16
    ensures HexValue(HexDigit(n)) == n
  {
  }

  lemma Hex4Read(u: Unit)
    ensures var h := Hex4(u); |h| == 4 && FourHex(h[0], h[1], h[2], h[3]) == Some(u)
  {
    HexDigitRead(u / 4096);
    HexDigitRead(u / 256 % 16);
    HexDigitRead(u / 16 % 16);
    HexDigitRead(u % 16);
    HexParts(u);
    hide HexDigit, HexValue;
  }

  lemma HexParts(u: nat)
    ensures u == (u / 4096) * 0x1000 + (u / 256 % 16) * 0x100 + (u / 16 % 16) * 0x10 + u % 16
  {
    var a := u / 16;
    var b := a / 16;
    assert b == u / 256 && b / 16 == u / 4096;
    assert a == 16 * b + a % 16 && b == 16 * (b / 16) + b % 16;
  }

  lemma {:induction false} UnitRead(u: Unit, x: Text)
    ensures ReadUnit(EscapeUnit(u) + x) == Some(Reading(u, x))
    ensures (EscapeUnit(u) + x)[0] != QUOTE
  {
    var e := EscapeUnit(u);
    var t := e + x;
    assert t[0] == e[0] && t[|e|..] == x;
    Hex4Read(u);
    hide Hex4, FourHex;
    if |e| == 6 {
      assert t[1] == e[1] && t[2] == e[2] && t[3] == e[3] && t[4] == e[4] && t[5] == e[5];
      assert e[2..] == Hex4(u);
    } else if |e| == 2 {
      assert t[1] == e[1];
    }
  }

  lemma RawRead(u: Unit, x: Text)
    requires IsHigh(u) || IsLow(u)
    ensures ReadUnit([u] + x) == Some(Reading(u, x)) && ([u] + x)[0] != QUOTE
  {
    assert ([u] + x)[1..] == x;
  }

  lemma {:induction false} CharsStep(t: Text, u: Unit, rest: Text, s: Text, end: Text)
    requires ReadUnit(t) == Some(Reading(u, rest)) && t[0] != QUOTE && ReadChars(rest) == Some(Reading(s, end))
    ensures ReadChars(t) == Some(Reading([u] + s, end))
  {
    hide ReadUnit;
  }

  /** A printed string is read back up to its closing quotation mark. */
  lemma {:induction false} StringRead(s: Text, x: Text)
    ensures ReadChars(Escape(s) + [QUOTE] + x) == Some(Reading(s, x))
    decreases |s|
  {
    hide ReadUnit;
    if s == [] {
      var t := Escape(s) + [QUOTE] + x;
      assert t == [QUOTE] + x && t[1..] == x;
    } else if StartsPair(s) {
      StringRead(s[2..], x);
      hide ReadChars, Escape;
      PairRead(s, x);
    } else {
      StringRead(s[1..], x);
      hide ReadChars, Escape;
      SingleRead(s, x);
    }
  }

  lemma {:induction false} PairRead(s: Text, x: Text)
    requires StartsPair(s) && ReadChars(Escape(s[2..]) + [QUOTE] + x) == Some(Reading(s[2..], x))
    ensures ReadChars(Escape(s) + [QUOTE] + x) == Some(Reading(s, x))
  {
    var rest := Escape(s[2..]) + [QUOTE] + x;
    assert Escape(s) + [QUOTE] + x == [s[0]] + ([s[1]] + rest);
    RawRead(s[1], rest);
    RawRead(s[0], [s[1]] + rest);
    hide ReadUnit, ReadChars, Escape;
    CharsStep([s[1]] + rest, s[1], rest, s[2..], x);
    CharsStep([s[0]] + ([s[1]] + rest), s[0], [s[1]] + rest, [s[1]] + s[2..], x);
    assert s == [s[0]] + ([s[1]] + s[2..]);
  }

  lemma {:induction false} SingleRead(s: Text, x: Text)
    requires s != [] && !StartsPair(s) && ReadChars(Escape(s[1..]) + [QUOTE] + x) == Some(Reading(s[1..], x))
    ensures ReadChars(Escape(s) + [QUOTE] + x) == Some(Reading(s, x))
  {
    var rest := Escape(s[1..]) + [QUOTE] + x;
    assert Escape(s) + [QUOTE] + x == EscapeUnit(s[0]) + rest;
    hide ReadUnit, ReadChars, Escape, EscapeUnit;
    UnitRead(s[0], rest);
    CharsStep(EscapeUnit(s[0]) + rest, s[0], rest, s[1..], x);
    assert s == [s[0]] + s[1..];
  }

  /** Two escaped strings that agree up to a quotation mark are escapes of the same string. */
  lemma {:induction false} EscapeDelimited(s: Text, t: Text, x: Text, y: Text)
    requires Escape(s) + [QUOTE] + x == Escape(t) + [QUOTE] + y
    ensures s == t && x == y
  {
    StringRead(s, x);
    StringRead(t, y);
  }

  // ---------------------------------------------------------------------------
  // Numbers are read back
  // ---------------------------------------------------------------------------

  /** What may follow a value inside a larger JSON text, or its end. */
  predicate Delimiter(x: Text) {
    x == [] || x[0] == COMMA || x[0] == RBRACKET || x[0] == RBRACE
  }

  lemma {:induction false} DigitsEndBefore(t: Text, i: nat, x: Text)
    requires i <= |t| && Delimiter(x)
    ensures DigitsEnd(t + x, i) == DigitsEnd(t, i)
    decreases |t| - i
  {
    if i < |t| {
      assert (t + x)[i] == t[i];
      if Digit(t[i]) {
        DigitsEndBefore(t, i + 1, x);
      }
    } else if x != [] {
      assert (t + x)[i] == x[0];
    }
  }

  /** What follows a number does not change where it ends. */
  lemma {:induction false} NumberRead(t: Text, x: Text)
    requires NumberText(t) && Delimiter(x)
    ensures NumberEnd(t + x) == |t| && (t + x)[..|t|] == t && (t + x)[|t|..] == x
  {
    var w := t + x;
    assert forall i | 0 <= i < |w| :: w[i] == if i < |t| then t[i] else x[i - |t|];
    forall i: nat | i <= |t| ensures DigitsEnd(w, i) == DigitsEnd(t, i) {
      DigitsEndBefore(t, i, x);
    }
    hide DigitsEnd;
    assert x != [] ==> !Digit(x[0]) && x[0] != '.' as int && x[0] != 'e' as int && x[0] != 'E' as int;
    var start := if t[0] == '-' as int then 1 else 0;
    assert IntegerEnd(w, start) == IntegerEnd(t, start);
    var i := IntegerEnd(t, start);
    assert FractionEnd(w, i) == FractionEnd(t, i);
    var j := FractionEnd(t, i);
    assert ExponentEnd(w, j) == ExponentEnd(t, j);
  }

  /** A number ends where the next unit cannot continue a number. */
  lemma {:induction false} NumberDelimited(a: Text, b: Text, x: Text, y: Text)
    requires NumberText(a) && NumberText(b) && Delimiter(x) && Delimiter(y)
    requires a + x == b + y
    ensures a == b && x == y
  {
    hide NumberText, NumberEnd;
    NumberRead(a, x);
    NumberRead(b, y);
  }

  lemma NumberHead(t: Text)
    requires NumberText(t)
    ensures t != [] && (Digit(t[0]) || t[0] == '-' as int)
  {
  }

  // ---------------------------------------------------------------------------
  // Values are read back
  // ---------------------------------------------------------------------------

  /** The value with every non-finite number made null. */
  function Nulled(v: Json): Json {
    match v
    case NonFinite(_) => Null
    case Arr(items) => Arr(NulledItems(items))
    case Obj(fs) => Obj(NulledFields(fs))
    case _ => v
  }

  function NulledItems(items: seq<Json>): seq<Json> {
    if items == [] then [] else [Nulled(items[0])] + NulledItems(items[1..])
  }

  function NulledFields(fs: seq<Field>): seq<Field> {
    if fs == [] then [] else [Field(fs[0].key, Nulled(fs[0].value))] + NulledFields(fs[1..])
  }

  lemma WordRead(word: string, t: Text, x: Text)
    requires t == Literal(word)
    ensures StartsWith(t + x, word) && (t + x)[|word|..] == x
    ensures t != [] ==> (t + x)[0] == t[0]
  {
    assert (t + x)[..|word|] == t;
  }

  lemma WordHead(t: Text, word: string)
    requires StartsWith(t, word) && word != ""
    ensures t != [] && t[0] == UnitOf(word[0])
  {
    assert t[..|word|][0] == t[0];
  }

  /** The first unit of a text that is not a word tells what the reader does with it. */
  lemma NoWord(t: Text)
    requires t != [] && t[0] != 'n' as int && t[0] != 't' as int && t[0] != 'f' as int
    ensures !StartsWith(t, "null") && !StartsWith(t, "true") && !StartsWith(t, "false")
  {
    if StartsWith(t, "null") { WordHead(t, "null"); }
    if StartsWith(t, "true") { WordHead(t, "true"); }
    if StartsWith(t, "false") { WordHead(t, "false"); }
  }

  lemma OtherWords(t: Text)
    requires t != []
    ensures t[0] != 'n' as int ==> !StartsWith(t, "null")
    ensures t[0] != 't' as int ==> !StartsWith(t, "true")
  {
    if StartsWith(t, "null") { WordHead(t, "null"); }
    if StartsWith(t, "true") { WordHead(t, "true"); }
  }

  lemma Words()
    ensures NULL_TEXT == Literal("null") && TRUE_TEXT == Literal("true") && FALSE_TEXT == Literal("false")
  {
  }

  lemma WordValueRead(v: Json, x: Text)
    requires v.Null? || v.NonFinite? || v.Bool?
    ensures ReadValue(Print(v) + x) == Some(Reading(Nulled(v), x))
  {
    hide StartsWith, NULL_TEXT, TRUE_TEXT, FALSE_TEXT, ReadChars, ReadItems, ReadMembers;
    Words();
    var word := if v.Bool? then (if v.b then "true" else "false") else "null";
    WordRead(word, Print(v), x);
    OtherWords(Print(v) + x);
  }

  lemma NumRead(n: Text, x: Text)
    requires NumberText(n) && Delimiter(x)
    ensures ReadValue(n + x) == Some(Reading(Num(n), x))
  {
    NumberRead(n, x);
    NumberHead(n);
    hide NumberText, NumberEnd, StartsWith, ReadChars, ReadItems, ReadMembers;
    assert (n + x)[0] == n[0];
    NoWord(n + x);
  }

  lemma StrRead(s: Text, x: Text)
    ensures ReadValue(Quote(s) + x) == Some(Reading(Str(s), x))
  {
    hide StartsWith, ReadChars, ReadItems, ReadMembers, Escape;
    var t := Quote(s) + x;
    assert t == [QUOTE] + (Escape(s) + [QUOTE] + x);
    assert t[1..] == Escape(s) + [QUOTE] + x;
    StringRead(s, x);
    NoWord(t);
  }

  /** No printed value begins with a bracket or a brace that closes. */
  lemma {:induction false} PrintHead(v: Json)
    requires WellFormed(v)
    ensures Print(v) != [] && Print(v)[0] != RBRACKET && Print(v)[0] != RBRACE
  {
    hide Escape, PrintItems, PrintFields, NumberText;
    if v.Num? {
      NumberHead(v.text);
    }
  }

  /**
   * The reader gives back the value that was printed, members in their order, and what
   * follows it, wherever that cannot continue a number.
   */
  lemma {:induction false} PrintRead(v: Json, x: Text)
    requires WellFormed(v) && Delimiter(x)
    ensures ReadValue(Print(v) + x) == Some(Reading(Nulled(v), x))
    decreases v, 1
  {
    match v
    case Arr(items) =>
      if items != [] {
        ItemsRead(items, x);
      }
      hide Print, ReadItems, ReadValue;
      ArrRead(items, x);
    case Obj(fs) =>
      if fs != [] {
        FieldsRead(fs, x);
      }
      hide Print, ReadMembers, ReadValue;
      ObjRead(fs, x);
    case Num(n) =>
      hide ReadValue, NumberText;
      NumRead(n, x);
    case Str(s) =>
      hide ReadValue, Quote;
      StrRead(s, x);
    case _ =>
      hide Print, ReadValue;
      WordValueRead(v, x);
  }

  lemma {:induction false} ArrRead(items: seq<Json>, x: Text)
    requires WellFormedItems(items)
    requires items != [] ==> ReadItems(PrintItems(items) + [RBRACKET] + x) == Some(Reading(NulledItems(items), x))
    ensures ReadValue(Print(Arr(items)) + x) == Some(Reading(Arr(NulledItems(items)), x))
  {
    var t := Print(Arr(items)) + x;
    assert t == [LBRACKET] + (PrintItems(items) + [RBRACKET] + x);
    assert t[1..] == PrintItems(items) + [RBRACKET] + x;
    NoWord(t);
    if items == [] {
      assert t[1..] == [RBRACKET] + x && t[2..] == x;
    } else {
      PrintHead(items[0]);
      assert PrintItems(items)[0] == Print(items[0])[0];
      assert t[1..][0] == PrintItems(items)[0];
    }
    hide Print, PrintItems, ReadItems, NulledItems;
  }

  lemma FieldsHead(fs: seq<Field>)
    requires fs != []
    ensures PrintFields(fs) != [] && PrintFields(fs)[0] == QUOTE
  {
    hide Print, Escape;
    assert Quote(fs[0].key)[0] == QUOTE;
  }

  lemma MembersInBraces(y: Text, fs: seq<Field>, x: Text)
    requires y != [] && y[0] == QUOTE && ReadMembers(y) == Some(Reading(fs, x))
    ensures ReadValue([LBRACE] + y) == Some(Reading(Obj(fs), x))
  {
    hide ReadMembers, ReadChars, ReadItems, StartsWith, NumberEnd;
    NoWord([LBRACE] + y);
    assert ([LBRACE] + y)[1..] == y;
  }

  lemma EmptyBraces(x: Text)
    ensures ReadValue([LBRACE] + ([RBRACE] + x)) == Some(Reading(Obj([]), x))
  {
    hide ReadMembers, ReadChars, ReadItems, StartsWith, NumberEnd;
    var t := [LBRACE] + ([RBRACE] + x);
    NoWord(t);
    assert t[1..] == [RBRACE] + x && t[2..] == x;
  }

  lemma {:induction false} ObjRead(fs: seq<Field>, x: Text)
    requires fs != [] ==> ReadMembers(PrintFields(fs) + [RBRACE] + x) == Some(Reading(NulledFields(fs), x))
    ensures ReadValue(Print(Obj(fs)) + x) == Some(Reading(Obj(NulledFields(fs)), x))
  {
    var y := PrintFields(fs) + [RBRACE] + x;
    assert Print(Obj(fs)) + x == [LBRACE] + y by {
      hide PrintFields;
    }
    hide ReadValue, ReadMembers;
    if fs == [] {
      assert y == [RBRACE] + x;
      EmptyBraces(x);
    } else {
      FieldsHead(fs);
      hide PrintFields, Print;
      MembersInBraces(y, NulledFields(fs), x);
    }
  }

  /** What follows the first item of a non-empty array. */
  function ItemsTail(items: seq<Json>, x: Text): (r: Text)
    requires items != []
    ensures Delimiter(r)
  {
    if |items| == 1 then [RBRACKET] + x else [COMMA] + (PrintItems(items[1..]) + [RBRACKET] + x)
  }

  lemma {:induction false} PrintItemsCons(items: seq<Json>, x: Text)
    requires items != []
    ensures PrintItems(items) + [RBRACKET] + x == Print(items[0]) + ItemsTail(items, x)
  {
    hide Print;
  }

  lemma {:induction false} ItemsRead(items: seq<Json>, x: Text)
    requires WellFormedItems(items) && items != []
    ensures ReadItems(PrintItems(items) + [RBRACKET] + x) == Some(Reading(NulledItems(items), x))
    decreases items, 0
  {
    PrintItemsCons(items, x);
    PrintRead(items[0], ItemsTail(items, x));
    hide Print, ReadValue, Nulled, WellFormed;
    if |items| == 1 {
      assert items[1..] == [] && NulledItems(items) == [Nulled(items[0])];
      assert ItemsTail(items, x)[1..] == x;
    } else {
      ItemsRead(items[1..], x);
      assert ItemsTail(items, x)[1..] == PrintItems(items[1..]) + [RBRACKET] + x;
      hide PrintItems;
    }
  }

  /** What follows the first member of a non-empty object. */
  function FieldsTail(fs: seq<Field>, x: Text): (r: Text)
    requires fs != []
    ensures Delimiter(r)
  {
    if |fs| == 1 then [RBRACE] + x else [COMMA] + (PrintFields(fs[1..]) + [RBRACE] + x)
  }

  /** The text of the members from the first colon on. */
  function AfterKey(fs: seq<Field>, x: Text): Text
    requires fs != []
  {
    [COLON] + (Print(fs[0].value) + FieldsTail(fs, x))
  }

  lemma {:induction false} PrintFieldsCons(fs: seq<Field>, x: Text)
    requires fs != []
    ensures PrintFields(fs) + [RBRACE] + x == Quote(fs[0].key) + AfterKey(fs, x)
  {
    hide Print, Quote;
  }

  lemma QuoteOpens(s: Text, y: Text)
    ensures var t := Quote(s) + y; t != [] && t[0] == QUOTE && t[1..] == Escape(s) + [QUOTE] + y
  {
    hide Escape;
  }

  lemma {:induction false} MembersStep(fs: seq<Field>, x: Text)
    requires fs != []
    requires ReadValue(Print(fs[0].value) + FieldsTail(fs, x)) == Some(Reading(Nulled(fs[0].value), FieldsTail(fs, x)))
    requires |fs| > 1 ==> ReadMembers(PrintFields(fs[1..]) + [RBRACE] + x) == Some(Reading(NulledFields(fs[1..]), x))
    ensures ReadMembers(Quote(fs[0].key) + AfterKey(fs, x)) == Some(Reading(NulledFields(fs), x))
  {
    hide Print, PrintFields, Quote, ReadValue, ReadChars, Escape, Nulled;
    var key := fs[0].key;
    QuoteOpens(key, AfterKey(fs, x));
    StringRead(key, AfterKey(fs, x));
    assert AfterKey(fs, x)[1..] == Print(fs[0].value) + FieldsTail(fs, x);
    if |fs| == 1 {
      assert fs[1..] == [] && NulledFields(fs) == [Field(key, Nulled(fs[0].value))];
      assert FieldsTail(fs, x)[1..] == x;
    } else {
      assert FieldsTail(fs, x)[1..] == PrintFields(fs[1..]) + [RBRACE] + x;
    }
  }

  lemma {:induction false} FieldsRead(fs: seq<Field>, x: Text)
    requires WellFormedFields(fs) && fs != []
    ensures ReadMembers(PrintFields(fs) + [RBRACE] + x) == Some(Reading(NulledFields(fs), x))
    decreases fs, 0
  {
    PrintFieldsCons(fs, x);
    PrintRead(fs[0].value, FieldsTail(fs, x));
    hide Print, ReadValue, Nulled, WellFormed, KeySet, ReadMembers, FieldsTail, AfterKey, NulledFields;
    if |fs| > 1 {
      FieldsRead(fs[1..], x);
    }
    hide PrintFields;
    MembersStep(fs, x);
  }

  /** So printed text is uniquely readable. */
  lemma {:induction false} PrintDelimited(u: Json, v: Json, x: Text, y: Text)
    requires WellFormed(u) && WellFormed(v) && Delimiter(x) && Delimiter(y)
    requires Print(u) + x == Print(v) + y
    ensures Nulled(u) == Nulled(v) && x == y
  {
    hide Print, ReadValue, Nulled, WellFormed;
    PrintRead(u, x);
    PrintRead(v, y);
  }
}
