/**
 * JavaScript strings: sequences of UTF-16 code units, ordered unit by unit, which
 * is the order Array.prototype.sort uses when no comparator is given.
 */
module CodeUnits {

  type Unit = u: int | 0 <= u < 0x10000

  type Text = seq<Unit>

  /** A string literal as code units; the literals of this model are ASCII. */
  function Literal(s: string): (t: Text)
    ensures |t| == |s|
    ensures forall i | 0 <= i < |s| :: t[i] == UnitOf(s[i])
  {
    seq<Unit>(|s|, i requires 0 <= i < |s| => UnitOf(s[i]))
  }

  function UnitOf(c: char): Unit {
    if c as int < 0x10000 then c as int else 0xFFFD
  }

  lemma LiteralInjective(a: string, b: string)
    requires forall i | 0 <= i < |a| :: a[i] as int < 0xFFFD
    requires forall i | 0 <= i < |b| :: b[i] as int < 0xFFFD
    requires Literal(a) == Literal(b)
    ensures a == b
  {
    forall i | 0 <= i < |a| ensures a[i] == b[i] {
      assert Literal(a)[i] == Literal(b)[i];
    }
  }

  predicate Less(a: Text, b: Text) {
    b != [] && (a == [] || a[0] < b[0] || (a[0] == b[0] && Less(a[1..], b[1..])))
  }

  predicate AtMost(a: Text, b: Text) {
    !Less(b, a)
  }

  lemma {:induction false} LessTrichotomy(a: Text, b: Text)
    ensures !(Less(a, b) && Less(b, a))
    ensures !Less(a, b) && !Less(b, a) <==> a == b
  {
    if a != [] && b != [] {
      LessTrichotomy(a[1..], b[1..]);
      if a[0] == b[0] && a[1..] == b[1..] {
        assert a == [a[0]] + a[1..] && b == [b[0]] + b[1..];
      }
    }
  }

  lemma {:induction false} AtMostTransitive(a: Text, b: Text, c: Text)
    requires AtMost(a, b) && AtMost(b, c)
    ensures AtMost(a, c)
  {
    if a != [] && b != [] && c != [] && a[0] == b[0] == c[0] {
      AtMostTransitive(a[1..], b[1..], c[1..]);
    }
  }
}
