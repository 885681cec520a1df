/** The string operations of JavaScript that several components share. */
module TextTools {
  import opened CodeUnits

  /** The code units that String.prototype.trim removes and that the regexp class \s matches. */
  predicate IsSpace(u: Unit) {
    || 0x9 <= u <= 0xD || u == 0x20 || u == 0xA0 || u == 0x1680 || 0x2000 <= u <= 0x200A
    || u == 0x2028 || u == 0x2029 || u == 0x202F || u == 0x205F || u == 0x3000 || u == 0xFEFF
  }

  function TrimStart(s: Text): (t: Text)
    ensures |t| <= |s| && (|t| == |s| ==> t == s)
    ensures t == [] || !IsSpace(t[0])
  {
    if s != [] && IsSpace(s[0]) then TrimStart(s[1..]) else s
  }

  function TrimEnd(s: Text): (t: Text)
    ensures t <= s
    ensures t == [] || !IsSpace(t[|t| - 1])
  {
    if s != [] && IsSpace(s[|s| - 1]) then TrimEnd(s[..|s| - 1]) else s
  }

  lemma TrimStartKeeps(s: Text)
    requires s == [] || !IsSpace(s[0])
    ensures TrimStart(s) == s
  {
    hide IsSpace;
  }

  lemma TrimEndKeeps(s: Text)
    requires s == [] || !IsSpace(s[|s| - 1])
    ensures TrimEnd(s) == s
  {
    hide IsSpace;
  }

  /** Only whitespace is trimmed. */
  lemma {:induction false} TrimEndDrops(s: Text, i: nat)
    requires |TrimEnd(s)| <= i < |s|
    ensures IsSpace(s[i])
  {
    hide IsSpace;
    if s != [] && i < |s| - 1 && IsSpace(s[|s| - 1]) {
      TrimEndDrops(s[..|s| - 1], i);
      assert s[..|s| - 1][i] == s[i];
    }
  }

  lemma TrimEndKeepsLast(s: Text)
    requires TrimEnd(s) != []
    ensures |TrimEnd(s)| <= |s| && !IsSpace(s[|TrimEnd(s)| - 1])
  {
    hide IsSpace;
  }

  lemma TrimEndAtMost(s: Text, n: nat)
    requires n <= |s| && forall i | n <= i < |s| :: IsSpace(s[i])
    ensures |TrimEnd(s)| <= n
  {
    hide IsSpace;
    if TrimEnd(s) != [] {
      TrimEndKeepsLast(s);
    }
  }

  lemma {:induction false} TrimStartIsSuffix(s: Text)
    ensures TrimStart(s) == s[|s| - |TrimStart(s)|..]
  {
    hide IsSpace;
    if s != [] && IsSpace(s[0]) {
      TrimStartIsSuffix(s[1..]);
    }
  }

  lemma {:induction false} TrimStartDrops(s: Text, n: nat)
    requires n <= |s| && forall i | 0 <= i < n :: IsSpace(s[i])
    ensures |TrimStart(s)| <= |s| - n
  {
    hide IsSpace;
    if n > 0 {
      TrimStartDrops(s[1..], n - 1);
    }
  }

  function Trim(s: Text): (t: Text)
    ensures |t| <= |s|
  {
    TrimEnd(TrimStart(s))
  }

  lemma TrimKeeps(s: Text)
    requires s == [] || (!IsSpace(s[0]) && !IsSpace(s[|s| - 1]))
    ensures Trim(s) == s
  {
    hide IsSpace, TrimStart, TrimEnd;
    TrimStartKeeps(s);
    TrimEndKeeps(s);
  }

  lemma TrimLeavesNoSpace(s: Text)
    requires Trim(s) == TrimStart(s) == s
    ensures s == [] || (!IsSpace(s[0]) && !IsSpace(s[|s| - 1]))
  {
    hide IsSpace, TrimStart, TrimEnd;
    assert Trim(s) == TrimEnd(TrimStart(s));
  }
}
