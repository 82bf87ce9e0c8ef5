/** The string operations both app variants use: Python's `str.strip()`,
    `str.lower()`, the substring test `sub in s`, and the cuisine key
    `_norm(s) = s.strip().lower()`. */
module Text {

  /** The characters Python's `str.isspace()` accepts, which are the ones
      `str.strip()` removes. */
  predicate IsSpace(c: char) {
    || ('\U{9}' <= c <= '\U{D}')
    || ('\U{1C}' <= c <= '\U{20}')
    || c == '\U{85}' || c == '\U{A0}' || c == '\U{1680}'
    || ('\U{2000}' <= c <= '\U{200A}')
    || c == '\U{2028}' || c == '\U{2029}' || c == '\U{202F}'
    || c == '\U{205F}' || c == '\U{3000}'
  }

  function LowerChar(c: char): char {
    if 'A' <= c <= 'Z' then (c as int + 32) as char else c
  }

  /** `s.lower()` on ASCII letters; every other character is kept. */
  function Lower(s: string): (r: string)
    ensures |r| == |s|
    ensures forall i :: 0 <= i < |s| ==> r[i] == LowerChar(s[i])
  {
    seq(|s|, i requires 0 <= i < |s| => LowerChar(s[i]))
  }

  /** Leading whitespace removed: `r` is a suffix of `s`, everything cut
      off is whitespace, and `r` does not start with whitespace. */
  function TrimStart(s: string): (r: string)
    ensures |r| <= |s| && r == s[|s| - |r|..]
    ensures forall i :: 0 <= i < |s| - |r| ==> IsSpace(s[i])
    ensures r == [] || !IsSpace(r[0])
  {
    if s != [] && IsSpace(s[0]) then TrimStart(s[1..]) else s
  }

  /** Trailing whitespace removed: `r` is a prefix of `s`, everything cut
      off is whitespace, and `r` does not end with whitespace. */
  function TrimEnd(s: string): (r: string)
    ensures |r| <= |s| && r == s[..|r|]
    ensures forall i :: |r| <= i < |s| ==> IsSpace(s[i])
    ensures r == [] || !IsSpace(r[|r| - 1])
  {
    if s != [] && IsSpace(s[|s| - 1]) then TrimEnd(s[..|s| - 1]) else s
  }

  /** `s.strip()`: the slice of `s` left when whitespace is cut from both
      ends; it neither starts nor ends with whitespace. */
  function Strip(s: string): (r: string)
    ensures |r| <= |s|
    ensures exists lo :: CutsSpace(s, r, lo)
    ensures r == [] || (!IsSpace(r[0]) && !IsSpace(r[|r| - 1]))
  {
    var t := TrimStart(s);
    var r := TrimEnd(t);
    assert r != [] ==> r[0] == t[0];
    assert AllSpace(s[..|s| - |t|]);
    assert AllSpace(s[|s| - |t| + |r|..]);
    assert CutsSpace(s, r, |s| - |t|);
    r
  }

  /** `r` is the slice of `s` starting at `lo`, and everything of `s`
      before and after that slice is whitespace. */
  predicate CutsSpace(s: string, r: string, lo: int) {
    && 0 <= lo <= |s| - |r|
    && s[lo..lo + |r|] == r
    && AllSpace(s[..lo])
    && AllSpace(s[lo + |r|..])
  }

  predicate AllSpace(s: string) {
    forall i :: 0 <= i < |s| ==> IsSpace(s[i])
  }

  /** `not s.strip()`: the text is empty or only whitespace. */
  predicate IsBlank(s: string) {
    Strip(s) == []
  }

  /** A blank text is exactly one made of whitespace only. */
  lemma BlankIffAllSpace(s: string)
    ensures IsBlank(s) <==> forall i :: 0 <= i < |s| ==> IsSpace(s[i])
  {
    var t := TrimStart(s);
    var cut := |s| - |t|;
    if forall i :: 0 <= i < |s| ==> IsSpace(s[i]) {
      assert t == [];
    }
    if IsBlank(s) {
      assert t == [];
    }
  }

  /** A text that neither starts nor ends with whitespace is its own
      `strip()`. */
  lemma StripUnpadded(s: string)
    requires s == [] || (!IsSpace(s[0]) && !IsSpace(s[|s| - 1]))
    ensures Strip(s) == s
  {
    assert TrimStart(s) == s;
    assert TrimEnd(s) == s;
  }

  /** `_norm(s)`: the cuisine key, `s.strip().lower()`. The key is never
      longer than the text, carries no surrounding whitespace and no ASCII
      capital, and is empty exactly for a blank text. */
  function Norm(s: string): (r: string)
    ensures |r| <= |s|
    ensures r == [] || (!IsSpace(r[0]) && !IsSpace(r[|r| - 1]))
    ensures forall i :: 0 <= i < |r| ==> !('A' <= r[i] <= 'Z')
    ensures r == [] <==> IsBlank(s)
  {
    var t := Strip(s);
    LowerUnpadded(t);
    var r := Lower(t);
    assert r == [] <==> t == [];
    r
  }

  /** Lower-casing a text without surrounding whitespace gives one without
      surrounding whitespace and without ASCII capitals. */
  lemma LowerUnpadded(t: string)
    requires t == [] || (!IsSpace(t[0]) && !IsSpace(t[|t| - 1]))
    ensures var r := Lower(t);
            && (r == [] || (!IsSpace(r[0]) && !IsSpace(r[|r| - 1])))
            && forall i :: 0 <= i < |r| ==> !('A' <= r[i] <= 'Z')
  {
    if t != [] {
      LowerKeepsSpace(t[0]);
      LowerKeepsSpace(t[|t| - 1]);
    }
  }

  /** Lower-casing neither creates nor removes whitespace. */
  lemma LowerKeepsSpace(c: char)
    ensures IsSpace(LowerChar(c)) == IsSpace(c)
  {
  }

  /** `lower()` works one character at a time, front to back. */
  lemma LowerCons(c: char, s: string)
    ensures Lower([c] + s) == [LowerChar(c)] + Lower(s)
  {
    var l := Lower([c] + s);
    var t := [LowerChar(c)] + Lower(s);
    forall i | 0 <= i < |l| ensures l[i] == t[i] {
      if i > 0 {
        assert ([c] + s)[i] == s[i - 1];
      }
    }
  }

  /** A capitalised word: a capital letter followed by a text without
      surrounding whitespace or capitals is normalised by lower-casing its
      first letter alone. */
  lemma NormCapitalised(c: char, rest: string)
    requires 'A' <= c <= 'Z' && rest != []
    requires !IsSpace(rest[|rest| - 1])
    requires forall i :: 0 <= i < |rest| ==> !('A' <= rest[i] <= 'Z')
    ensures Norm([c] + rest) == [LowerChar(c)] + rest
  {
    var w := [c] + rest;
    assert !IsSpace(w[0]) && w[|w| - 1] == rest[|rest| - 1];
    StripUnpadded(w);
    assert Norm(w) == Lower(w);
    LowerCons(c, rest);
    LowerOfLower(rest);
  }

  /** A text without ASCII capitals is its own `lower()`. */
  lemma LowerOfLower(n: string)
    requires forall i :: 0 <= i < |n| ==> !('A' <= n[i] <= 'Z')
    ensures Lower(n) == n
  {
  }

  /** Normalising a key again changes nothing, so `_norm` of a stored key
      finds the same dictionary entry. */
  lemma NormIdempotent(s: string)
    ensures Norm(Norm(s)) == Norm(s)
  {
    NormOfKey(Norm(s));
  }

  /** A text that is already a key (no surrounding whitespace, no capitals)
      is its own key. */
  lemma NormOfKey(n: string)
    requires n == [] || (!IsSpace(n[0]) && !IsSpace(n[|n| - 1]))
    requires forall i :: 0 <= i < |n| ==> !('A' <= n[i] <= 'Z')
    ensures Norm(n) == n
  {
    StripUnpadded(n);
    LowerOfLower(n);
    assert Norm(n) == Lower(Strip(n));
  }

  /** Python's `sub in s` on strings. */
  predicate Contains(s: string, sub: string)
    ensures sub == [] ==> Contains(s, sub)
    ensures Contains(s, sub) ==> |sub| <= |s|
  {
    sub <= s || (s != [] && Contains(s[1..], sub))
  }

  /** `sub` occurs in `s` starting at position `i`. */
  predicate OccursAt(s: string, sub: string, i: int) {
    0 <= i <= |s| - |sub| && s[i..i + |sub|] == sub
  }

  /** `sub in s` holds exactly when `sub` occurs as a contiguous slice of
      `s` at some position. */
  lemma {:induction false} ContainsIffSlice(s: string, sub: string)
    ensures Contains(s, sub) <==> exists i :: OccursAt(s, sub, i)
  {
    if Contains(s, sub) {
      if sub <= s {
        assert OccursAt(s, sub, 0);
      } else {
        ContainsIffSlice(s[1..], sub);
        var j :| OccursAt(s[1..], sub, j);
        assert s[1..][j..j + |sub|] == s[j + 1..j + 1 + |sub|];
        assert OccursAt(s, sub, j + 1);
      }
    }
    if exists i :: OccursAt(s, sub, i) {
      var i :| OccursAt(s, sub, i);
      if i == 0 {
        assert sub == s[..|sub|];
      } else {
        assert s[1..][i - 1..i - 1 + |sub|] == s[i..i + |sub|];
        assert OccursAt(s[1..], sub, i - 1);
        ContainsIffSlice(s[1..], sub);
      }
    }
  }

}
