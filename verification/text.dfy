/** String helpers with the semantics of the JavaScript built-ins the source
    relies on. A string is a sequence of Unicode scalar values. */
module Text {

  /** `s.startsWith(prefix)`. */
  predicate StartsWith(s: string, prefix: string) {
    |prefix| <= |s| && s[..|prefix|] == prefix
  }

  /** U+FE0E and U+FE0F, the variation selectors that ask for the text or
      the emoji presentation of the character before them. */
  predicate IsVariationSelector(c: char) {
    c == '\U{FE0E}' || c == '\U{FE0F}'
  }

  predicate NoVariationSelectors(s: string) {
    forall i :: 0 <= i < |s| ==> !IsVariationSelector(s[i])
  }

  /** The length class-validator's `Length` constraint measures (validator.js
      `isLength`): the UTF-16 length, less one for every surrogate pair and
      one for every variation selector. A string here is a sequence of
      Unicode scalar values, so a character outside the Basic Multilingual
      Plane is already one element; only the variation selectors are left
      out of the count. */
  function CharLength(s: string): (n: nat)
    ensures n <= |s|
    ensures NoVariationSelectors(s) ==> n == |s|
  {
    if |s| == 0 then 0
    else (if IsVariationSelector(s[0]) then 0 else 1) + CharLength(s[1..])
  }

  /** The length of a concatenation is the sum of the lengths. */
  lemma {:induction false} CharLengthConcat(a: string, b: string)
    ensures CharLength(a + b) == CharLength(a) + CharLength(b)
    decreases |a|
  {
    if |a| > 0 {
      assert (a + b)[0] == a[0];
      assert (a + b)[1..] == a[1..] + b;
      CharLengthConcat(a[1..], b);
    } else {
      assert a + b == b;
    }
  }

  /** The characters `String.prototype.trim` removes: the ECMAScript
      WhiteSpace and LineTerminator code points. */
  predicate IsSpace(c: char) {
    || c == '\t' || c == '\n' || c == '\U{000B}' || c == '\U{000C}' || c == '\r'
    || c == ' ' || c == '\U{00A0}' || c == '\U{1680}'
    || ('\U{2000}' <= c <= '\U{200A}')
    || c == '\U{2028}' || c == '\U{2029}' || c == '\U{202F}' || c == '\U{205F}'
    || c == '\U{3000}' || c == '\U{FEFF}'
  }

  predicate AllSpace(s: string) {
    forall i :: 0 <= i < |s| ==> IsSpace(s[i])
  }

  /** Drops leading white space: the result is the suffix of `s` that starts
      at its first non-space character. */
  function TrimStart(s: string): (r: string)
    ensures |r| <= |s| && r == s[|s| - |r|..]
    ensures AllSpace(s[..|s| - |r|])
    ensures |r| > 0 ==> !IsSpace(r[0])
  {
    if |s| > 0 && IsSpace(s[0]) then TrimStart(s[1..]) else s
  }

  /** Drops trailing white space: the result is the prefix of `s` that ends
      at its last non-space character. */
  function TrimEnd(s: string): (r: string)
    ensures |r| <= |s| && r == s[..|r|]
    ensures AllSpace(s[|r|..])
    ensures |r| > 0 ==> !IsSpace(r[|r| - 1])
  {
    if |s| > 0 && IsSpace(s[|s| - 1]) then TrimEnd(s[..|s| - 1]) else s
  }

  /** `s.trim()`: no white space at either end, and empty exactly when `s`
      is all white space. */
  function Trim(s: string): (r: string)
    ensures |r| > 0 ==> !IsSpace(r[0]) && !IsSpace(r[|r| - 1])
    ensures r == "" <==> AllSpace(s)
  {
    var t := TrimStart(s);
    var r := TrimEnd(t);
    TrimEmptyIffAllSpace(s, t, r);
    r
  }

  lemma TrimEmptyIffAllSpace(s: string, t: string, r: string)
    requires t == TrimStart(s) && r == TrimEnd(t)
    ensures r == "" <==> AllSpace(s)
  {
    var i := |s| - |t|;
    if r == "" {
      assert AllSpace(t) by { assert t[|r|..] == t; }
      assert s == s[..i] + t;
      AllSpaceConcat(s[..i], t);
    } else {
      assert r[0] == t[0] == s[i];
      assert !IsSpace(s[i]);
    }
  }

  /** The trimmed string is a contiguous slice of `s` with only white space
      before and after it. */
  lemma TrimIsSlice(s: string)
    ensures var r := Trim(s);
      exists i :: 0 <= i <= |s| - |r| && r == s[i..i + |r|] && AllSpace(s[..i]) && AllSpace(s[i + |r|..])
  {
    var t := TrimStart(s);
    var r := TrimEnd(t);
    assert Trim(s) == r;
    var i := |s| - |t|;
    PrefixOfSuffix(s, i, t, r);
    assert AllSpace(s[..i]);
    assert AllSpace(s[i + |r|..]);
  }

  /** A prefix `r` of the suffix `t` of `s` that starts at `i` is a slice of
      `s`, and what follows it in `t` is what follows it in `s`. */
  lemma PrefixOfSuffix(s: string, i: nat, t: string, r: string)
    requires i <= |s| && t == s[i..]
    requires |r| <= |t| && r == t[..|r|]
    ensures r == s[i..i + |r|]
    ensures s[i + |r|..] == t[|r|..]
  {
  }

  lemma AllSpaceConcat(a: string, b: string)
    requires AllSpace(a) && AllSpace(b)
    ensures AllSpace(a + b)
  {
  }

  /** Trimming a string with no white space at either end returns it whole. */
  lemma TrimUntrimmed(s: string)
    requires |s| > 0 ==> !IsSpace(s[0]) && !IsSpace(s[|s| - 1])
    ensures Trim(s) == s
  {
  }

  /** `s.trim().trim() == s.trim()`. */
  lemma TrimIdempotent(s: string)
    ensures Trim(Trim(s)) == Trim(s)
  {
    TrimUntrimmed(Trim(s));
  }

  /** Code-point lexicographic order, `a <= b` on strings. For ASCII
      `YYYY-MM-DD` dates it agrees with both JavaScript's UTF-16 order and a
      binary database collation; that the dates compared are of that form is
      assumed, since only their length is validated. */
  predicate LexLe(a: string, b: string)
    decreases |a|
  {
    if |a| == 0 then true
    else if |b| == 0 then false
    else if a[0] != b[0] then a[0] < b[0]
    else LexLe(a[1..], b[1..])
  }

  /** A date lies within inclusive bounds equal to itself. */
  lemma {:induction false} LexLeReflexive(a: string)
    ensures LexLe(a, a)
    decreases |a|
  {
    if |a| > 0 { LexLeReflexive(a[1..]); }
  }

  /** Dates each ordered before the other are the same date. */
  lemma {:induction false} LexLeAntisymmetric(a: string, b: string)
    requires LexLe(a, b) && LexLe(b, a)
    ensures a == b
    decreases |a|
  {
    if |a| > 0 {
      LexLeAntisymmetric(a[1..], b[1..]);
      assert a == [a[0]] + a[1..] && b == [b[0]] + b[1..];
    }
  }

  /** The date order is transitive, as a sort key must be. */
  lemma {:induction false} LexLeTransitive(a: string, b: string, c: string)
    requires LexLe(a, b) && LexLe(b, c)
    ensures LexLe(a, c)
    decreases |a|
  {
    if |a| > 0 && a[0] == b[0] && b[0] == c[0] {
      LexLeTransitive(a[1..], b[1..], c[1..]);
    }
  }

  /** Any two dates are comparable. */
  lemma {:induction false} LexLeTotal(a: string, b: string)
    ensures LexLe(a, b) || LexLe(b, a)
    decreases |a|
  {
    if |a| > 0 && |b| > 0 && a[0] == b[0] {
      LexLeTotal(a[1..], b[1..]);
    }
  }
}
