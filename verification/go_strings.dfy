/**
 * The handful of Go `strings` operations the triage code relies on, over
 * `string` = `seq<char>` (one `char` per Unicode code point).
 */
module GoStrings {

  /** Go's `unicode.IsSpace`: the Latin-1 spaces plus the other Unicode White_Space code points. */
  predicate IsSpace(c: char) {
    || c == '\t' || c == '\n' || c == '\U{000B}' || c == '\U{000C}' || c == '\r' || c == ' '
    || c == '\U{0085}' || c == '\U{00A0}' || c == '\U{1680}'
    || ('\U{2000}' <= c <= '\U{200A}')
    || c == '\U{2028}' || c == '\U{2029}' || c == '\U{202F}' || c == '\U{205F}' || c == '\U{3000}'
  }

  predicate AllSpace(s: string) {
    forall i :: 0 <= i < |s| ==> IsSpace(s[i])
  }

  /** A string with no white space at either end: what `strings.TrimSpace` always returns. */
  predicate Trimmed(s: string) {
    |s| == 0 || (!IsSpace(s[0]) && !IsSpace(s[|s| - 1]))
  }

  function TrimLeftSpace(s: string): (r: string)
    ensures |r| <= |s|
    ensures AllSpace(s[..|s| - |r|])
    ensures |r| == 0 || !IsSpace(r[0])
  {
    if |s| > 0 && IsSpace(s[0]) then TrimLeftSpace(s[1..]) else s
  }

  function TrimRightSpace(s: string): (r: string)
    ensures |r| <= |s| && r == s[..|r|]
    ensures AllSpace(s[|r|..])
    ensures |r| == 0 || !IsSpace(r[|r| - 1])
  {
    if |s| > 0 && IsSpace(s[|s| - 1]) then TrimRightSpace(s[..|s| - 1]) else s
  }

  /** `strings.TrimSpace`: drops leading and trailing white space. */
  function TrimSpace(s: string): (r: string)
    ensures |r| <= |s|
    ensures Trimmed(r)
  {
    TrimRightSpace(TrimLeftSpace(s))
  }

  lemma {:induction false} TrimLeftOfPadded(a: string, t: string)
    requires AllSpace(a)
    requires |t| == 0 || !IsSpace(t[0])
    ensures TrimLeftSpace(a + t) == t
    decreases |a|
  {
    if |a| > 0 {
      assert (a + t)[1..] == a[1..] + t;
      TrimLeftOfPadded(a[1..], t);
    } else {
      assert a + t == t;
    }
  }

  lemma {:induction false} TrimRightOfPadded(t: string, b: string)
    requires AllSpace(b)
    requires |t| == 0 || !IsSpace(t[|t| - 1])
    ensures TrimRightSpace(t + b) == t
    decreases |b|
  {
    if |b| > 0 {
      assert (t + b)[..|t + b| - 1] == t + b[..|b| - 1];
      TrimRightOfPadded(t, b[..|b| - 1]);
    } else {
      assert t + b == t;
    }
  }

  /**
   * `TrimSpace` is determined by its result: whatever white space surrounds a
   * trimmed middle part, exactly that middle part comes back.
   */
  lemma TrimSpaceOfPadded(a: string, m: string, b: string)
    requires AllSpace(a) && AllSpace(b) && Trimmed(m)
    ensures TrimSpace(a + m + b) == m
  {
    if |m| > 0 {
      assert a + m + b == a + (m + b);
      TrimLeftOfPadded(a, m + b);
      TrimRightOfPadded(m, b);
    } else {
      assert a + m + b == (a + b) + "";
      TrimLeftOfPadded(a + b, "");
    }
  }

  lemma TrimSpaceIdempotent(s: string)
    ensures TrimSpace(TrimSpace(s)) == TrimSpace(s)
  {
    TrimSpaceOfTrimmed(TrimSpace(s));
  }

  predicate HasPrefix(s: string, p: string) {
    |p| <= |s| && s[..|p|] == p
  }

  predicate HasSuffix(s: string, p: string) {
    |p| <= |s| && s[|s| - |p|..] == p
  }

  /** `strings.TrimPrefix`: removes one occurrence of `p` at the front, if there is one. */
  function TrimPrefix(s: string, p: string): (r: string)
    ensures |r| <= |s|
    ensures HasPrefix(s, p) ==> s == p + r
    ensures !HasPrefix(s, p) ==> r == s
  {
    if HasPrefix(s, p) then s[|p|..] else s
  }

  /** `strings.TrimSuffix`: removes one occurrence of `p` at the end, if there is one. */
  function TrimSuffix(s: string, p: string): (r: string)
    ensures |r| <= |s|
    ensures HasSuffix(s, p) ==> s == r + p
    ensures !HasSuffix(s, p) ==> r == s
  {
    if HasSuffix(s, p) then s[..|s| - |p|] else s
  }

  lemma TrimPrefixOfConcat(p: string, s: string)
    ensures TrimPrefix(p + s, p) == s
  {
    assert (p + s)[..|p|] == p;
  }

  lemma TrimSuffixOfConcat(s: string, p: string)
    ensures TrimSuffix(s + p, p) == s
  {
    assert (s + p)[|s|..] == p;
  }

  lemma PrefixOfLongerPrefix(s: string, p: string, q: string)
    ensures HasPrefix(s, p + q) ==> HasPrefix(s, p)
  {
    if HasPrefix(s, p + q) {
      assert s[..|p|] == (p + q)[..|p|];
    }
  }

  /** A string whose first character differs from that of `p` does not start with `p`. */
  lemma NoPrefixByFirst(s: string, p: string)
    requires |s| > 0 && |p| > 0 && s[0] != p[0]
    ensures !HasPrefix(s, p)
  {
  }

  lemma AffixesOfConcat(p: string, m: string, s: string)
    ensures HasPrefix(p + m + s, p) && HasSuffix(p + m + s, s)
  {
    assert (p + m + s)[..|p|] == p;
    assert (p + m + s)[|p + m|..] == s;
  }

  /** The middle of a three-part concatenation is found at its offset. */
  lemma QuotedBetween(p: string, m: string, s: string)
    ensures |p + m + s| == |p| + |m| + |s|
    ensures HasPrefix(p + m + s, p) && HasSuffix(p + m + s, s)
    ensures (p + m + s)[|p|..|p| + |m|] == m
  {
    AffixesOfConcat(p, m, s);
    assert (p + m + s)[|p|..|p| + |m|] == m;
  }

  /** A trimmed string is its own `TrimSpace`. */
  lemma TrimSpaceOfTrimmed(s: string)
    requires Trimmed(s)
    ensures TrimSpace(s) == s
  {
    assert s == "" + s + "";
    TrimSpaceOfPadded("", s, "");
  }

  /**
   * `r` is `a`, `x`, `b`, `y`, `c`, `z`, `d` written one after the other:
   * it opens with `a`, ends with `d`, and holds `x`, `y` and `z` at the
   * offsets the labels before them leave.
   */
  predicate FieldsAt(r: string, a: string, x: string, b: string, y: string, c: string, z: string, d: string) {
    var i := |a|;
    var j := i + |x| + |b|;
    var k := j + |y| + |c|;
    && |r| == k + |z| + |d|
    && HasPrefix(r, a)
    && r[i..i + |x|] == x
    && r[j..j + |y|] == y
    && r[k..k + |z|] == z
    && HasSuffix(r, d)
  }

  lemma FieldsBetween(a: string, x: string, b: string, y: string, c: string, z: string, d: string)
    ensures FieldsAt(a + x + b + y + c + z + d, a, x, b, y, c, z, d)
  {
  }

  /** `strings.ReplaceAll(s, from, to)` for one-character `from` and `to`. */
  function ReplaceChar(s: string, from: char, to: char): (r: string)
    ensures |r| == |s|
    ensures from != to ==> from !in r
    ensures forall i :: 0 <= i < |s| && s[i] != from ==> r[i] == s[i]
    ensures forall i :: 0 <= i < |s| && s[i] == from ==> r[i] == to
  {
    if |s| == 0 then "" else (if s[0] == from then [to] else [s[0]]) + ReplaceChar(s[1..], from, to)
  }

  /**
   * `strings.ToUpper`, restricted to the code points whose upper case is a
   * Latin capital: `a`..`z` and U+017F (long s, whose upper case is `S`).
   * Other code points are left unchanged.
   */
  function ToUpperChar(c: char): char {
    if 'a' <= c <= 'z' then (c as int - 32) as char
    else if c == '\U{017F}' then 'S'
    else c
  }

  function ToUpper(s: string): (r: string)
    ensures |r| == |s|
    ensures forall i :: 0 <= i < |s| ==> r[i] == ToUpperChar(s[i])
  {
    if |s| == 0 then "" else [ToUpperChar(s[0])] + ToUpper(s[1..])
  }

  /** Upper-casing works character by character, so it distributes over concatenation. */
  lemma UpperConcat(x: string, y: string)
    ensures ToUpper(x + y) == ToUpper(x) + ToUpper(y)
  {
    forall i | 0 <= i < |x + y| ensures ToUpper(x + y)[i] == (ToUpper(x) + ToUpper(y))[i] {
      if i < |x| {
        assert (x + y)[i] == x[i];
      } else {
        assert (x + y)[i] == y[i - |x|];
      }
    }
  }

  /** Upper-casing leaves white space alone. */
  lemma UpperOfSpace(s: string)
    requires AllSpace(s)
    ensures ToUpper(s) == s
  {
    forall i | 0 <= i < |s| ensures ToUpper(s)[i] == s[i] {
      assert IsSpace(s[i]);
    }
  }

  /** Upper-casing makes no new white space at either end. */
  lemma UpperOfTrimmed(s: string)
    requires Trimmed(s)
    ensures Trimmed(ToUpper(s))
  {
  }

  /** Concatenation of a sequence of strings, in order. */
  function Concat(parts: seq<string>): string {
    if |parts| == 0 then "" else parts[0] + Concat(parts[1..])
  }

  lemma {:induction false} ConcatAppend(parts: seq<string>, last: string)
    ensures Concat(parts + [last]) == Concat(parts) + last
  {
    if |parts| == 0 {
      assert parts + [last] == [last];
    } else {
      assert (parts + [last])[1..] == parts[1..] + [last];
      ConcatAppend(parts[1..], last);
    }
  }

  /** `strings.Join(parts, sep)` for a one-character separator. */
  function Join(parts: seq<string>, sep: char): string {
    if |parts| == 0 then ""
    else if |parts| == 1 then parts[0]
    else parts[0] + [sep] + Join(parts[1..], sep)
  }

  /** A join holds a character other than the separator only where some part holds it. */
  lemma {:induction false} JoinAbsent(parts: seq<string>, sep: char, c: char)
    requires c != sep
    requires forall k :: 0 <= k < |parts| ==> c !in parts[k]
    ensures c !in Join(parts, sep)
    decreases |parts|
  {
    if |parts| > 1 {
      JoinAbsent(parts[1..], sep, c);
    }
  }

  function IndexOf(s: string, c: char): (i: nat)
    requires c in s
    ensures i < |s| && s[i] == c && c !in s[..i]
  {
    if s[0] == c then 0 else 1 + IndexOf(s[1..], c)
  }

  /** `strings.Split(s, sep)` for a one-character separator: never empty, one more part than separators. */
  function Split(s: string, sep: char): (r: seq<string>)
    ensures |r| > 0
    ensures forall k :: 0 <= k < |r| ==> sep !in r[k]
    decreases |s|
  {
    if sep !in s then [s]
    else
      var i := IndexOf(s, sep);
      [s[..i]] + Split(s[i + 1..], sep)
  }

  /** Splitting a join gives the parts back, as long as no part holds the separator. */
  lemma {:induction false} SplitJoin(parts: seq<string>, sep: char)
    requires |parts| > 0
    requires forall k :: 0 <= k < |parts| ==> sep !in parts[k]
    ensures Split(Join(parts, sep), sep) == parts
    decreases |parts|
  {
    if |parts| > 1 {
      var s := Join(parts, sep);
      var p := parts[0];
      var rest := Join(parts[1..], sep);
      assert s == p + [sep] + rest;
      assert s[|p|] == sep;
      assert s[..|p|] == p;
      assert sep in s;
      assert IndexOf(s, sep) == |p|;
      assert s[|p| + 1..] == rest;
      SplitJoin(parts[1..], sep);
    }
  }

  function Count(s: string, c: char): nat {
    if |s| == 0 then 0 else (if s[0] == c then 1 else 0) + Count(s[1..], c)
  }

  lemma {:induction false} CountConcat(a: string, b: string, c: char)
    ensures Count(a + b, c) == Count(a, c) + Count(b, c)
  {
    if |a| == 0 {
      assert a + b == b;
    } else {
      assert (a + b)[1..] == a[1..] + b;
      CountConcat(a[1..], b, c);
    }
  }

  lemma {:induction false} CountAbsent(s: string, c: char)
    requires c !in s
    ensures Count(s, c) == 0
  {
    if |s| > 0 {
      assert c !in s[1..];
      CountAbsent(s[1..], c);
    }
  }

  /** A join of parts free of the separator holds one separator fewer than there are parts. */
  lemma {:induction false} CountJoin(parts: seq<string>, sep: char)
    requires |parts| > 0
    requires forall k :: 0 <= k < |parts| ==> sep !in parts[k]
    ensures Count(Join(parts, sep), sep) == |parts| - 1
    decreases |parts|
  {
    CountAbsent(parts[0], sep);
    if |parts| > 1 {
      CountJoin(parts[1..], sep);
      CountConcat(parts[0] + [sep], Join(parts[1..], sep), sep);
      CountConcat(parts[0], [sep], sep);
      assert [sep][1..] == [];
    }
  }
}
