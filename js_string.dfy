/**
  The JavaScript string primitives the core is built from: `split` with a
  one-character separator, `trim`, `toLowerCase` and `Array.prototype.join`.
  Strings are sequences of code points.
*/
module JsString {

  /** How often `c` occurs in `s`. */
  function Count(s: string, c: char): nat
  {
    if |s| == 0 then 0 else (if s[0] == c then 1 else 0) + Count(s[1..], c)
  }

  lemma {:induction false} CountAppend(a: string, b: string, c: char)
    ensures Count(a + b, c) == Count(a, c) + Count(b, c)
  {
    if |a| == 0 {
      assert a + b == b;
    } else {
      assert (a + b)[1..] == a[1..] + b;
      CountAppend(a[1..], b, c);
    }
  }

  /** `Count` is the multiplicity of `c` in `s`. */
  lemma {:induction false} CountMultiset(s: string, c: char)
    ensures Count(s, c) == multiset(s)[c]
  {
    if |s| > 0 {
      assert s == [s[0]] + s[1..];
      CountMultiset(s[1..], c);
    }
  }

  lemma {:induction false} CountAbsent(s: string, c: char)
    requires c !in s
    ensures Count(s, c) == 0
  {
    if |s| > 0 {
      CountAbsent(s[1..], c);
    }
  }

  // ---------------------------------------------------------------------------
  // join and split

  /** `parts.join(sep)`: the parts with `sep` between neighbours; `[].join(sep)` is "". */
  function Join(parts: seq<string>, sep: string): string
  {
    if |parts| == 0 then ""
    else if |parts| == 1 then parts[0]
    else parts[0] + sep + Join(parts[1..], sep)
  }

  /**
    `s.split(sep)` for a one-character separator: the maximal separator-free
    pieces of `s`, so there is always at least one piece ("" gives [""]), one
    more than there are separators, and joining them back gives `s`.
  */
  function Split(s: string, sep: char): (r: seq<string>)
    ensures |r| == Count(s, sep) + 1
    ensures forall i :: 0 <= i < |r| ==> sep !in r[i]
    ensures Join(r, [sep]) == s
    decreases |s|
  {
    if |s| == 0 then [""]
    else
      var rest := Split(s[1..], sep);
      if s[0] == sep then
        assert s == [sep] + s[1..];
        [""] + rest
      else
        var r := [[s[0]] + rest[0]] + rest[1..];
        assert Join(r, [sep]) == [s[0]] + Join(rest, [sep]) by {
          if |rest| > 1 {
            assert r[1..] == rest[1..];
          }
        }
        assert s == [s[0]] + s[1..];
        r
  }

  lemma {:induction false} SplitNoSeparator(p: string, sep: char)
    requires sep !in p
    ensures Split(p, sep) == [p]
  {
    if |p| > 0 {
      SplitNoSeparator(p[1..], sep);
    }
  }

  /** A separator-free prefix followed by the separator is split off as one piece. */
  lemma {:induction false} SplitAfterPiece(p: string, sep: char, rest: string)
    requires sep !in p
    ensures Split(p + [sep] + rest, sep) == [p] + Split(rest, sep)
    decreases |p|
  {
    var s := p + [sep] + rest;
    if |p| == 0 {
      assert s[1..] == rest;
    } else {
      assert s[1..] == p[1..] + [sep] + rest;
      SplitAfterPiece(p[1..], sep, rest);
      var tail := Split(s[1..], sep);
      assert tail[0] == p[1..] && tail[1..] == Split(rest, sep);
      assert [p[0]] + p[1..] == p;
    }
  }

  /** Splitting undoes joining, so long as no part holds the separator. */
  lemma {:induction false} SplitJoin(parts: seq<string>, sep: char)
    requires |parts| >= 1
    requires forall i :: 0 <= i < |parts| ==> sep !in parts[i]
    ensures Split(Join(parts, [sep]), sep) == parts
  {
    if |parts| == 1 {
      SplitNoSeparator(parts[0], sep);
    } else {
      SplitJoin(parts[1..], sep);
      SplitAfterPiece(parts[0], sep, Join(parts[1..], [sep]));
      assert parts == [parts[0]] + parts[1..];
    }
  }

  // ---------------------------------------------------------------------------
  // trim

  /**
    The WhiteSpace and LineTerminator code points of ECMA-262, which is the set
    `String.prototype.trim` removes: TAB, LF, VT, FF, CR, the byte-order mark,
    every space separator (category Zs) and the line and paragraph separators.
  */
  predicate IsTrimmable(c: char)
  {
    || c == '\t' || c == '\n' || c == '\U{B}' || c == '\U{C}' || c == '\r'
    || c == ' ' || c == '\U{A0}' || c == '\U{1680}'
    || ('\U{2000}' <= c <= '\U{200A}')
    || c == '\U{2028}' || c == '\U{2029}' || c == '\U{202F}' || c == '\U{205F}'
    || c == '\U{3000}' || c == '\U{FEFF}'
  }

  /** Neither end of `s` is trimmable. */
  predicate IsTrimmed(s: string)
  {
    s == [] || (!IsTrimmable(s[0]) && !IsTrimmable(s[|s| - 1]))
  }

  /** The index of the first non-trimmable character of `s` at or after `i` (|s| if none). */
  function SkipLeading(s: string, i: nat): (n: nat)
    requires i <= |s|
    ensures i <= n <= |s|
    ensures forall k :: i <= k < n ==> IsTrimmable(s[k])
    ensures n == |s| || !IsTrimmable(s[n])
    decreases |s| - i
  {
    if i < |s| && IsTrimmable(s[i]) then SkipLeading(s, i + 1) else i
  }

  /** The end of `s[lo..j]` once its trailing trimmable characters are dropped. */
  function SkipTrailing(s: string, lo: nat, j: nat): (e: nat)
    requires lo <= j <= |s|
    ensures lo <= e <= j
    ensures forall k :: e <= k < j ==> IsTrimmable(s[k])
    ensures e == lo || !IsTrimmable(s[e - 1])
    decreases j - lo
  {
    if lo < j && IsTrimmable(s[j - 1]) then SkipTrailing(s, lo, j - 1) else j
  }

  /**
    `s.trim()`: the slice `s[lead..lead + |r|]` that is left once the trimmable
    characters at both ends are gone; its own ends are not trimmable.
  */
  function Trim(s: string): (r: string)
    ensures IsTrimmed(r)
    ensures |r| <= |s|
    ensures exists lead :: TrimmedSlice(s, r, lead)
  {
    var lead := SkipLeading(s, 0);
    var e := SkipTrailing(s, lead, |s|);
    assert TrimmedSlice(s, s[lead..e], lead);
    s[lead..e]
  }

  /** `r` is `s[lead..lead + |r|]` and only trimmable characters lie outside it. */
  predicate TrimmedSlice(s: string, r: string, lead: int)
  {
    && 0 <= lead <= lead + |r| <= |s|
    && r == s[lead..lead + |r|]
    && (forall k :: 0 <= k < lead ==> IsTrimmable(s[k]))
    && (forall k :: lead + |r| <= k < |s| ==> IsTrimmable(s[k]))
  }

  /** Trimming keeps only characters of the input. */
  lemma TrimSubset(s: string, c: char)
    requires c in Trim(s)
    ensures c in s
  {
    var lead :| TrimmedSlice(s, Trim(s), lead);
    var r := Trim(s);
    var i :| 0 <= i < |r| && r[i] == c;
    assert s[lead + i] == c;
  }

  /** A string whose ends are not trimmable is left as it is. */
  lemma TrimOfTrimmed(s: string)
    requires IsTrimmed(s)
    ensures Trim(s) == s
  {
  }

  lemma TrimIdempotent(s: string)
    ensures Trim(Trim(s)) == Trim(s)
  {
    TrimOfTrimmed(Trim(s));
  }

  // ---------------------------------------------------------------------------
  // toLowerCase (ASCII letters only)

  function LowerChar(c: char): char
  {
    if 'A' <= c <= 'Z' then (c as int + 32) as char else c
  }

  predicate HasNoUpper(s: string)
  {
    forall i :: 0 <= i < |s| ==> !('A' <= s[i] <= 'Z')
  }

  /** `s.toLowerCase()` restricted to the ASCII letters A-Z. */
  function ToLower(s: string): (r: string)
    ensures |r| == |s| && HasNoUpper(r)
    ensures forall i :: 0 <= i < |s| && 'A' <= s[i] <= 'Z' ==> r[i] as int == s[i] as int + 32
    ensures forall i :: 0 <= i < |s| && !('A' <= s[i] <= 'Z') ==> r[i] == s[i]
  {
    seq(|s|, i requires 0 <= i < |s| => LowerChar(s[i]))
  }

  /** A string with no upper-case letter is its own lower case; so lower-casing twice is lower-casing once. */
  lemma ToLowerOfLower(s: string)
    requires HasNoUpper(s)
    ensures ToLower(s) == s
  {
  }
}
