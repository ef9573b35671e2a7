/**
  The JavaScript string built-ins the application relies on, written out:
  `String.prototype.trim`, `toLowerCase`, `split` with a one-character
  separator, `Array.prototype.join`, and `length` (which counts UTF-16 code
  units, not code points).
 */
module Text {

  /** ECMAScript WhiteSpace and LineTerminator code points: what `trim` removes. */
  predicate IsSpace(c: char) {
    || c == '\t' || c == '\U{000B}' || c == '\U{000C}' || c == ' '
    || c == '\U{00A0}' || c == '\U{FEFF}' || c == '\U{1680}'
    || ('\U{2000}' <= c <= '\U{200A}')
    || c == '\U{202F}' || c == '\U{205F}' || c == '\U{3000}'
    || c == '\n' || c == '\r' || c == '\U{2028}' || c == '\U{2029}'
  }

  predicate AllSpace(s: string) {
    forall i :: 0 <= i < |s| ==> IsSpace(s[i])
  }

  /** No white space at either end. */
  predicate Trimmed(s: string) {
    s == [] || (!IsSpace(s[0]) && !IsSpace(s[|s| - 1]))
  }

  /** Number of white-space characters at the start of `s`. */
  function LeadingSpace(s: string): (n: nat)
    ensures n <= |s|
  {
    if s != [] && IsSpace(s[0]) then 1 + LeadingSpace(s[1..]) else 0
  }

  /** Number of white-space characters at the end of `s`. */
  function TrailingSpace(s: string): (n: nat)
    ensures n <= |s|
  {
    if s != [] && IsSpace(s[|s| - 1]) then 1 + TrailingSpace(s[..|s| - 1]) else 0
  }

  /** `LeadingSpace` counts exactly the white-space prefix. */
  lemma {:induction false} LeadingSpaceSpec(s: string)
    ensures AllSpace(s[..LeadingSpace(s)])
    ensures LeadingSpace(s) < |s| ==> !IsSpace(s[LeadingSpace(s)])
  {
    if s != [] && IsSpace(s[0]) {
      LeadingSpaceSpec(s[1..]);
      var n := LeadingSpace(s[1..]);
      forall i | 0 <= i < n + 1 ensures IsSpace(s[i]) {
        if i > 0 { assert s[i] == s[1..][..n][i - 1]; }
      }
    }
  }

  /** `TrailingSpace` counts exactly the white-space suffix. */
  lemma {:induction false} TrailingSpaceSpec(s: string)
    ensures AllSpace(s[|s| - TrailingSpace(s)..])
    ensures TrailingSpace(s) < |s| ==> !IsSpace(s[|s| - TrailingSpace(s) - 1])
  {
    if s != [] && IsSpace(s[|s| - 1]) {
      var s' := s[..|s| - 1];
      TrailingSpaceSpec(s');
      var n := TrailingSpace(s');
      forall i | |s| - (n + 1) <= i < |s| ensures IsSpace(s[i]) {
        if i < |s| - 1 { assert s[i] == s'[|s'| - n..][i - (|s| - (n + 1))]; }
      }
    }
  }

  /** `s.trim()`: `s` with the white space at both ends removed. */
  function Trim(s: string): (r: string)
    ensures |r| <= |s|
  {
    var t := s[LeadingSpace(s)..];
    t[..|t| - TrailingSpace(t)]
  }

  /** `trim` leaves no white space at either end. */
  lemma TrimIsTrimmed(s: string)
    ensures Trimmed(Trim(s))
  {
    var a := LeadingSpace(s);
    var t := s[a..];
    var b := TrailingSpace(t);
    var r := t[..|t| - b];
    assert Trim(s) == r;
    if r != [] {
      LeadingSpaceSpec(s);
      TrailingSpaceSpec(t);
      assert r[0] == s[a];
      assert r[|r| - 1] == t[|t| - b - 1];
    }
  }

  /** What follows `Trim(s)` in `s` is white space. */
  lemma TrimSuffixIsSpace(s: string)
    ensures LeadingSpace(s) + |Trim(s)| <= |s|
    ensures AllSpace(s[LeadingSpace(s) + |Trim(s)|..])
  {
    var a := LeadingSpace(s);
    var t := s[a..];
    var b := TrailingSpace(t);
    assert Trim(s) == t[..|t| - b];
    assert s[a + (|t| - b)..] == t[|t| - b..];
    TrailingSpaceSpec(t);
  }

  /** What `trim` leaves: a trimmed middle, with only white space cut on either side. */
  lemma TrimSpec(s: string)
    ensures Trimmed(Trim(s))
    ensures LeadingSpace(s) + |Trim(s)| <= |s|
    ensures Trim(s) == s[LeadingSpace(s)..LeadingSpace(s) + |Trim(s)|]
    ensures AllSpace(s[..LeadingSpace(s)]) && AllSpace(s[LeadingSpace(s) + |Trim(s)|..])
  {
    TrimIsTrimmed(s);
    TrimSuffixIsSpace(s);
    LeadingSpaceSpec(s);
  }

  lemma {:induction false} LeadingSpaceIs(s: string, n: nat)
    requires n <= |s| && AllSpace(s[..n]) && (n < |s| ==> !IsSpace(s[n]))
    ensures LeadingSpace(s) == n
  {
    if n > 0 {
      assert IsSpace(s[..n][0]);
      assert s[1..][..n - 1] == s[..n][1..];
      LeadingSpaceIs(s[1..], n - 1);
    }
  }

  lemma {:induction false} TrailingSpaceIs(s: string, n: nat)
    requires n <= |s| && AllSpace(s[|s| - n..]) && (n < |s| ==> !IsSpace(s[|s| - n - 1]))
    ensures TrailingSpace(s) == n
  {
    if n > 0 {
      var tail := s[|s| - n..];
      assert tail[n - 1] == s[|s| - 1];
      var s' := s[..|s| - 1];
      var tail' := s'[|s'| - (n - 1)..];
      forall i | 0 <= i < |tail'| ensures IsSpace(tail'[i]) {
        assert tail'[i] == tail[i];
      }
      TrailingSpaceIs(s', n - 1);
    }
  }

  /** Trim is determined by any split of `s` into blank, trimmed, blank. */
  lemma TrimUnique(p: string, m: string, q: string)
    requires AllSpace(p) && AllSpace(q) && Trimmed(m)
    ensures Trim(p + m + q) == m
  {
    var s := p + m + q;
    if m == [] {
      assert s == p + q;
      LeadingSpaceIs(s, |s|);
      assert s[|s|..] == [];
    } else {
      assert s[..|p|] == p;
      assert s[|p|] == m[0];
      LeadingSpaceIs(s, |p|);
      var t := s[|p|..];
      assert t == m + q;
      assert t[|t| - |q|..] == q;
      assert t[|t| - |q| - 1] == m[|m| - 1];
      TrailingSpaceIs(t, |q|);
      assert t[..|t| - |q|] == m;
    }
  }

  /** Trimming a trimmed string changes nothing. */
  lemma TrimTrimmed(s: string)
    requires Trimmed(s)
    ensures Trim(s) == s
  {
    TrimUnique([], s, []);
    assert [] + s + [] == s;
  }

  /** `trim` is idempotent. */
  lemma TrimIdempotent(s: string)
    ensures Trim(Trim(s)) == Trim(s)
  {
    TrimSpec(s);
    TrimTrimmed(Trim(s));
  }

  /** Two blank strings make a blank string. */
  lemma AllSpaceConcat(p: string, q: string)
    requires AllSpace(p) && AllSpace(q)
    ensures AllSpace(p + q)
  {
    forall i | 0 <= i < |p + q| ensures IsSpace((p + q)[i]) {
      if i >= |p| { assert (p + q)[i] == q[i - |p|]; }
    }
  }

  lemma Regroup(p: string, x: string, m: string, y: string, q: string)
    ensures p + (x + m + y) + q == (p + x) + m + (y + q)
  {
  }

  /** White space added around a string does not survive `trim`. */
  lemma TrimPadding(p: string, s: string, q: string)
    requires AllSpace(p) && AllSpace(q)
    ensures Trim(p + s + q) == Trim(s)
  {
    TrimSpec(s);
    var a := LeadingSpace(s);
    var m := Trim(s);
    var p' := p + s[..a];
    var q' := s[a + |m|..] + q;
    AllSpaceConcat(p, s[..a]);
    AllSpaceConcat(s[a + |m|..], q);
    assert s == s[..a] + m + s[a + |m|..];
    Regroup(p, s[..a], m, s[a + |m|..], q);
    TrimUnique(p', m, q');
  }

  /** `trim()` yields the empty string exactly for blank input. */
  lemma TrimEmptyIffBlank(s: string)
    ensures Trim(s) == [] <==> AllSpace(s)
  {
    TrimSpec(s);
    if AllSpace(s) {
      TrimUnique(s, [], []);
      assert s + [] + [] == s;
    }
  }

  /** `toLowerCase` on one character. Only the Basic Latin capitals A-Z and
      the Cyrillic capitals U+0400-U+042F are mapped; other characters,
      including the Cyrillic capitals of later blocks, are kept. */
  function LowerChar(c: char): (r: char)
    ensures ('A' <= c <= 'Z') ==> r as int == c as int + 32
  {
    if 'A' <= c <= 'Z' then (c as int + 32) as char
    else if '\U{0410}' <= c <= '\U{042F}' then (c as int + 32) as char
    else if '\U{0400}' <= c <= '\U{040F}' then (c as int + 80) as char
    else c
  }

  /** `s.toLowerCase()`. */
  function ToLowerCase(s: string): (r: string)
    ensures |r| == |s|
  {
    if s == [] then [] else [LowerChar(s[0])] + ToLowerCase(s[1..])
  }

  /** `toLowerCase` maps each character on its own. */
  lemma {:induction false} ToLowerCaseAt(s: string)
    ensures forall i :: 0 <= i < |s| ==> ToLowerCase(s)[i] == LowerChar(s[i])
  {
    if s != [] {
      ToLowerCaseAt(s[1..]);
    }
  }

  /** Lower-casing never turns white space into anything else, or back. */
  lemma LowerCharKeepsSpace(c: char)
    ensures IsSpace(LowerChar(c)) == IsSpace(c)
  {
  }

  lemma LowerCharIdempotent(c: char)
    ensures LowerChar(LowerChar(c)) == LowerChar(c)
  {
  }

  /** Lower-casing twice is lower-casing once. */
  lemma ToLowerCaseIdempotent(s: string)
    ensures ToLowerCase(ToLowerCase(s)) == ToLowerCase(s)
  {
    ToLowerCaseAt(s);
    ToLowerCaseAt(ToLowerCase(s));
    forall i | 0 <= i < |s| ensures ToLowerCase(ToLowerCase(s))[i] == ToLowerCase(s)[i] {
      LowerCharIdempotent(s[i]);
    }
  }

  /** `toLowerCase` distributes over concatenation. */
  lemma ToLowerCaseAppend(a: string, b: string)
    ensures ToLowerCase(a + b) == ToLowerCase(a) + ToLowerCase(b)
  {
    ToLowerCaseAt(a + b);
    ToLowerCaseAt(a);
    ToLowerCaseAt(b);
  }

  lemma ToLowerCaseKeepsSpace(s: string)
    ensures AllSpace(ToLowerCase(s)) == AllSpace(s)
  {
    ToLowerCaseAt(s);
    forall i | 0 <= i < |s| ensures IsSpace(ToLowerCase(s)[i]) == IsSpace(s[i]) {
      LowerCharKeepsSpace(s[i]);
    }
  }

  lemma ToLowerCaseKeepsTrimmed(s: string)
    requires Trimmed(s)
    ensures Trimmed(ToLowerCase(s))
  {
    ToLowerCaseAt(s);
    if s != [] {
      LowerCharKeepsSpace(s[0]);
      LowerCharKeepsSpace(s[|s| - 1]);
    }
  }

  /** Trimming and lower-casing commute. */
  lemma {:induction false} TrimToLowerCaseCommute(s: string)
    ensures Trim(ToLowerCase(s)) == ToLowerCase(Trim(s))
  {
    TrimSpec(s);
    var a := LeadingSpace(s);
    var m := Trim(s);
    var p := s[..a];
    var q := s[a + |m|..];
    assert s == p + m + q;
    ToLowerCaseAppend(p + m, q);
    ToLowerCaseAppend(p, m);
    ToLowerCaseKeepsSpace(p);
    ToLowerCaseKeepsSpace(q);
    ToLowerCaseKeepsTrimmed(m);
    TrimUnique(ToLowerCase(p), ToLowerCase(m), ToLowerCase(q));
  }

  /** `s.length`: UTF-16 code units, two for a code point outside the Basic
      Multilingual Plane. */
  function Utf16Length(s: string): (n: nat)
    ensures |s| <= n <= 2 * |s|
    ensures n == 0 <==> s == []
  {
    if s == [] then 0 else (if s[0] as int > 0xFFFF then 2 else 1) + Utf16Length(s[1..])
  }

  /** `parts.join(sep)` for a one-character separator. */
  function Join(parts: seq<string>, sep: char): string
    requires |parts| >= 1
  {
    if |parts| == 1 then parts[0] else parts[0] + [sep] + Join(parts[1..], sep)
  }

  /** Every piece of a join is no longer than the joined string. */
  lemma {:induction false} JoinHasPart(parts: seq<string>, sep: char, i: nat)
    requires i < |parts|
    ensures |parts[i]| <= |Join(parts, sep)|
  {
    if |parts| > 1 && i > 0 {
      JoinHasPart(parts[1..], sep, i - 1);
    }
  }

  /** `s.split(sep)` for a one-character separator. */
  function Split(s: string, sep: char): (r: seq<string>)
    ensures |r| >= 1
    ensures forall i :: 0 <= i < |r| ==> sep !in r[i]
    ensures Join(r, sep) == s
    ensures r[0] == s[..|r[0]|]
    ensures |r| > 1 ==> |r[0]| < |s| && s[|r[0]|] == sep
  {
    if s == [] then [""]
    else
      var rest := Split(s[1..], sep);
      assert s == [s[0]] + s[1..];
      if s[0] == sep then
        var r := [""] + rest;
        assert r[1..] == rest;
        r
      else
        var r := [[s[0]] + rest[0]] + rest[1..];
        assert r[1..] == rest[1..];
        assert Join(r, sep) == [s[0]] + Join(rest, sep);
        r
  }

  /** Splitting undoes joining, for pieces that do not hold the separator. */
  lemma {:induction false} SplitJoin(parts: seq<string>, sep: char)
    requires |parts| >= 1
    requires forall i :: 0 <= i < |parts| ==> sep !in parts[i]
    ensures Split(Join(parts, sep), sep) == parts
  {
    if |parts| == 1 {
      SplitNoSeparator(parts[0], sep);
    } else {
      SplitJoin(parts[1..], sep);
      SplitPrefix(parts[0], Join(parts[1..], sep), sep);
    }
  }

  /** `split` yields a single piece exactly when the separator does not occur. */
  lemma SplitSingleIff(s: string, sep: char)
    ensures |Split(s, sep)| == 1 <==> sep !in s
  {
    if sep !in s {
      SplitNoSeparator(s, sep);
    }
  }

  lemma {:induction false} SplitNoSeparator(s: string, sep: char)
    requires sep !in s
    ensures Split(s, sep) == [s]
  {
    if s != [] {
      SplitNoSeparator(s[1..], sep);
    }
  }

  lemma {:induction false} SplitPrefix(a: string, b: string, sep: char)
    requires sep !in a
    ensures Split(a + [sep] + b, sep) == [a] + Split(b, sep)
  {
    if a == [] {
      assert a + [sep] + b == [sep] + b;
      assert ([sep] + b)[1..] == b;
    } else {
      assert (a + [sep] + b)[1..] == a[1..] + [sep] + b;
      SplitPrefix(a[1..], b, sep);
      assert [a[0]] + a[1..] == a;
    }
  }

  /** Whether `s` starts with `prefix`. */
  predicate StartsWith(s: string, prefix: string) {
    |prefix| <= |s| && s[..|prefix|] == prefix
  }
}
