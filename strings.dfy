/**
 * String operations of Python's `str` that the benchmark's scripts rely on:
 * substring containment, case mapping, digit strings and `int()`, zero-padded
 * formatting, `strip`, `split` and `join`, and code-point ordering.
 * Character classes are the ASCII ones (see README, "Left out").
 */
module Strings {
  import opened Sorting

  // ---------------------------------------------------------------------
  // Prefixes, suffixes, containment
  // ---------------------------------------------------------------------

  predicate IsPrefix(p: string, s: string) {
    |p| <= |s| && s[..|p|] == p
  }

  predicate IsSuffix(p: string, s: string) {
    |p| <= |s| && s[|s| - |p|..] == p
  }

  /** Python's `needle in hay` for two strings. */
  predicate Contains(needle: string, hay: string)
    decreases |hay|
  {
    IsPrefix(needle, hay) || (|hay| > 0 && Contains(needle, hay[1..]))
  }

  /** The empty string is contained in every string. */
  lemma ContainsEmpty(hay: string)
    ensures Contains("", hay)
  {
    assert IsPrefix("", hay);
  }

  /** `needle` occurs in `hay` at offset `k`. */
  predicate OccursAt(needle: string, hay: string, k: int) {
    0 <= k && k + |needle| <= |hay| && hay[k..k + |needle|] == needle
  }

  /** `Contains` holds exactly when the needle occurs at some offset. */
  lemma {:induction false} ContainsIffOccurs(needle: string, hay: string)
    ensures Contains(needle, hay) <==> exists k :: OccursAt(needle, hay, k)
    decreases |hay|
  {
    if |hay| > 0 { ContainsIffOccurs(needle, hay[1..]); }
    if Contains(needle, hay) {
      if IsPrefix(needle, hay) {
        assert OccursAt(needle, hay, 0);
      } else {
        var k :| OccursAt(needle, hay[1..], k);
        assert hay[1..][k..k + |needle|] == hay[k + 1..k + 1 + |needle|];
        assert OccursAt(needle, hay, k + 1);
      }
    }
    if exists k :: OccursAt(needle, hay, k) {
      var k :| OccursAt(needle, hay, k);
      if k == 0 {
        assert IsPrefix(needle, hay);
      } else {
        assert hay[1..][k - 1..k - 1 + |needle|] == hay[k..k + |needle|];
        assert OccursAt(needle, hay[1..], k - 1);
      }
    }
  }

  /** Every string contains itself. */
  lemma ContainsSelf(s: string)
    ensures Contains(s, s)
  {
    assert IsPrefix(s, s);
  }

  // ---------------------------------------------------------------------
  // Character classes and case mapping
  // ---------------------------------------------------------------------

  predicate IsUpperChar(c: char) { 'A' <= c <= 'Z' }
  predicate IsLowerChar(c: char) { 'a' <= c <= 'z' }
  predicate IsDigitChar(c: char) { '0' <= c <= '9' }

  /** The whitespace of `str.isspace()` within the ASCII range. */
  predicate IsSpaceChar(c: char) {
    c == ' ' || c == '\t' || c == '\n' || c == '\r' || c == '\U{B}' || c == '\U{C}'
    || c == '\U{1C}' || c == '\U{1D}' || c == '\U{1E}' || c == '\U{1F}'
  }

  function LowerChar(c: char): (r: char)
    ensures !IsUpperChar(r)
    ensures IsUpperChar(c) ==> IsLowerChar(r)
    ensures !IsUpperChar(c) ==> r == c
  {
    if IsUpperChar(c) then (c as int + 32) as char else c
  }

  function UpperChar(c: char): (r: char)
    ensures !IsLowerChar(r)
    ensures IsLowerChar(c) ==> IsUpperChar(r)
    ensures !IsLowerChar(c) ==> r == c
  {
    if IsLowerChar(c) then (c as int - 32) as char else c
  }

  /** Python's `s.lower()` (ASCII letters). */
  function Lower(s: string): (r: string)
    ensures |r| == |s|
    ensures forall i :: 0 <= i < |s| ==> r[i] == LowerChar(s[i])
  {
    seq(|s|, i requires 0 <= i < |s| => LowerChar(s[i]))
  }

  /** Python's `s.upper()` (ASCII letters). */
  function Upper(s: string): (r: string)
    ensures |r| == |s|
    ensures forall i :: 0 <= i < |s| ==> r[i] == UpperChar(s[i])
  {
    seq(|s|, i requires 0 <= i < |s| => UpperChar(s[i]))
  }

  /** A string without upper-case letters is its own lower-case form. */
  lemma LowerKeeps(s: string)
    requires forall i :: 0 <= i < |s| ==> !IsUpperChar(s[i])
    ensures Lower(s) == s
  {
  }

  /** Lower-casing twice is lower-casing once. */
  lemma LowerIdempotent(s: string)
    ensures Lower(Lower(s)) == Lower(s)
  {
  }

  /** Python's `s.capitalize()`: first character upper-case, the rest lower-case. */
  function Capitalize(s: string): (r: string)
    ensures |r| == |s|
    ensures |s| > 0 ==> r[0] == UpperChar(s[0])
    ensures forall i :: 0 < i < |s| ==> r[i] == LowerChar(s[i])
  {
    if s == [] then [] else [UpperChar(s[0])] + Lower(s[1..])
  }

  // ---------------------------------------------------------------------
  // Digit strings
  // ---------------------------------------------------------------------

  predicate AllDigits(s: string) {
    forall i :: 0 <= i < |s| ==> IsDigitChar(s[i])
  }

  /** Python's `int(s)` for a string of decimal digits. */
  function DigitsValue(s: string): (n: nat)
    requires AllDigits(s)
  {
    if s == [] then 0
    else DigitsValue(s[..|s| - 1]) * 10 + (s[|s| - 1] as int - '0' as int)
  }

  function DigitChar(d: nat): (c: char)
    requires d < 10
    ensures IsDigitChar(c) && c as int - '0' as int == d
  {
    ('0' as int + d) as char
  }

  /** `str(n)`: decimal digits without leading zeros ("0" for zero). */
  function NatToString(n: nat): (s: string)
    ensures AllDigits(s) && |s| > 0
    decreases n
  {
    if n < 10 then [DigitChar(n)] else NatToString(n / 10) + [DigitChar(n % 10)]
  }

  /** `int(str(n)) == n`. */
  lemma {:induction false} NatToStringValue(n: nat)
    ensures DigitsValue(NatToString(n)) == n
    decreases n
  {
    var s := NatToString(n);
    if n >= 10 {
      NatToStringValue(n / 10);
      assert s[..|s| - 1] == NatToString(n / 10);
    }
  }

  function Zeros(k: nat): (z: string)
    ensures |z| == k && AllDigits(z)
    ensures forall i :: 0 <= i < k ==> z[i] == '0'
  {
    seq(k, i => '0')
  }

  /** Leading zeros do not change the value of a digit string. */
  lemma {:induction false} LeadingZerosValue(k: nat, s: string)
    requires AllDigits(s)
    ensures AllDigits(Zeros(k) + s) && DigitsValue(Zeros(k) + s) == DigitsValue(s)
    decreases |s|
  {
    var t := Zeros(k) + s;
    assert AllDigits(t);
    if s == [] {
      assert t == Zeros(k);
      ZerosValue(k);
    } else {
      LeadingZerosValue(k, s[..|s| - 1]);
      assert t[..|t| - 1] == Zeros(k) + s[..|s| - 1];
    }
  }

  lemma {:induction false} ZerosValue(k: nat)
    ensures DigitsValue(Zeros(k)) == 0
  {
    if k > 0 {
      ZerosValue(k - 1);
      assert Zeros(k)[..k - 1] == Zeros(k - 1);
    }
  }

  /** Python's `f"{n:03d}"`: at least three digits, zero-padded on the left. */
  function Pad3(n: nat): string
  {
    var s := NatToString(n);
    if |s| < 3 then Zeros(3 - |s|) + s else s
  }

  /** `int(f"{n:03d}") == n`, and the padded form is a digit string of length >= 3. */
  lemma Pad3Value(n: nat)
    ensures AllDigits(Pad3(n)) && |Pad3(n)| >= 3
    ensures DigitsValue(Pad3(n)) == n
  {
    var s := NatToString(n);
    NatToStringValue(n);
    if |s| < 3 {
      LeadingZerosValue(3 - |s|, s);
    }
  }

  /** Distinct numbers have distinct padded forms. */
  lemma Pad3Injective(m: nat, n: nat)
    ensures Pad3(m) == Pad3(n) ==> m == n
  {
    Pad3Value(m);
    Pad3Value(n);
  }

  // ---------------------------------------------------------------------
  // Whitespace stripping
  // ---------------------------------------------------------------------

  function TrimLeft(s: string): (r: string)
    ensures IsSuffix(r, s)
    ensures r == [] || !IsSpaceChar(r[0])
    ensures forall i :: 0 <= i < |s| - |r| ==> IsSpaceChar(s[i])
  {
    if s == [] || !IsSpaceChar(s[0]) then s else TrimLeft(s[1..])
  }

  function TrimRight(s: string): (r: string)
    ensures IsPrefix(r, s)
    ensures r == [] || !IsSpaceChar(r[|r| - 1])
    ensures forall i :: |r| <= i < |s| ==> IsSpaceChar(s[i])
  {
    if s == [] || !IsSpaceChar(s[|s| - 1]) then s else TrimRight(s[..|s| - 1])
  }

  /** Python's `s.strip()`: the slice left after removing whitespace at both ends. */
  function Strip(s: string): (r: string)
    ensures r == [] || (!IsSpaceChar(r[0]) && !IsSpaceChar(r[|r| - 1]))
  {
    TrimLeft(TrimRight(s))
  }

  /** A string with no whitespace at either end is its own strip. */
  lemma StripNoop(s: string)
    requires s == [] || (!IsSpaceChar(s[0]) && !IsSpaceChar(s[|s| - 1]))
    ensures Strip(s) == s
  {
  }

  // ---------------------------------------------------------------------
  // split and join
  // ---------------------------------------------------------------------

  /** Index of the first occurrence of `c`, or |s| when absent. */
  function IndexOf(s: string, c: char): (k: nat)
    ensures k <= |s|
    ensures forall i :: 0 <= i < k ==> s[i] != c
    ensures k < |s| ==> s[k] == c
  {
    if s == [] then 0 else if s[0] == c then 0 else 1 + IndexOf(s[1..], c)
  }

  /** Python's `s.split(c)` for a one-character separator. */
  function Split(s: string, c: char): (parts: seq<string>)
    ensures |parts| > 0
    decreases |s|
  {
    var k := IndexOf(s, c);
    if k == |s| then [s] else [s[..k]] + Split(s[k + 1..], c)
  }

  /** Python's `sep.join(parts)`. */
  function Join(sep: string, parts: seq<string>): string
  {
    if parts == [] then ""
    else if |parts| == 1 then parts[0]
    else parts[0] + sep + Join(sep, parts[1..])
  }

  /** Splitting on `c` and joining with `c` gives back the string; no part holds `c`. */
  lemma {:induction false} SplitJoin(s: string, c: char)
    ensures Join([c], Split(s, c)) == s
    ensures forall j, i :: 0 <= j < |Split(s, c)| && 0 <= i < |Split(s, c)[j]| ==> Split(s, c)[j][i] != c
    decreases |s|
  {
    var k := IndexOf(s, c);
    if k < |s| {
      SplitJoin(s[k + 1..], c);
      var rest := Split(s[k + 1..], c);
      assert Split(s, c) == [s[..k]] + rest;
      assert s == s[..k] + [c] + s[k + 1..];
      forall j, i | 0 <= j < |Split(s, c)| && 0 <= i < |Split(s, c)[j]|
        ensures Split(s, c)[j][i] != c
      {
        if j > 0 { assert Split(s, c)[j] == rest[j - 1]; }
      }
    }
  }

  /** A string without the separator splits into itself. */
  lemma SplitWithout(s: string, c: char)
    requires forall i :: 0 <= i < |s| ==> s[i] != c
    ensures Split(s, c) == [s]
  {
    assert IndexOf(s, c) == |s|;
  }

  /** Splitting at the first separator. */
  lemma SplitAfter(x: string, c: char, y: string)
    requires forall i :: 0 <= i < |x| ==> x[i] != c
    ensures Split(x + [c] + y, c) == [x] + Split(y, c)
  {
    var s := x + [c] + y;
    var k := IndexOf(s, c);
    assert s[|x|] == c;
    assert forall i :: 0 <= i < |x| ==> s[i] == x[i];
    assert k == |x|;
    assert s[..k] == x && s[k + 1..] == y;
  }

  /** The first part of a split is the prefix before the first separator. */
  lemma SplitFirst(s: string, c: char)
    ensures Split(s, c)[0] == s[..IndexOf(s, c)]
  {
  }

  /** Python's `s.split()`: the maximal runs of non-whitespace characters. */
  function Words(s: string): seq<string>
    decreases |s|
  {
    if s == [] then []
    else if IsSpaceChar(s[0]) then Words(s[1..])
    else
      var k := WordEnd(s);
      [s[..k]] + Words(s[k..])
  }

  /** Length of the leading run of non-whitespace characters. */
  function WordEnd(s: string): (k: nat)
    ensures k <= |s|
    ensures s != [] && !IsSpaceChar(s[0]) ==> k > 0
  {
    if s == [] || IsSpaceChar(s[0]) then 0 else 1 + WordEnd(s[1..])
  }

  /** Number of occurrences of `c` in `s`. */
  function Count(s: string, c: char): nat
  {
    if s == [] then 0 else (if s[0] == c then 1 else 0) + Count(s[1..], c)
  }

  lemma {:induction false} CountConcat(a: string, b: string, c: char)
    ensures Count(a + b, c) == Count(a, c) + Count(b, c)
  {
    if a != [] {
      assert a + b != [] && (a + b)[0] == a[0];
      assert (a + b)[1..] == a[1..] + b;
      CountConcat(a[1..], b, c);
    } else {
      assert a + b == b;
    }
  }

  lemma {:induction false} CountAbsent(s: string, c: char)
    requires forall i :: 0 <= i < |s| ==> s[i] != c
    ensures Count(s, c) == 0
  {
    if s != [] { CountAbsent(s[1..], c); }
  }

  // ---------------------------------------------------------------------
  // replace
  // ---------------------------------------------------------------------

  /** Python's `s.replace(pat, rep)`: every occurrence, scanning left to right without overlap. */
  function ReplaceAll(s: string, pat: string, rep: string): string
    requires |pat| > 0
    decreases |s|
  {
    if IsPrefix(pat, s) then rep + ReplaceAll(s[|pat|..], pat, rep)
    else if s == [] then []
    else [s[0]] + ReplaceAll(s[1..], pat, rep)
  }

  /** A prefix in which no occurrence of `pat` starts is copied unchanged. */
  lemma {:induction false} ReplaceAllSkip(x: string, y: string, pat: string, rep: string)
    requires |pat| > 0
    requires forall k :: 0 <= k < |x| ==> !IsPrefix(pat, (x + y)[k..])
    ensures ReplaceAll(x + y, pat, rep) == x + ReplaceAll(y, pat, rep)
  {
    if x != [] {
      assert (x + y)[0..] == x + y;
      assert (x + y)[1..] == x[1..] + y;
      forall k | 0 <= k < |x| - 1 ensures !IsPrefix(pat, (x[1..] + y)[k..]) {
        assert (x[1..] + y)[k..] == (x + y)[k + 1..];
      }
      ReplaceAllSkip(x[1..], y, pat, rep);
      assert !IsPrefix(pat, x + y) && (x + y)[0] == x[0];
      assert ReplaceAll(x + y, pat, rep) == [x[0]] + ReplaceAll(x[1..] + y, pat, rep);
      assert x == [x[0]] + x[1..];
    } else {
      assert x + y == y;
    }
  }

  /** Every `p` in `s` turned into `r`, position by position. */
  function Swap(s: string, p: char, r: char): (t: string)
    ensures |t| == |s| && forall i :: 0 <= i < |s| ==> t[i] == if s[i] == p then r else s[i]
  {
    seq(|s|, i requires 0 <= i < |s| => if s[i] == p then r else s[i])
  }

  /** Replacing a single character by a single character maps every position. */
  lemma {:induction false} ReplaceCharEverywhere(s: string, p: char, r: char)
    ensures ReplaceAll(s, [p], [r]) == Swap(s, p, r)
    decreases |s|
  {
    if s != [] {
      ReplaceCharEverywhere(s[1..], p, r);
      if s[0] == p {
        assert IsPrefix([p], s);
      } else {
        assert !IsPrefix([p], s);
      }
      assert Swap(s, p, r) == [Swap(s, p, r)[0]] + Swap(s[1..], p, r);
    }
  }

  /** Words separated by `p` become the same words separated by `r`. */
  lemma {:induction false} SwapJoin(ws: seq<string>, p: char, r: char)
    requires forall i :: 0 <= i < |ws| ==> p !in ws[i]
    ensures Swap(Join([p], ws), p, r) == Join([r], ws)
  {
    if |ws| == 1 {
      assert Swap(ws[0], p, r) == ws[0];
    } else if |ws| > 1 {
      SwapJoin(ws[1..], p, r);
      var a, b := ws[0], Join([p], ws[1..]);
      assert Swap(a, p, r) == a;
      assert Swap(a + [p] + b, p, r) == a + [r] + Swap(b, p, r);
    }
  }

  /** Non-empty words free of white space, joined by single spaces, split back into the words. */
  lemma {:induction false} WordsJoin(ws: seq<string>)
    requires forall i :: 0 <= i < |ws| ==> |ws[i]| > 0 && forall j :: 0 <= j < |ws[i]| ==> !IsSpaceChar(ws[i][j])
    ensures Words(Join(" ", ws)) == ws
  {
    if |ws| == 1 {
      WordsSingle(ws[0]);
    } else if |ws| > 1 {
      WordsJoin(ws[1..]);
      JoinStarts(" ", ws[1..]);
      WordsCons(ws[0], Join(" ", ws[1..]));
      assert ws == [ws[0]] + ws[1..];
    }
  }

  /** A join of words starts with the first word. */
  lemma JoinStarts(sep: string, ws: seq<string>)
    requires ws != []
    ensures |Join(sep, ws)| >= |ws[0]| && Join(sep, ws)[..|ws[0]|] == ws[0]
  {
    if |ws| > 1 {
      assert Join(sep, ws) == ws[0] + (sep + Join(sep, ws[1..]));
    }
  }

  /** Every character of a join comes from a word or from the separator. */
  lemma {:induction false} JoinChars(sep: string, ws: seq<string>, ok: char -> bool)
    requires forall j :: 0 <= j < |sep| ==> ok(sep[j])
    requires forall i, j :: 0 <= i < |ws| && 0 <= j < |ws[i]| ==> ok(ws[i][j])
    ensures forall k :: 0 <= k < |Join(sep, ws)| ==> ok(Join(sep, ws)[k])
  {
    if |ws| > 1 {
      JoinChars(sep, ws[1..], ok);
      var a, b := ws[0], Join(sep, ws[1..]);
      forall k | 0 <= k < |a + sep + b| ensures ok((a + sep + b)[k]) {
        if k < |a| {
          assert (a + sep + b)[k] == ws[0][k];
        } else if k < |a| + |sep| {
          assert (a + sep + b)[k] == sep[k - |a|];
        } else {
          assert (a + sep + b)[k] == b[k - |a| - |sep|];
        }
      }
    } else if |ws| == 1 {
      assert forall j :: 0 <= j < |ws[0]| ==> ok(ws[0][j]);
    }
  }

  /** A word, one space, then text starting with a non-space: the word comes first. */
  lemma {:induction false} WordsCons(x: string, y: string)
    requires |x| > 0 && forall i :: 0 <= i < |x| ==> !IsSpaceChar(x[i])
    requires y == [] || !IsSpaceChar(y[0])
    ensures Words(x + " " + y) == [x] + Words(y)
  {
    var s := x + (" " + y);
    assert x + " " + y == s;
    WordEndOf(x, " " + y);
    assert s[0] == x[0];
    assert s[..|x|] == x;
    var t := s[|x|..];
    assert t == " " + y;
    assert t[1..] == y;
  }

  /** A single word is its own split. */
  lemma {:induction false} WordsSingle(x: string)
    requires |x| > 0 && forall i :: 0 <= i < |x| ==> !IsSpaceChar(x[i])
    ensures Words(x) == [x]
  {
    WordEndOf(x, "");
    assert x + "" == x;
    assert x[|x|..] == [];
  }

  /** The non-whitespace run of `x + y` is `x` when `y` starts with whitespace or is empty. */
  lemma {:induction false} WordEndOf(x: string, y: string)
    requires forall i :: 0 <= i < |x| ==> !IsSpaceChar(x[i])
    requires y == [] || IsSpaceChar(y[0])
    ensures WordEnd(x + y) == |x|
  {
    if x == [] {
      assert x + y == y;
    } else {
      assert (x + y)[0] == x[0] && (x + y)[1..] == x[1..] + y;
      WordEndOf(x[1..], y);
    }
  }

  // ---------------------------------------------------------------------
  // Code-point ordering of strings (Python's `<` on str)
  // ---------------------------------------------------------------------

  predicate LexLess(a: string, b: string)
  {
    if a == [] then b != []
    else b != [] && (a[0] < b[0] || (a[0] == b[0] && LexLess(a[1..], b[1..])))
  }

  lemma {:induction false} LexLessIrreflexive(a: string)
    ensures !LexLess(a, a)
  {
    if a != [] { LexLessIrreflexive(a[1..]); }
  }

  lemma {:induction false} LexLessTransitive(a: string, b: string, c: string)
    requires LexLess(a, b) && LexLess(b, c)
    ensures LexLess(a, c)
  {
    if a != [] && b != [] && c != [] && a[0] == b[0] && b[0] == c[0] {
      LexLessTransitive(a[1..], b[1..], c[1..]);
    }
  }

  lemma {:induction false} LexLessTotal(a: string, b: string)
    ensures a == b || LexLess(a, b) || LexLess(b, a)
  {
    if a != [] && b != [] && a[0] == b[0] {
      LexLessTotal(a[1..], b[1..]);
      if a[1..] == b[1..] { assert a == [a[0]] + a[1..] && b == [b[0]] + b[1..]; }
    }
  }

  /** Code-point order on strings is a strict weak order, so sorting by it is meaningful. */
  lemma LexOrder()
    ensures StrictWeakOrder(LexLess)
  {
    forall a ensures !LexLess(a, a) { LexLessIrreflexive(a); }
    forall a, b, c | LexLess(a, b) && LexLess(b, c) ensures LexLess(a, c) {
      LexLessTransitive(a, b, c);
    }
    forall a, b, c | LexLess(a, c) ensures LexLess(a, b) || LexLess(b, c) {
      LexLessTotal(a, b);
      LexLessTotal(b, c);
      if !LexLess(a, b) && !LexLess(b, c) && a != b && b != c {
        LexLessTransitive(c, b, a);
        LexLessTransitive(a, c, a);
        LexLessIrreflexive(a);
      }
    }
  }


  // ---------------------------------------------------------------------
  // Line ends and single characters
  // ---------------------------------------------------------------------

  /** The string without one final newline: the part a regular expression ending in `$` must match. */
  function WithoutFinalNewline(s: string): (b: string)
    ensures s == b || s == b + "\n"
  {
    if |s| > 0 && s[|s| - 1] == '\n' then
      var n := |s| - 1;
      assert s == s[..n] + [s[n]];
      s[..n]
    else s
  }

  /** Python's `s.rfind(c)`: the position of the last `c`, or -1. */
  function RFind(s: string, c: char): (i: int)
    ensures -1 <= i < |s|
    ensures i >= 0 ==> s[i] == c
    ensures forall j :: i < j < |s| ==> s[j] != c
  {
    if s == [] then -1
    else if s[|s| - 1] == c then |s| - 1
    else RFind(s[..|s| - 1], c)
  }

  /** `s` with every `c` deleted. */
  function RemoveChar(s: string, c: char): (r: string)
    ensures |r| <= |s|
  {
    if s == [] then [] else (if s[0] == c then [] else [s[0]]) + RemoveChar(s[1..], c)
  }

  /** Removing `c` from a concatenation removes it from both parts. */
  lemma {:induction false} RemoveCharConcat(a: string, b: string, c: char)
    ensures RemoveChar(a + b, c) == RemoveChar(a, c) + RemoveChar(b, c)
  {
    if a == [] {
      assert a + b == b;
    } else {
      assert (a + b)[0] == a[0] && (a + b)[1..] == a[1..] + b;
      RemoveCharConcat(a[1..], b, c);
    }
  }

  /** `"".join(s.split(c))` deletes every `c`. */
  lemma {:induction false} JoinSplitRemoves(s: string, c: char)
    ensures Join("", Split(s, c)) == RemoveChar(s, c)
    decreases |s|
  {
    var k := IndexOf(s, c);
    if k == |s| {
      SplitWithout(s, c);
      RemoveCharAbsent(s, c);
    } else {
      var head, tail := s[..k], s[k + 1..];
      assert s == head + [c] + tail;
      JoinSplitRemoves(tail, c);
      JoinSplitStep(head, tail, c);
    }
  }

  /** One step of `JoinSplitRemoves`: the part before the first `c`, then the rest. */
  lemma {:induction false} JoinSplitStep(head: string, tail: string, c: char)
    requires forall i :: 0 <= i < |head| ==> head[i] != c
    requires Join("", Split(tail, c)) == RemoveChar(tail, c)
    ensures Join("", Split(head + [c] + tail, c)) == RemoveChar(head + [c] + tail, c)
  {
    var s := head + [c] + tail;
    var rest := Split(tail, c);
    assert Split(s, c) == [head] + rest by { SplitAfter(head, c, tail); }
    assert Join("", [head] + rest) == head + Join("", rest) by { JoinCons(head, rest); }
    assert RemoveChar(s, c) == head + RemoveChar(tail, c) by {
      ConcatAssoc(head, [c], tail);
      RemoveAtSeparator(head, tail, c);
    }
  }

  lemma ConcatAssoc<T>(a: seq<T>, b: seq<T>, c: seq<T>)
    ensures a + b + c == a + (b + c)
  {
  }

  /** Joining with the empty separator concatenates. */
  lemma JoinCons(head: string, rest: seq<string>)
    requires rest != []
    ensures Join("", [head] + rest) == head + Join("", rest)
  {
    var parts := [head] + rest;
    assert parts[0] == head && parts[1..] == rest;
  }

  /** Removing `c` from `head + [c] + tail`, where `head` has no `c`. */
  lemma {:induction false} RemoveAtSeparator(head: string, tail: string, c: char)
    requires forall i :: 0 <= i < |head| ==> head[i] != c
    ensures RemoveChar(head + ([c] + tail), c) == head + RemoveChar(tail, c)
  {
    RemoveCharConcat(head, [c] + tail, c);
    RemoveCharConcat([c], tail, c);
    RemoveCharAbsent(head, c);
    assert RemoveChar([c], c) == [];
  }

  /** A string without `c` loses nothing. */
  lemma {:induction false} RemoveCharAbsent(s: string, c: char)
    requires forall i :: 0 <= i < |s| ==> s[i] != c
    ensures RemoveChar(s, c) == s
  {
    if s != [] {
      RemoveCharAbsent(s[1..], c);
      assert s == [s[0]] + s[1..];
    }
  }

}
