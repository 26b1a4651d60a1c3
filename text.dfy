/** Option, used wherever the source returns a value or None. */
module Wrappers {
  datatype Option<+T> = None | Some(value: T)
}

/**
 * The string operations the pipeline relies on, written to behave as
 * Python's do on `str` (a sequence of code points, which is what a Dafny
 * `string` is): `strip()`, `upper()`, the `in` operator, `split(sep)`,
 * slicing `s[:n]`, `replace(c, '')` and the decimal rendering of an `int`.
 */
module Text {
  import opened Wrappers

  // ---------------------------------------------------------------------
  // Whitespace and strip()
  // ---------------------------------------------------------------------

  /** The characters for which Python's `str.isspace()` holds. */
  predicate IsSpace(c: char) {
    ('\t' <= c <= '\r') || ('\U{1C}' <= c <= '\U{1F}') || c == ' '
    || c == '\U{85}' || c == '\U{A0}' || c == '\U{1680}'
    || ('\U{2000}' <= c <= '\U{200A}') || c == '\U{2028}' || c == '\U{2029}'
    || c == '\U{202F}' || c == '\U{205F}' || c == '\U{3000}'
  }

  /** `s.lstrip()`: drops the leading whitespace and nothing else. */
  function TrimStart(s: string): (r: string)
    ensures |r| <= |s| && r == s[|s| - |r|..]
    ensures r == [] || !IsSpace(r[0])
    ensures forall k :: 0 <= k < |s| - |r| ==> IsSpace(s[k])
    decreases |s|
  {
    if |s| > 0 && IsSpace(s[0]) then TrimStart(s[1..]) else s
  }

  /** `s.rstrip()`: drops the trailing whitespace and nothing else. */
  function TrimEnd(s: string): (r: string)
    ensures |r| <= |s| && r == s[..|r|]
    ensures r == [] || !IsSpace(r[|r| - 1])
    ensures forall k :: |r| <= k < |s| ==> IsSpace(s[k])
    decreases |s|
  {
    if |s| > 0 && IsSpace(s[|s| - 1]) then TrimEnd(s[..|s| - 1]) else s
  }

  /** `s.strip()`. */
  function Strip(s: string): (r: string)
    ensures |r| <= |s|
    ensures r == [] || (!IsSpace(r[0]) && !IsSpace(r[|r| - 1]))
  {
    TrimEnd(TrimStart(s))
  }

  /** How many leading characters strip removes. */
  function LeadLength(s: string): (n: nat)
    ensures n <= |s|
  {
    |s| - |TrimStart(s)|
  }

  /** What strip removes is whitespace, and what it keeps is one contiguous piece of `s`. */
  lemma {:induction false} StripInfix(s: string)
    ensures LeadLength(s) + |Strip(s)| <= |s|
    ensures Strip(s) == s[LeadLength(s)..LeadLength(s) + |Strip(s)|]
    ensures forall k :: 0 <= k < LeadLength(s) ==> IsSpace(s[k])
    ensures forall k :: LeadLength(s) + |Strip(s)| <= k < |s| ==> IsSpace(s[k])
  {
    StripPiece(s);
    StripTail(s);
  }

  lemma {:induction false} StripPiece(s: string)
    ensures LeadLength(s) + |Strip(s)| <= |s|
    ensures Strip(s) == s[LeadLength(s)..LeadLength(s) + |Strip(s)|]
  {
    var t := TrimStart(s);
    var r := TrimEnd(t);
    assert Strip(s) == r && LeadLength(s) == |s| - |t|;
    DropTake(s, |s| - |t|, |r|);
  }

  lemma {:induction false} DropTake(s: string, lo: nat, m: nat)
    requires lo + m <= |s|
    ensures s[lo..][..m] == s[lo..lo + m]
  {
  }

  lemma {:induction false} StripTail(s: string)
    ensures forall k :: LeadLength(s) + |Strip(s)| <= k < |s| ==> IsSpace(s[k])
  {
    var t := TrimStart(s);
    var r := TrimEnd(t);
    var lo := |s| - |t|;
    assert t == s[lo..];
    forall k | lo + |r| <= k < |s| ensures IsSpace(s[k]) {
      assert s[k] == t[k - lo];
    }
  }

  /** A string with no whitespace at either end is left alone by strip. */
  lemma {:induction false} StripTrimmed(s: string)
    requires s == [] || (!IsSpace(s[0]) && !IsSpace(s[|s| - 1]))
    ensures Strip(s) == s
  {
  }

  /** strip is idempotent. */
  lemma {:induction false} StripIdempotent(s: string)
    ensures Strip(Strip(s)) == Strip(s)
  {
    StripTrimmed(Strip(s));
  }

  // ---------------------------------------------------------------------
  // upper()
  // ---------------------------------------------------------------------

  /** Upper-casing of one character, on the ASCII letters. */
  function UpperChar(c: char): char {
    if 'a' <= c <= 'z' then (c as int - 32) as char else c
  }

  /** `s.upper()`, one character at a time. */
  function Upper(s: string): (r: string)
    ensures |r| == |s|
    ensures forall k :: 0 <= k < |s| ==> r[k] == UpperChar(s[k])
  {
    seq(|s|, k requires 0 <= k < |s| => UpperChar(s[k]))
  }

  lemma {:induction false} UpperConcat(a: string, b: string)
    ensures Upper(a + b) == Upper(a) + Upper(b)
  {
  }

  /** Upper-casing never turns a character into whitespace or back. */
  lemma {:induction false} UpperCharSpace(c: char)
    ensures IsSpace(UpperChar(c)) == IsSpace(c)
  {
  }

  lemma {:induction false} UpperTrimStart(s: string)
    ensures Upper(TrimStart(s)) == TrimStart(Upper(s))
    decreases |s|
  {
    if |s| > 0 {
      var u := Upper(s);
      UpperCharSpace(s[0]);
      if IsSpace(s[0]) {
        assert IsSpace(u[0]);
        assert u[1..] == Upper(s[1..]);
        assert TrimStart(u) == TrimStart(u[1..]);
        UpperTrimStart(s[1..]);
      } else {
        assert !IsSpace(u[0]);
        assert TrimStart(u) == u;
      }
    }
  }

  lemma {:induction false} UpperTrimEnd(s: string)
    ensures Upper(TrimEnd(s)) == TrimEnd(Upper(s))
    decreases |s|
  {
    if |s| > 0 {
      var u := Upper(s);
      UpperCharSpace(s[|s| - 1]);
      if IsSpace(s[|s| - 1]) {
        assert IsSpace(u[|u| - 1]);
        assert u[..|u| - 1] == Upper(s[..|s| - 1]);
        assert TrimEnd(u) == TrimEnd(u[..|u| - 1]);
        UpperTrimEnd(s[..|s| - 1]);
      } else {
        assert !IsSpace(u[|u| - 1]);
        assert TrimEnd(u) == u;
      }
    }
  }

  /** Normalising with `strip().upper()` is the same as with `upper().strip()`. */
  lemma {:induction false} UpperStrip(s: string)
    ensures Upper(Strip(s)) == Strip(Upper(s))
  {
    UpperTrimStart(s);
    UpperTrimEnd(TrimStart(s));
  }

  // ---------------------------------------------------------------------
  // Substring search: the `in` operator and str.find
  // ---------------------------------------------------------------------

  /** `t` occurs in `s` starting at index `j`. */
  predicate OccursAt(s: string, t: string, j: int) {
    0 <= j && j + |t| <= |s| && s[j..j + |t|] == t
  }

  lemma {:induction false} OccursShift(s: string, t: string, j: int)
    requires |s| > 0 && j >= 0
    ensures OccursAt(s[1..], t, j) <==> OccursAt(s, t, j + 1)
  {
    if 0 <= j && j + |t| <= |s| - 1 {
      assert s[1..][j..j + |t|] == s[j + 1..j + 1 + |t|];
    }
  }

  /** `s.find(t)`: an index at which `t` occurs, or None for -1 (`FindFirst`: the first one). */
  function Find(s: string, t: string): (r: Option<nat>)
    ensures r.Some? ==> OccursAt(s, t, r.value)
    decreases |s|
  {
    if t <= s then
      assert s[0..|t|] == t;
      Some(0)
    else if s == [] then
      None
    else
      match Find(s[1..], t)
      case Some(i) =>
        assert OccursAt(s, t, i + 1) by { OccursShift(s, t, i); }
        Some(i + 1)
      case None => None
  }

  /** Python's `t in s`. */
  predicate Contains(s: string, t: string) {
    exists j :: 0 <= j <= |s| && OccursAt(s, t, j)
  }

  lemma {:induction false} ContainsAt(s: string, t: string, j: int)
    requires OccursAt(s, t, j)
    ensures Contains(s, t)
  {
  }

  /** `Find` gives the first occurrence, and None exactly when there is none. */
  lemma {:induction false} FindFirst(s: string, t: string)
    ensures Find(s, t).Some? ==> forall j :: 0 <= j < Find(s, t).value ==> !OccursAt(s, t, j)
    ensures Find(s, t).None? <==> !Contains(s, t)
    decreases |s|
  {
    if t <= s {
    } else if s != [] {
      assert !OccursAt(s, t, 0);
      FindFirst(s[1..], t);
      match Find(s[1..], t)
      case Some(i) =>
        forall j | 1 <= j < i + 1 ensures !OccursAt(s, t, j) {
          OccursShift(s, t, j - 1);
        }
      case None =>
        forall j | 1 <= j <= |s| ensures !OccursAt(s, t, j) {
          OccursShift(s, t, j - 1);
        }
    }
  }

  /** The middle of a concatenation occurs in it. */
  lemma {:induction false} ContainsInfix(a: string, t: string, b: string)
    ensures Contains(a + t + b, t)
  {
    assert (a + t + b)[|a|..|a| + |t|] == t;
    ContainsAt(a + t + b, t, |a|);
  }

  lemma {:induction false} ContainsSuffix(a: string, t: string)
    ensures Contains(a + t, t)
  {
    assert (a + t)[|a|..|a| + |t|] == t;
    ContainsAt(a + t, t, |a|);
  }

  lemma {:induction false} ContainsExtend(a: string, b: string, t: string)
    requires Contains(a, t)
    ensures Contains(a + b, t)
  {
    var j :| 0 <= j <= |a| && OccursAt(a, t, j);
    assert (a + b)[j..j + |t|] == a[j..j + |t|];
    ContainsAt(a + b, t, j);
  }

  /** A piece of a string that contains `t` makes the whole string contain it. */
  lemma {:induction false} ContainsWithin(s: string, lo: int, hi: int, t: string)
    requires 0 <= lo <= hi <= |s| && Contains(s[lo..hi], t)
    ensures Contains(s, t)
  {
    var j :| 0 <= j <= |s[lo..hi]| && OccursAt(s[lo..hi], t, j);
    SliceOfSlice(s, lo, hi, j, j + |t|);
    ContainsAt(s, t, lo + j);
  }

  /**
   * Stripping keeps every occurrence of a word that neither begins nor ends
   * with whitespace.
   */
  lemma {:induction false} ContainsStrip(s: string, t: string)
    requires Contains(s, t) && |t| > 0 && !IsSpace(t[0]) && !IsSpace(t[|t| - 1])
    ensures Contains(Strip(s), t)
  {
    StripInfix(s);
    ContainsInner(s, t, LeadLength(s), LeadLength(s) + |Strip(s)|);
  }

  /** An occurrence of a word with non-space ends lies inside any slice that only whitespace surrounds. */
  lemma {:induction false} ContainsInner(s: string, t: string, lo: nat, hi: nat)
    requires lo <= hi <= |s|
    requires forall k :: 0 <= k < lo ==> IsSpace(s[k])
    requires forall k :: hi <= k < |s| ==> IsSpace(s[k])
    requires Contains(s, t) && |t| > 0 && !IsSpace(t[0]) && !IsSpace(t[|t| - 1])
    ensures Contains(s[lo..hi], t)
  {
    var j :| 0 <= j <= |s| && OccursAt(s, t, j);
    OccursAtChar(s, t, j, 0);
    OccursAtChar(s, t, j, |t| - 1);
    assert lo <= j;
    assert j + |t| <= hi;
    SliceOfSlice(s, lo, hi, j - lo, j - lo + |t|);
    ContainsAt(s[lo..hi], t, j - lo);
  }

  lemma {:induction false} OccursAtChar(s: string, t: string, j: nat, m: nat)
    requires OccursAt(s, t, j) && m < |t|
    ensures s[j + m] == t[m]
  {
    assert s[j..j + |t|][m] == s[j + m];
  }

  lemma {:induction false} SliceOfSlice(s: string, lo: nat, hi: nat, a: nat, b: nat)
    requires lo <= hi <= |s| && a <= b <= hi - lo
    ensures s[lo..hi][a..b] == s[lo + a..lo + b]
  {
    assert forall k :: 0 <= k < b - a ==> s[lo..hi][a..b][k] == s[lo + a + k];
  }

  /** Stripping never creates an occurrence. */
  lemma {:induction false} StripNoNew(s: string, t: string)
    requires !Contains(s, t)
    ensures !Contains(Strip(s), t)
  {
    StripInfix(s);
    if Contains(Strip(s), t) {
      ContainsWithin(s, LeadLength(s), LeadLength(s) + |Strip(s)|, t);
    }
  }

  /** A word that neither begins nor ends with whitespace occurs in `Strip(s)` exactly when it occurs in `s`. */
  lemma {:induction false} StripKeepsWord(s: string, t: string)
    requires |t| > 0 && !IsSpace(t[0]) && !IsSpace(t[|t| - 1])
    ensures Contains(Strip(s), t) <==> Contains(s, t)
  {
    if Contains(s, t) {
      ContainsStrip(s, t);
    }
    if Contains(Strip(s), t) {
      StripInfix(s);
      ContainsWithin(s, LeadLength(s), LeadLength(s) + |Strip(s)|, t);
    }
  }

  // ---------------------------------------------------------------------
  // split(sep)
  // ---------------------------------------------------------------------

  /** Python's `s.split(d)` for a non-empty separator `d`. */
  function Split(s: string, d: string): (parts: seq<string>)
    requires d != []
    ensures |parts| >= 1
    decreases |s|
  {
    match Find(s, d)
    case None => [s]
    case Some(i) => [s[..i]] + Split(s[i + |d|..], d)
  }

  /** Split gives a single part exactly when the separator does not occur. */
  lemma {:induction false} SplitSingle(s: string, d: string)
    requires d != []
    ensures |Split(s, d)| == 1 <==> !Contains(s, d)
  {
    FindFirst(s, d);
  }

  /** The text before the first occurrence has none. */
  lemma {:induction false} SplitHeadFree(s: string, d: string)
    requires d != []
    ensures !Contains(Split(s, d)[0], d)
  {
    FindFirst(s, d);
    if Find(s, d).Some? {
      var i := Find(s, d).value;
      var head := s[..i];
      assert Split(s, d)[0] == head;
      forall j | 0 <= j <= |head| ensures !OccursAt(head, d, j) {
        if j + |d| <= i {
          PrefixOccurrence(s, d, i, j);
        }
      }
    }
  }

  lemma {:induction false} PrefixOccurrence(s: string, d: string, i: nat, j: nat)
    requires j + |d| <= i <= |s| && !OccursAt(s, d, j)
    ensures !OccursAt(s[..i], d, j)
  {
    assert s[..i][j..j + |d|] == s[j..j + |d|];
  }

  /** No part of a split contains the separator. */
  lemma {:induction false} SplitPartsFree(s: string, d: string)
    requires d != []
    ensures forall k :: 0 <= k < |Split(s, d)| ==> !Contains(Split(s, d)[k], d)
    decreases |s|
  {
    SplitHeadFree(s, d);
    if Find(s, d).Some? {
      var i := Find(s, d).value;
      var rest := s[i + |d|..];
      SplitCons(s, d, i);
      SplitPartsFree(rest, d);
      forall k | 1 <= k < |Split(s, d)| ensures !Contains(Split(s, d)[k], d) {
        assert Split(s, d)[k] == Split(rest, d)[k - 1];
      }
    }
  }

  /** The inverse of split: the parts joined by the separator. */
  function Join(parts: seq<string>, d: string): string
    requires |parts| >= 1
  {
    if |parts| == 1 then parts[0] else parts[0] + d + Join(parts[1..], d)
  }

  /** Joining what split returns gives the string back. */
  lemma {:induction false} JoinSplit(s: string, d: string)
    requires d != []
    ensures Join(Split(s, d), d) == s
    decreases |s|
  {
    if Find(s, d).Some? {
      var i := Find(s, d).value;
      var rest := s[i + |d|..];
      SplitCons(s, d, i);
      JoinSplit(rest, d);
      JoinCons(s[..i], Split(rest, d), d);
      SplitAround(s, d, i);
    }
  }

  /** Where the separator occurs, split gives the text before it, then the split of the rest. */
  lemma {:induction false} SplitCons(s: string, d: string, i: nat)
    requires d != [] && Find(s, d) == Some(i)
    ensures i + |d| <= |s|
    ensures Split(s, d) == [s[..i]] + Split(s[i + |d|..], d)
  {
    assert OccursAt(s, d, i);
    SplitUnfold(s, d, i, Split(s[i + |d|..], d));
  }

  lemma {:induction false} SplitUnfold(s: string, d: string, i: nat, tail: seq<string>)
    requires d != [] && Find(s, d) == Some(i)
    requires i + |d| <= |s| && tail == Split(s[i + |d|..], d)
    ensures Split(s, d) == [s[..i]] + tail
  {
  }

  lemma {:induction false} JoinCons(h: string, ps: seq<string>, d: string)
    requires |ps| >= 1
    ensures Join([h] + ps, d) == h + d + Join(ps, d)
  {
    assert ([h] + ps)[1..] == ps;
  }

  lemma {:induction false} SplitAround(s: string, d: string, i: nat)
    requires OccursAt(s, d, i)
    ensures s == s[..i] + d + s[i + |d|..]
  {
    assert s == s[..i] + s[i..i + |d|] + s[i + |d|..];
  }

  /**
   * The first part of a split is the text before the first separator, and
   * the second, when there is one, is the text between the first and the
   * second separator (or to the end when there is no second one).
   */
  lemma {:induction false} SplitParts(s: string, d: string)
    requires d != []
    ensures Split(s, d)[0] <= s
    ensures !Contains(s, d) ==> Split(s, d) == [s]
    ensures Find(s, d).Some? ==>
              var i := Find(s, d).value;
              var rest := s[i + |d|..];
              s == Split(s, d)[0] + d + rest
              && Split(s, d)[1] == Split(rest, d)[0]
              && (!Contains(rest, d) ==> Split(s, d)[1] == rest)
  {
    FindFirst(s, d);
    if Contains(s, d) {
      var i := Find(s, d).value;
      FindFirst(s[i + |d|..], d);
      assert s == s[..i] + d + s[i + |d|..] by {
        assert s[i..i + |d|] == d;
      }
    }
  }

  // ---------------------------------------------------------------------
  // Concatenation
  // ---------------------------------------------------------------------

  lemma {:induction false} AppendAssoc(a: string, b: string, c: string)
    ensures a + b + c == a + (b + c)
  {
  }

  lemma {:induction false} PrefixPrepend(h: string, a: string, b: string)
    requires a <= b
    ensures h + a <= h + b
  {
    assert (h + b)[..|h + a|] == h + b[..|a|];
  }

  // ---------------------------------------------------------------------
  // Concatenation of many strings
  // ---------------------------------------------------------------------

  /** `"".join(ss)`. */
  function Concat(ss: seq<string>): string {
    if ss == [] then "" else Concat(ss[..|ss| - 1]) + ss[|ss| - 1]
  }

  lemma {:induction false} ConcatSnoc(ss: seq<string>, x: string)
    ensures Concat(ss + [x]) == Concat(ss) + x
  {
    assert (ss + [x])[..|ss|] == ss;
  }

  lemma {:induction false} ConcatStep(ss: seq<string>, i: nat)
    requires i < |ss|
    ensures Concat(ss[..i + 1]) == Concat(ss[..i]) + ss[i]
  {
    assert ss[..i + 1][..i] == ss[..i];
  }

  lemma {:induction false} ConcatAppend(a: seq<string>, b: seq<string>)
    ensures Concat(a + b) == Concat(a) + Concat(b)
    decreases |b|
  {
    if b == [] {
      assert a + b == a;
    } else {
      var b' := b[..|b| - 1];
      assert a + b == (a + b') + [b[|b| - 1]];
      ConcatSnoc(a + b', b[|b| - 1]);
      ConcatAppend(a, b');
      ConcatSnoc(b', b[|b| - 1]);
      assert b == b' + [b[|b| - 1]];
    }
  }

  /** Every piece occurs in the concatenation of the pieces. */
  lemma {:induction false} ConcatContains(ss: seq<string>, k: nat)
    requires k < |ss|
    ensures Contains(Concat(ss), ss[k])
    decreases |ss|
  {
    var init := ss[..|ss| - 1];
    var last := ss[|ss| - 1];
    assert Concat(ss) == Concat(init) + last;
    if k == |ss| - 1 {
      ContainsSuffix(Concat(init), last);
    } else {
      assert init[k] == ss[k];
      ConcatContains(init, k);
      ContainsExtend(Concat(init), last, ss[k]);
    }
  }

  /** The concatenation of the first k pieces is a prefix of the concatenation of all of them. */
  lemma {:induction false} ConcatPrefix(ss: seq<string>, k: nat)
    requires k <= |ss|
    ensures Concat(ss[..k]) <= Concat(ss)
  {
    assert ss == ss[..k] + ss[k..];
    ConcatAppend(ss[..k], ss[k..]);
  }

  lemma {:induction false} ConcatLength(ss: seq<string>, bound: nat)
    requires forall k :: 0 <= k < |ss| ==> |ss[k]| <= bound
    ensures |Concat(ss)| <= |ss| * bound
    decreases |ss|
  {
    if ss != [] {
      var init := ss[..|ss| - 1];
      ConcatLength(init, bound);
      assert |Concat(ss)| == |Concat(init)| + |ss[|ss| - 1]|;
      assert |init| * bound + bound == |ss| * bound;
    }
  }

  // ---------------------------------------------------------------------
  // Slicing, replace(c, '') and str(int)
  // ---------------------------------------------------------------------

  /** Python's `s[:n]` for `n >= 0`. */
  function Prefix(s: string, n: nat): (r: string)
    ensures |r| == if |s| < n then |s| else n
    ensures r <= s
  {
    if |s| < n then s else s[..n]
  }

  /** Python's `s.replace(c, '')` for a one-character `c`. */
  function Remove(s: string, c: char): string
    decreases |s|
  {
    if s == [] then [] else (if s[0] == c then [] else [s[0]]) + Remove(s[1..], c)
  }

  /** Every character other than `c` is kept with its multiplicity, and no `c` is. */
  lemma {:induction false} RemoveMultiset(s: string, c: char)
    ensures multiset(Remove(s, c)) == multiset(s)[c := 0]
    decreases |s|
  {
    if s != [] {
      assert s == [s[0]] + s[1..];
      RemoveMultiset(s[1..], c);
    }
  }

  /** On one character, `replace(c, '')` drops it exactly when it is `c`. */
  lemma {:induction false} RemoveOne(x: char, c: char)
    ensures Remove([x], c) == if x == c then [] else [x]
  {
    assert [x][1..] == [];
  }

  /**
   * `replace(c, '')` works piece by piece: removing from a concatenation is
   * concatenating the removals, so the kept characters stay in their order.
   */
  lemma {:induction false} RemoveAppend(a: string, b: string, c: char)
    ensures Remove(a + b, c) == Remove(a, c) + Remove(b, c)
    decreases |a|
  {
    if a == [] {
      assert a + b == b;
    } else {
      var x, t := a[0], a[1..];
      assert a == [x] + t;
      assert a + b == [x] + (t + b);
      RemoveCons(x, t, c);
      RemoveCons(x, t + b, c);
      RemoveAppend(t, b, c);
    }
  }

  lemma {:induction false} RemoveCons(x: char, t: string, c: char)
    ensures Remove([x] + t, c) == (if x == c then [] else [x]) + Remove(t, c)
  {
    assert ([x] + t)[1..] == t;
  }

  function DigitChar(d: nat): char
    requires d < 10
  {
    (48 + d) as char
  }

  /** `str(n)` for a natural number: its decimal digits, most significant first. */
  function NatToString(n: nat): (r: string)
    ensures |r| >= 1
    ensures forall k :: 0 <= k < |r| ==> '0' <= r[k] <= '9'
    decreases n
  {
    if n < 10 then [DigitChar(n)] else NatToString(n / 10) + [DigitChar(n % 10)]
  }

  /** Reading decimal digits back as a number (the inverse of NatToString). */
  function DigitsValue(s: string): nat
    requires forall k :: 0 <= k < |s| ==> '0' <= s[k] <= '9'
  {
    if s == [] then 0 else DigitsValue(s[..|s| - 1]) * 10 + (s[|s| - 1] as int - '0' as int)
  }

  lemma {:induction false} NatToStringRoundTrip(n: nat)
    ensures DigitsValue(NatToString(n)) == n
    decreases n
  {
    if n >= 10 {
      NatToStringRoundTrip(n / 10);
      var r := NatToString(n);
      assert r[..|r| - 1] == NatToString(n / 10);
    }
  }
}
