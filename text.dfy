/**
 * The string operations the service relies on, as Python defines them:
 * `str.lower` (ASCII letters), the `in` substring test, `str.replace`,
 * `sep.join`, the code point order used to compare strings, and the decimal
 * rendering of integers.
 */
module Text {

  // ---------------------------------------------------------------------------
  // Case folding and substring search

  function LowerChar(c: char): char
  {
    if 'A' <= c <= 'Z' then (c as int + 32) as char else c
  }

  /** `s.lower()` on ASCII letters; every other character is kept. */
  function Lower(s: string): (r: string)
    ensures |r| == |s|
    ensures forall i :: 0 <= i < |s| ==> r[i] == LowerChar(s[i])
    ensures forall i :: 0 <= i < |s| ==> !('A' <= r[i] <= 'Z')
  {
    seq(|s|, i requires 0 <= i < |s| => LowerChar(s[i]))
  }

  /** Lowering twice is lowering once, so a lowered query is its own lowered form. */
  lemma LowerIdempotent(s: string)
    ensures Lower(Lower(s)) == Lower(s)
  {
    assert forall i :: 0 <= i < |s| ==> LowerChar(LowerChar(s[i])) == LowerChar(s[i]);
  }

  /** Python's `p in t` for strings: `p` occurs in `t` at some position. */
  predicate IsSubstring(p: string, t: string)
  {
    exists i | 0 <= i <= |t| - |p| :: OccursAt(p, t, i)
  }

  predicate OccursAt(p: string, t: string, i: int)
  {
    0 <= i <= |t| - |p| && t[i..i + |p|] == p
  }

  /** A verbatim occurrence is still an occurrence once both sides are lowered. */
  lemma SubstringSurvivesLower(p: string, t: string)
    requires IsSubstring(p, t)
    ensures IsSubstring(Lower(p), Lower(t))
  {
    var i :| 0 <= i <= |t| - |p| && OccursAt(p, t, i);
    assert t[i..i + |p|] == p;
    assert OccursAt(Lower(p), Lower(t), i) by {
      forall k | 0 <= k < |p|
        ensures Lower(t)[i..i + |p|][k] == Lower(p)[k]
      {
        assert t[i + k] == p[k];
      }
    }
  }

  // ---------------------------------------------------------------------------
  // str.replace

  predicate StartsWith(s: string, prefix: string)
  {
    |prefix| <= |s| && s[..|prefix|] == prefix
  }

  /**
   * `s.replace(pat, rep)`: scan from the left, replace each occurrence of
   * `pat` and continue after it, so occurrences never overlap.
   */
  function ReplaceAll(s: string, pat: string, rep: string): string
    requires pat != []
    decreases |s|
  {
    if |s| < |pat| then s
    else if StartsWith(s, pat) then rep + ReplaceAll(s[|pat|..], pat, rep)
    else [s[0]] + ReplaceAll(s[1..], pat, rep)
  }

  /** A string in which `pat` does not occur is left as it is. */
  lemma {:induction false} ReplaceAllAbsent(s: string, pat: string, rep: string)
    requires pat != []
    requires !IsSubstring(pat, s)
    ensures ReplaceAll(s, pat, rep) == s
    decreases |s|
  {
    if |s| >= |pat| {
      assert !StartsWith(s, pat) by {
        assert s[..|pat|] == s[0..0 + |pat|];
        assert !OccursAt(pat, s, 0);
      }
      assert !IsSubstring(pat, s[1..]) by {
        if IsSubstring(pat, s[1..]) {
          var i :| 0 <= i <= |s[1..]| - |pat| && OccursAt(pat, s[1..], i);
          assert s[1..][i..i + |pat|] == s[i + 1..i + 1 + |pat|];
          assert OccursAt(pat, s, i + 1);
        }
      }
      ReplaceAllAbsent(s[1..], pat, rep);
    }
  }

  /** A leading occurrence is replaced and scanning resumes right after it. */
  lemma ReplaceAllLeading(pat: string, rest: string, rep: string)
    requires pat != []
    ensures ReplaceAll(pat + rest, pat, rep) == rep + ReplaceAll(rest, pat, rep)
  {
    var s := pat + rest;
    assert s[..|pat|] == pat;
    assert s[|pat|..] == rest;
  }

  // ---------------------------------------------------------------------------
  // sep.join(xs) and its inverse

  function Join(xs: seq<string>, sep: string): string
  {
    if |xs| == 0 then ""
    else if |xs| == 1 then xs[0]
    else xs[0] + sep + Join(xs[1..], sep)
  }

  /** `s.split(c)` for a one-character separator: the maximal pieces between separators. */
  function Split(s: string, c: char): (r: seq<string>)
    ensures |r| >= 1
  {
    if s == [] then [""]
    else
      var rest := Split(s[1..], c);
      if s[0] == c then [""] + rest
      else [[s[0]] + rest[0]] + rest[1..]
  }

  lemma {:induction false} SplitNoSeparator(s: string, c: char)
    requires c !in s
    ensures Split(s, c) == [s]
  {
    if s != [] {
      SplitNoSeparator(s[1..], c);
      assert [s[0]] + s[1..] == s;
    }
  }

  lemma {:induction false} SplitAfterPiece(a: string, c: char, b: string)
    requires c !in a
    ensures Split(a + [c] + b, c) == [a] + Split(b, c)
  {
    if a == [] {
      assert ([c] + b)[1..] == b;
    } else {
      var s := a + [c] + b;
      assert s[1..] == a[1..] + [c] + b;
      SplitAfterPiece(a[1..], c, b);
      assert [a[0]] + a[1..] == a;
    }
  }

  /** Joining pieces free of the separator and splitting again gives the pieces back. */
  lemma {:induction false} SplitJoin(xs: seq<string>, c: char)
    requires |xs| >= 1
    requires forall i :: 0 <= i < |xs| ==> c !in xs[i]
    ensures Split(Join(xs, [c]), c) == xs
    decreases |xs|
  {
    if |xs| == 1 {
      SplitNoSeparator(xs[0], c);
    } else {
      SplitJoin(xs[1..], c);
      SplitAfterPiece(xs[0], c, Join(xs[1..], [c]));
      assert [xs[0]] + xs[1..] == xs;
    }
  }

  // ---------------------------------------------------------------------------
  // Python's string order: lexicographic on code points

  /** `a < b` for Python strings. */
  predicate Less(a: string, b: string)
  {
    if a == [] then b != []
    else if b == [] then false
    else if a[0] != b[0] then a[0] < b[0]
    else Less(a[1..], b[1..])
  }

  lemma {:induction false} LessIrreflexive(a: string)
    ensures !Less(a, a)
  {
    if a != [] {
      LessIrreflexive(a[1..]);
    }
  }

  lemma {:induction false} LessTransitive(a: string, b: string, c: string)
    requires Less(a, b) && Less(b, c)
    ensures Less(a, c)
  {
    if a != [] && b != [] && c != [] && a[0] == b[0] && b[0] == c[0] {
      LessTransitive(a[1..], b[1..], c[1..]);
    }
  }

  /** Distinct strings are ordered one way or the other. */
  lemma {:induction false} LessTotal(a: string, b: string)
    requires a != b
    ensures Less(a, b) || Less(b, a)
  {
    if a != [] && b != [] && a[0] == b[0] {
      assert a == [a[0]] + a[1..] && b == [b[0]] + b[1..];
      LessTotal(a[1..], b[1..]);
    }
  }

  /** A string below another is not also above it. */
  lemma LessAsymmetric(a: string, b: string)
    requires Less(a, b)
    ensures !Less(b, a)
  {
    if Less(b, a) {
      LessTransitive(a, b, a);
      LessIrreflexive(a);
    }
  }

  /** "Not below" is transitive: the relation the stable sort maintains between neighbours. */
  lemma NotLessTransitive(a: string, b: string, c: string)
    requires !Less(b, a) && !Less(c, b)
    ensures !Less(c, a)
  {
    if Less(c, a) {
      if a != b {
        LessTotal(a, b);
        if b != c {
          LessTotal(b, c);
          LessTransitive(a, b, c);
          LessAsymmetric(a, c);
        } else {
          LessAsymmetric(a, b);
        }
      } else {
        LessAsymmetric(c, b);
      }
    }
  }

  // ---------------------------------------------------------------------------
  // Decimal rendering of integers, `str(n)` and f"{n}"

  function DigitChar(d: nat): char
    requires d < 10
  {
    "0123456789"[d]
  }

  predicate IsDigit(c: char)
  {
    '0' <= c <= '9'
  }

  function DigitValue(c: char): nat
    requires IsDigit(c)
  {
    c as int - '0' as int
  }

  predicate AllDigits(s: string)
  {
    forall i :: 0 <= i < |s| ==> IsDigit(s[i])
  }

  /** `str(n)` for a non-negative integer: digits, most significant first, no leading zero. */
  function NatToString(n: nat): (r: string)
    ensures |r| >= 1 && AllDigits(r)
    ensures |r| > 1 ==> r[0] != '0'
  {
    if n < 10 then [DigitChar(n)] else NatToString(n / 10) + [DigitChar(n % 10)]
  }

  /** `str(i)` for any integer. */
  function IntToString(i: int): string
  {
    if i < 0 then "-" + NatToString(-i) else NatToString(i)
  }

  /** The value of a string of decimal digits (the empty string reads as 0). */
  function ParseNat(s: string): nat
    requires AllDigits(s)
  {
    if s == [] then 0 else ParseNat(s[..|s| - 1]) * 10 + DigitValue(s[|s| - 1])
  }

  /** Reading back a rendered number gives the number. */
  lemma {:induction false} ParseNatToString(n: nat)
    ensures ParseNat(NatToString(n)) == n
  {
    var s := NatToString(n);
    if n >= 10 {
      assert s[..|s| - 1] == NatToString(n / 10);
      ParseNatToString(n / 10);
    }
  }

  function Pow10(w: nat): (r: nat)
    ensures r >= 1
  {
    if w == 0 then 1 else 10 * Pow10(w - 1)
  }

  /** `n` written with exactly `w` digits, zero padded: `f"{n:0{w}d}"` for `n < 10^w`. */
  function FixedWidth(n: nat, w: nat): (r: string)
    ensures |r| == w && AllDigits(r)
  {
    if w == 0 then "" else FixedWidth(n / 10, w - 1) + [DigitChar(n % 10)]
  }

  /** A zero-padded rendering reads back as the number. */
  lemma {:induction false} ParseFixedWidth(n: nat, w: nat)
    requires n < Pow10(w)
    ensures ParseNat(FixedWidth(n, w)) == n
  {
    if w > 0 {
      var s := FixedWidth(n, w);
      assert s[..|s| - 1] == FixedWidth(n / 10, w - 1);
      assert n / 10 < Pow10(w - 1);
      ParseFixedWidth(n / 10, w - 1);
    }
  }

  /** A string of digits is the zero-padded rendering of its value at its own width. */
  lemma {:induction false} FixedWidthParse(s: string)
    requires AllDigits(s)
    ensures ParseNat(s) < Pow10(|s|)
    ensures FixedWidth(ParseNat(s), |s|) == s
  {
    if s != [] {
      var init := s[..|s| - 1];
      FixedWidthParse(init);
      var m, d := ParseNat(init), DigitValue(s[|s| - 1]);
      var n := ParseNat(s);
      assert n == m * 10 + d;
      AppendDigit(m, d, Pow10(|init|));
      DigitCharValue(s[|s| - 1]);
      assert FixedWidth(n, |s|) == FixedWidth(m, |init|) + [DigitChar(d)];
      assert init + [s[|s| - 1]] == s;
    }
  }

  lemma DigitCharValue(c: char)
    requires IsDigit(c)
    ensures DigitChar(DigitValue(c)) == c
  {
  }

  /** Appending digit `d` to the decimal digits of `m`. */
  lemma AppendDigit(m: nat, d: nat, bound: nat)
    requires d < 10 && m < bound
    ensures (m * 10 + d) / 10 == m && (m * 10 + d) % 10 == d
    ensures m * 10 + d < 10 * bound
  {
  }
}
