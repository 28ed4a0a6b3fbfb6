/**
 * The Python built-ins the handlers lean on, with Python's own edge cases:
 * list slicing with negative or out-of-range bounds, `str.split` on a
 * one-character separator, `str.strip` of one character, ASCII `str.lower`,
 * and `int()` / `str()` on integers written in decimal.
 */
module PyBuiltins {
  import opened Records

  /** How Python turns one slice bound into a position of a list of length `n`. */
  function SliceBound(i: int, n: nat): (k: nat)
    ensures k <= n
  {
    if i < 0 then (if i + n < 0 then 0 else i + n)
    else if i < n then i
    else n
  }

  /** `s[lo:hi]` on a Python list. */
  function Slice<T>(s: seq<T>, lo: int, hi: int): seq<T>
  {
    var a, b := SliceBound(lo, |s|), SliceBound(hi, |s|);
    if a < b then s[a..b] else []
  }

  function Min(a: int, b: int): int { if a < b then a else b }

  /** A slice is never wider than its bounds: `s[lo:lo + n]` has at most `n` elements, even for negative `lo`. */
  lemma SliceWidth<T>(s: seq<T>, lo: int, hi: int)
    requires lo <= hi
    ensures |Slice(s, lo, hi)| <= hi - lo
  {
  }

  /** With non-negative bounds a Python slice is the part of `[lo, hi)` that lies inside the list. */
  lemma SliceNonNegative<T>(s: seq<T>, lo: int, hi: int)
    requires 0 <= lo <= hi
    ensures Min(lo, |s|) <= Min(hi, |s|) <= |s|
    ensures Slice(s, lo, hi) == s[Min(lo, |s|)..Min(hi, |s|)]
    ensures |Slice(s, lo, hi)| <= hi - lo
  {
  }

  /** `s.split(sep)` for a one-character separator: the maximal runs between separators. */
  function Split(s: string, sep: char): (parts: seq<string>)
    ensures |parts| >= 1
    ensures forall i :: 0 <= i < |parts| ==> sep !in parts[i]
  {
    if s == [] then [""]
    else
      var rest := Split(s[1..], sep);
      if s[0] == sep then [""] + rest
      else [[s[0]] + rest[0]] + rest[1..]
  }

  /** `sep.join(parts)`: the inverse of `Split`. */
  function Join(parts: seq<string>, sep: char): string
    requires |parts| >= 1
  {
    if |parts| == 1 then parts[0] else parts[0] + [sep] + Join(parts[1..], sep)
  }

  /** Splitting loses nothing: joining the pieces back gives the original string. */
  lemma {:induction false} JoinSplit(s: string, sep: char)
    ensures Join(Split(s, sep), sep) == s
  {
    if s != [] {
      var rest := Split(s[1..], sep);
      JoinSplit(s[1..], sep);
      if s[0] != sep {
        var parts := Split(s, sep);
        assert parts == [[s[0]] + rest[0]] + rest[1..];
        if |rest| > 1 {
          assert parts[1..] == rest[1..];
        }
      } else {
        assert Split(s, sep)[1..] == rest;
      }
    }
  }

  /** A string without the separator is a single piece. */
  lemma {:induction false} SplitWithoutSeparator(a: string, sep: char)
    requires sep !in a
    ensures Split(a, sep) == [a]
  {
    if a != [] {
      SplitWithoutSeparator(a[1..], sep);
      assert [a[0]] + a[1..] == a;
    }
  }

  /** The first piece of a split ends at the first separator. */
  lemma {:induction false} SplitAtFirst(a: string, b: string, sep: char)
    requires sep !in a
    ensures Split(a + [sep] + b, sep) == [a] + Split(b, sep)
  {
    if a == [] {
      assert a + [sep] + b == [sep] + b;
      assert ([sep] + b)[1..] == b;
    } else {
      SplitAtFirst(a[1..], b, sep);
      assert (a + [sep] + b)[1..] == a[1..] + [sep] + b;
      assert [a[0]] + a[1..] == a;
    }
  }

  /** `s.count(c)` for one character. */
  function Count(s: string, c: char): nat
  {
    if s == [] then 0 else (if s[0] == c then 1 else 0) + Count(s[1..], c)
  }

  lemma {:induction false} CountAppend(a: string, b: string, c: char)
    ensures Count(a + b, c) == Count(a, c) + Count(b, c)
  {
    if a != [] {
      CountAppend(a[1..], b, c);
      assert (a + b)[1..] == a[1..] + b;
    } else {
      assert a + b == b;
    }
  }

  /** `split` yields one piece more than there are separators. */
  lemma {:induction false} SplitPieces(s: string, sep: char)
    ensures |Split(s, sep)| == Count(s, sep) + 1
  {
    if s != [] {
      SplitPieces(s[1..], sep);
    }
  }

  /** The first piece is the text before the first separator, and the separator follows it. */
  lemma {:induction false} FirstPiece(s: string, sep: char)
    ensures Split(s, sep)[0] <= s
    ensures |Split(s, sep)| > 1 ==> |Split(s, sep)[0]| < |s| && s[|Split(s, sep)[0]|] == sep
    ensures |Split(s, sep)| == 1 ==> Split(s, sep)[0] == s
  {
    if s != [] && s[0] != sep {
      FirstPiece(s[1..], sep);
    }
  }

  /** A separator-free head stays in the first piece. */
  lemma {:induction false} SplitHead(a: string, t: string, sep: char)
    requires sep !in a
    ensures Split(a + t, sep)[0] == a + Split(t, sep)[0]
  {
    if a != [] {
      SplitHead(a[1..], t, sep);
      assert (a + t)[1..] == a[1..] + t;
      assert [a[0]] + a[1..] == a;
    } else {
      assert a + t == t;
    }
  }

  /** `s.lstrip(c)`. */
  function StripLeft(s: string, c: char): (r: string)
    ensures |r| <= |s| && r == s[|s| - |r|..]
    ensures r == [] || r[0] != c
    ensures forall k :: 0 <= k < |s| - |r| ==> s[k] == c
  {
    if s != [] && s[0] == c then StripLeft(s[1..], c) else s
  }

  /** `s.rstrip(c)`. */
  function StripRight(s: string, c: char): (r: string)
    ensures |r| <= |s| && r == s[..|r|]
    ensures r == [] || r[|r| - 1] != c
    ensures forall k :: |r| <= k < |s| ==> s[k] == c
  {
    if s != [] && s[|s| - 1] == c then StripRight(s[..|s| - 1], c) else s
  }

  /** A span with only `c` outside it and no `c` at its ends. */
  predicate CleanSpan(s: string, c: char, i: int, j: int)
  {
    0 <= i <= j <= |s| &&
    (forall k :: 0 <= k < i ==> s[k] == c) && (forall k :: j <= k < |s| ==> s[k] == c) &&
    (i == j || (s[i] != c && s[j - 1] != c))
  }

  /**
   * A suffix `t` of `s` after a run of `c`s, and a prefix `r` of `t` before a
   * run of `c`s, with no `c` at the inner ends: `r` is a clean span of `s`.
   */
  lemma SpanOfParts(s: string, t: string, r: string, c: char)
    requires |t| <= |s| && t == s[|s| - |t|..] && (forall k :: 0 <= k < |s| - |t| ==> s[k] == c)
    requires t == [] || t[0] != c
    requires |r| <= |t| && r == t[..|r|] && (forall k :: |r| <= k < |t| ==> t[k] == c)
    requires r == [] || r[|r| - 1] != c
    ensures var i := |s| - |t|; CleanSpan(s, c, i, i + |r|) && r == s[i..i + |r|]
  {
    var i, j := |s| - |t|, |s| - |t| + |r|;
    assert r == s[i..j];
    forall k | j <= k < |s| ensures s[k] == c {
      assert s[k] == t[k - i];
    }
    if i < j {
      assert s[i] == r[0] == t[0];
      assert s[j - 1] == r[|r| - 1];
    }
  }

  /** `s.strip(c)`: both ends lose every `c`, nothing in between changes. */
  function Strip(s: string, c: char): (r: string)
    ensures |r| <= |s|
    ensures r == [] || (r[0] != c && r[|r| - 1] != c)
    ensures exists i, j :: CleanSpan(s, c, i, j) && r == s[i..j]
  {
    var t := StripLeft(s, c);
    var r := StripRight(t, c);
    SpanOfParts(s, t, r, c);
    r
  }

  /** Stripping a string that neither starts nor ends with `c` changes nothing; so `Strip` is idempotent. */
  lemma StripStable(s: string, c: char)
    requires s == [] || (s[0] != c && s[|s| - 1] != c)
    ensures Strip(s, c) == s
  {
  }

  /** Two clean spans of the same string are the same span, or both empty. */
  lemma CleanSpanUnique(s: string, c: char, i: int, j: int, i': int, j': int)
    requires CleanSpan(s, c, i, j) && CleanSpan(s, c, i', j')
    ensures s[i..j] == s[i'..j']
  {
    if i < j {
      assert s[i] != c;
      assert i' <= i < j';
    }
    if i' < j' {
      assert s[i'] != c;
      assert i <= i' < j;
    }
    if i < j {
      assert i == i';
      assert s[j - 1] != c && s[j' - 1] != c;
      assert j == j';
    }
  }

  /** `strip(c)` is the one clean span of `s`. */
  lemma StripUnique(s: string, c: char, i: int, j: int)
    requires CleanSpan(s, c, i, j)
    ensures Strip(s, c) == s[i..j]
  {
    var i', j' :| CleanSpan(s, c, i', j') && Strip(s, c) == s[i'..j'];
    CleanSpanUnique(s, c, i, j, i', j');
  }

  function LowerChar(ch: char): char
  {
    if 'A' <= ch <= 'Z' then (ch as int + 32) as char else ch
  }

  /** `s.lower()` on the ASCII letters. */
  function Lower(s: string): (r: string)
    ensures |r| == |s|
    ensures forall i :: 0 <= i < |r| ==> !('A' <= r[i] <= 'Z')
    ensures forall i :: 0 <= i < |r| ==> ('a' <= r[i] <= 'z' <==> 'a' <= s[i] <= 'z' || 'A' <= s[i] <= 'Z')
    ensures forall i :: 0 <= i < |r| && !('A' <= s[i] <= 'Z') ==> r[i] == s[i]
    ensures forall i :: 0 <= i < |r| && 'A' <= s[i] <= 'Z' ==> r[i] as int == s[i] as int + 32
  {
    seq(|s|, i requires 0 <= i < |s| => LowerChar(s[i]))
  }

  /** A string without capitals is its own `lower()`. */
  lemma LowerStable(s: string)
    requires forall i :: 0 <= i < |s| ==> !('A' <= s[i] <= 'Z')
    ensures Lower(s) == s
  {
    var r := Lower(s);
    assert forall i :: 0 <= i < |s| ==> r[i] == s[i];
  }

  predicate IsDigit(ch: char) { '0' <= ch <= '9' }

  predicate AllDigits(s: string) { forall i :: 0 <= i < |s| ==> IsDigit(s[i]) }

  function DigitChar(d: nat): char
    requires d < 10
  {
    ('0' as int + d) as char
  }

  function DigitsValue(s: string): nat
    requires AllDigits(s)
  {
    if s == [] then 0 else DigitsValue(s[..|s| - 1]) * 10 + (s[|s| - 1] as int - '0' as int)
  }

  /** `str(n)` for a natural number. */
  function NatText(n: nat): (s: string)
    ensures s != [] && AllDigits(s)
  {
    if n < 10 then [DigitChar(n)] else NatText(n / 10) + [DigitChar(n % 10)]
  }

  /** `str(n)` for an integer. */
  function DecimalText(n: int): string
  {
    if n < 0 then "-" + NatText(-n) else NatText(n)
  }

  /** `int(s)` for a sign followed by decimal digits; anything else raises `ValueError`. */
  function ParseInt(s: string): Option<int>
  {
    if s == [] then None
    else if s[0] == '-' || s[0] == '+' then
      var digits := s[1..];
      if digits != [] && AllDigits(digits) then
        var v: int := DigitsValue(digits);
        Some(if s[0] == '-' then -v else v)
      else None
    else if AllDigits(s) then Some(DigitsValue(s))
    else None
  }

  lemma {:induction false} NatTextValue(n: nat)
    ensures DigitsValue(NatText(n)) == n
  {
    if n >= 10 {
      NatTextValue(n / 10);
      var s := NatText(n);
      assert s[..|s| - 1] == NatText(n / 10);
    }
  }

  /** `int(str(n)) == n`. */
  lemma ParseDecimalText(n: int)
    ensures ParseInt(DecimalText(n)) == Some(n)
  {
    if n < 0 {
      NatTextValue(-n);
      assert DecimalText(n)[1..] == NatText(-n);
    } else {
      NatTextValue(n);
    }
  }
}
