/**
 * The pieces of Python's string handling the backend relies on:
 * `str.startswith`, `str.split(sep)` with a non-empty separator,
 * `sep.join(parts)`, and the decimal rendering of a non-negative integer
 * that an f-string performs.
 */
module Strings {
  import opened Common

  /** `sep` occurs in `s` starting at index `i`. */
  predicate OccursAt(s: string, sep: string, i: int)
  {
    0 <= i && i + |sep| <= |s| && s[i..i + |sep|] == sep
  }

  lemma OccursShift(s: string, sep: string, j: int)
    requires |s| >= 1 && j >= 1
    ensures OccursAt(s, sep, j) <==> OccursAt(s[1..], sep, j - 1)
  {
    if j + |sep| <= |s| {
      assert s[1..][j - 1..j - 1 + |sep|] == s[j..j + |sep|];
    }
  }

  /** The index of the first occurrence of `sep` in `s` (Python's `str.find`). */
  function Find(s: string, sep: string): (r: Option<nat>)
    requires |sep| > 0
    ensures r.Some? ==> OccursAt(s, sep, r.value)
    ensures r.Some? ==> forall j {:trigger OccursAt(s, sep, j)} :: 0 <= j < r.value ==> !OccursAt(s, sep, j)
    ensures r.None? ==> forall j {:trigger OccursAt(s, sep, j)} :: !OccursAt(s, sep, j)
    decreases |s|
  {
    if |s| < |sep| then None
    else if s[..|sep|] == sep then Some(0)
    else
      var rest := Find(s[1..], sep);
      assert forall j :: j >= 1 ==> (OccursAt(s, sep, j) <==> OccursAt(s[1..], sep, j - 1)) by {
        forall j | j >= 1 { OccursShift(s, sep, j); }
      }
      match rest
      case None => None
      case Some(i) => Some(i + 1)
  }

  lemma OccursInPrefix(s: string, sep: string, i: nat, j: int)
    requires i <= |s| && OccursAt(s[..i], sep, j)
    ensures OccursAt(s, sep, j) && j + |sep| <= i
  {
    assert s[..i][j..j + |sep|] == s[j..j + |sep|];
  }

  /**
   * Python's `s.split(sep)`: the pieces between the non-overlapping
   * occurrences of `sep`, found from the left; there is always at least one.
   */
  function Split(s: string, sep: string): (parts: seq<string>)
    requires |sep| > 0
    ensures |parts| >= 1
    decreases |s|
  {
    var r := Find(s, sep);
    if r.None? then [s] else [s[..r.value]] + Split(s[r.value + |sep|..], sep)
  }

  /** The text before the first occurrence of `sep` holds no occurrence of it. */
  lemma BeforeFirstLacksSep(s: string, sep: string, i: nat)
    requires |sep| > 0 && Find(s, sep) == Some(i)
    ensures Find(s[..i], sep).None?
  {
    forall j | OccursAt(s[..i], sep, j) ensures false {
      OccursInPrefix(s, sep, i, j);
    }
  }

  /** Split unfolded at the first occurrence of the separator. */
  lemma SplitAt(s: string, sep: string, i: nat)
    requires |sep| > 0 && Find(s, sep) == Some(i)
    ensures i + |sep| <= |s| && Split(s, sep) == [s[..i]] + Split(s[i + |sep|..], sep)
  {
    assert OccursAt(s, sep, i);
  }

  /** No piece that Split returns contains the separator. */
  lemma {:induction false} SplitPieceLacksSep(s: string, sep: string, k: nat)
    requires |sep| > 0 && k < |Split(s, sep)|
    ensures Find(Split(s, sep)[k], sep).None?
    decreases |s|
  {
    var r := Find(s, sep);
    if r.None? {
      assert Split(s, sep) == [s];
    } else {
      var i := r.value;
      SplitAt(s, sep, i);
      if k == 0 {
        BeforeFirstLacksSep(s, sep, i);
      } else {
        SplitPieceLacksSep(s[i + |sep|..], sep, k - 1);
      }
    }
  }

  /** Python's `sep.join(parts)`. */
  function Join(parts: seq<string>, sep: string): string
  {
    if |parts| == 0 then ""
    else if |parts| == 1 then parts[0]
    else parts[0] + sep + Join(parts[1..], sep)
  }

  lemma Decompose(s: string, i: nat, j: nat)
    requires i <= j <= |s|
    ensures s == s[..i] + s[i..j] + s[j..]
  {
  }

  /** Splitting and joining back with the same separator gives the input. */
  lemma {:induction false} SplitJoin(s: string, sep: string)
    requires |sep| > 0
    ensures Join(Split(s, sep), sep) == s
    decreases |s|
  {
    var r := Find(s, sep);
    if r.Some? {
      var i := r.value;
      var tail := s[i + |sep|..];
      var rest := Split(tail, sep);
      SplitJoin(tail, sep);
      Decompose(s, i, i + |sep|);
      calc {
        Join(Split(s, sep), sep);
        Join([s[..i]] + rest, sep);
        s[..i] + sep + Join(rest, sep);
        s[..i] + s[i..i + |sep|] + tail;
        s;
      }
    }
  }

  /** `sep` cannot be found in a string that lacks the separator's first character. */
  lemma NoFirstCharNoFind(s: string, sep: string)
    requires |sep| > 0 && sep[0] !in s
    ensures Find(s, sep).None?
  {
    forall j ensures !OccursAt(s, sep, j) {
      if 0 <= j && j + |sep| <= |s| {
        assert s[j..j + |sep|][0] == s[j];
      }
    }
  }

  /** No occurrence of `sep` starts inside a prefix that lacks the separator's first character. */
  lemma NoneStartsIn(p: string, sep: string, rest: string)
    requires |sep| > 0 && sep[0] !in p
    ensures forall j :: 0 <= j < |p| ==> !OccursAt(p + rest, sep, j)
  {
    var s := p + rest;
    forall j | 0 <= j < |p| ensures !OccursAt(s, sep, j) {
      assert s[j] == p[j];
      if j + |sep| <= |s| {
        assert s[j..j + |sep|][0] == s[j];
      }
    }
  }

  /** `sep` occurs right after `p` in `p + rest` when `rest` starts with it. */
  lemma OccursAfter(p: string, sep: string, rest: string)
    requires sep <= rest
    ensures OccursAt(p + rest, sep, |p|)
  {
    var s := p + rest;
    assert s[|p|..|p| + |sep|] == rest[..|sep|];
  }

  /**
   * When `rest` starts with `sep` and `p` lacks the separator's first
   * character, the first occurrence of `sep` in `p + rest` is right after `p`.
   */
  lemma FindAfter(p: string, sep: string, rest: string)
    requires |sep| > 0 && sep[0] !in p && sep <= rest
    ensures Find(p + rest, sep) == Some(|p|)
  {
    OccursAfter(p, sep, rest);
    NoneStartsIn(p, sep, rest);
    var r := Find(p + rest, sep);
    assert !(r.value < |p|);
  }

  /** Split of `p + sep + rest` when `p` and `rest` hold no occurrence of `sep`. */
  lemma SplitTwo(p: string, sep: string, rest: string)
    requires |sep| > 0 && sep[0] !in p && Find(rest, sep).None?
    ensures Split(p + sep + rest, sep) == [p, rest]
  {
    SplitAfterFirst(p, sep, rest);
  }

  /** Splitting at a first separator that follows a piece free of it. */
  lemma SplitAfterFirst(p: string, sep: string, rest: string)
    requires |sep| > 0 && sep[0] !in p
    ensures Split(p + sep + rest, sep) == [p] + Split(rest, sep)
  {
    var s := p + sep + rest;
    assert s == p + (sep + rest);
    FindAfter(p, sep, sep + rest);
    assert s[..|p|] == p;
    assert s[|p| + |sep|..] == rest;
  }

  /** Joining parts that lack the separator's first character and splitting again gives the parts. */
  lemma {:induction false} JoinSplit(parts: seq<string>, sep: string)
    requires |sep| > 0 && |parts| >= 1
    requires forall k :: 0 <= k < |parts| ==> sep[0] !in parts[k]
    ensures Split(Join(parts, sep), sep) == parts
    decreases |parts|
  {
    if |parts| == 1 {
      NoFirstCharNoFind(parts[0], sep);
    } else {
      var rest := parts[1..];
      assert Join(parts, sep) == parts[0] + sep + Join(rest, sep);
      SplitAfterFirst(parts[0], sep, Join(rest, sep));
      JoinSplit(rest, sep);
      assert parts == [parts[0]] + rest;
    }
  }

  /** Joining one more part. */
  lemma {:induction false} JoinSnoc(parts: seq<string>, last: string, sep: string)
    requires |parts| >= 1
    ensures Join(parts + [last], sep) == Join(parts, sep) + sep + last
    decreases |parts|
  {
    if |parts| == 1 {
      assert parts + [last] == [parts[0], last];
    } else {
      assert (parts + [last])[1..] == parts[1..] + [last];
      JoinSnoc(parts[1..], last, sep);
    }
  }

  // ---------------------------------------------------------------------
  // Decimal rendering of integers, as `f'{amount}'` produces it.

  predicate IsDigit(c: char)
  {
    '0' <= c <= '9'
  }

  predicate AllDigits(s: string)
  {
    forall k :: 0 <= k < |s| ==> IsDigit(s[k])
  }

  function Digit(d: nat): (c: char)
    requires d < 10
    ensures IsDigit(c) && (c as int) - ('0' as int) == d
  {
    (('0' as int) + d) as char
  }

  /**
   * The decimal digits of `n`: never empty, only digits, and without a
   * leading zero unless `n` is zero.
   */
  function Decimal(n: nat): (r: string)
    ensures |r| >= 1 && AllDigits(r)
    ensures r[0] == '0' ==> n == 0
    decreases n
  {
    if n < 10 then [Digit(n)] else Decimal(n / 10) + [Digit(n % 10)]
  }

  /** The number a string of decimal digits denotes. */
  function DigitsValue(s: string): nat
    requires AllDigits(s)
  {
    if s == [] then 0
    else DigitsValue(s[..|s| - 1]) * 10 + ((s[|s| - 1] as int) - ('0' as int))
  }

  /** Reading back the rendered digits gives the number. */
  lemma {:induction false} DecimalRoundTrip(n: nat)
    ensures DigitsValue(Decimal(n)) == n
    decreases n
  {
    if n >= 10 {
      DecimalRoundTrip(n / 10);
      var r := Decimal(n);
      assert r[..|r| - 1] == Decimal(n / 10);
    }
  }

  /** How many times `c` occurs in `s`. */
  function CountChar(s: string, c: char): nat
  {
    if s == [] then 0 else CountChar(s[..|s| - 1], c) + (if s[|s| - 1] == c then 1 else 0)
  }

  lemma {:induction false} CountCharConcat(a: string, b: string, c: char)
    ensures CountChar(a + b, c) == CountChar(a, c) + CountChar(b, c)
    decreases |b|
  {
    if b != [] {
      CountCharConcat(a, b[..|b| - 1], c);
      var ab := a + b;
      assert ab[..|ab| - 1] == a + b[..|b| - 1];
      assert ab[|ab| - 1] == b[|b| - 1];
      assert CountChar(ab, c) == CountChar(ab[..|ab| - 1], c) + (if ab[|ab| - 1] == c then 1 else 0);
    } else {
      assert a + b == a;
    }
  }

  lemma {:induction false} CountCharAbsent(s: string, c: char)
    requires c !in s
    ensures CountChar(s, c) == 0
    decreases |s|
  {
    if s != [] {
      var init := s[..|s| - 1];
      assert forall x :: x in init ==> x in s;
      CountCharAbsent(s[..|s| - 1], c);
    }
  }

  /** The concatenation of all parts, as HttpResponse joins an iterable body. */
  function Concat(parts: seq<string>): string
  {
    if parts == [] then "" else Concat(parts[..|parts| - 1]) + parts[|parts| - 1]
  }

  /** `c` followed by a text without `c` holds `c` once. */
  lemma CountCharLeading(c: char, t: string)
    requires c !in t
    ensures CountChar([c] + t, c) == 1
  {
    CountCharConcat([c], t, c);
    CountCharAbsent(t, c);
    assert [c][..0] == "";
  }

  /** Parts that each hold `c` once concatenate to a text holding it once per part. */
  lemma {:induction false} CountCharParts(parts: seq<string>, c: char)
    requires forall k :: 0 <= k < |parts| ==> CountChar(parts[k], c) == 1
    ensures CountChar(Concat(parts), c) == |parts|
    decreases |parts|
  {
    if parts != [] {
      var init := parts[..|parts| - 1];
      CountCharParts(init, c);
      CountCharConcat(Concat(init), parts[|parts| - 1], c);
    }
  }

  /** Each part with `sep` written in front of it. */
  function Prefixed(parts: seq<string>, sep: string): (r: seq<string>)
    ensures |r| == |parts| && forall k :: 0 <= k < |parts| ==> r[k] == sep + parts[k]
  {
    seq(|parts|, k requires 0 <= k < |parts| => sep + parts[k])
  }

  /** Writing `sep` before every part is joining the parts after an empty one. */
  lemma {:induction false} ConcatPrefixed(parts: seq<string>, sep: string)
    ensures Concat(Prefixed(parts, sep)) == Join([""] + parts, sep)
    decreases |parts|
  {
    if parts != [] {
      var init := parts[..|parts| - 1];
      var last := parts[|parts| - 1];
      ConcatPrefixed(init, sep);
      assert Prefixed(parts, sep)[..|parts| - 1] == Prefixed(init, sep);
      assert [""] + parts == ([""] + init) + [last];
      JoinSnoc([""] + init, last, sep);
    }
  }

  /** f'{n}' for an integer: a minus sign before the digits of a negative one. */
  function IntText(n: int): (r: string)
    ensures n >= 0 ==> r == Decimal(n)
    ensures n < 0 ==> r == "-" + Decimal(-n)
  {
    if n < 0 then "-" + Decimal(-n) else Decimal(n)
  }

  /**
   * Python's `int(text)` on the texts it reads as a plain decimal: digits,
   * possibly after a minus sign; None stands for the ValueError it raises
   * on the rest.
   */
  function ParseInt(text: string): (r: Option<int>)
  {
    if text != [] && AllDigits(text) then Some(DigitsValue(text) as int)
    else if |text| >= 2 && text[0] == '-' && AllDigits(text[1..]) then Some(-(DigitsValue(text[1..]) as int))
    else None
  }

  /** Reading back a rendered integer gives the integer. */
  lemma IntTextRoundTrip(n: int)
    ensures ParseInt(IntText(n)) == Some(n)
  {
    if n < 0 {
      DecimalRoundTrip(-n);
      var r := "-" + Decimal(-n);
      assert r[1..] == Decimal(-n);
      assert !IsDigit(r[0]);
    } else {
      DecimalRoundTrip(n);
    }
  }

  /** No rendered integer holds `c` when `c` is neither a digit nor a minus sign. */
  lemma IntTextLacks(n: int, c: char)
    requires !IsDigit(c) && c != '-'
    ensures c !in IntText(n)
  {
    var d := Decimal(if n < 0 then -n else n);
    assert c !in d by {
      forall k | 0 <= k < |d| ensures d[k] != c {
        assert IsDigit(d[k]);
      }
    }
  }
}
