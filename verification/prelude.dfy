/** The Option and Result datatypes used throughout the model. */
module Wrappers {

  datatype Option<+T> = None | Some(value: T)

  datatype Result<+T, +E> = Ok(value: T) | Err(error: E)
}

/**
 Java's 32-bit `int`. Every value the client holds (chip counts, indices,
 the bet spinner) is a Java `int`, and `+` and `*` on it wrap around modulo
 2^32. The model keeps values in the `I32` range and wraps explicitly.
 */
module JavaInt {

  const MODULUS: int := 0x1_0000_0000
  const MIN: int := -0x8000_0000
  const MAX: int := 0x7fff_ffff

  type I32 = x: int | MIN <= x <= MAX

  predicate InRange(x: int) {
    MIN <= x <= MAX
  }

  /** Two's-complement truncation of an unbounded integer to 32 bits. */
  function Wrap(x: int): (r: I32)
    ensures (r - x) % MODULUS == 0
    ensures InRange(x) ==> r == x
  {
    var m := (x - MIN) % MODULUS;
    assert InRange(x) ==> m == x - MIN;
    m + MIN
  }

  /** Two integers congruent modulo 2^32 wrap to the same `int`. */
  lemma WrapCongruent(x: int, y: int)
    requires (x - y) % MODULUS == 0
    ensures Wrap(x) == Wrap(y)
  {
    var k := (x - y) / MODULUS;
    assert x - MIN == (y - MIN) + k * MODULUS;
    ModShift(y - MIN, k);
  }

  lemma ModShift(a: int, k: int)
    ensures (a + k * MODULUS) % MODULUS == a % MODULUS
  {
  }

  /** Java `a + b` on two `int`s. */
  function Add(a: I32, b: I32): (r: I32)
    ensures InRange(a + b) ==> r == a + b
    ensures a + b > MAX ==> r == a + b - MODULUS
    ensures a + b < MIN ==> r == a + b + MODULUS
  {
    Wrap(a + b)
  }

  /** Java `a * 2` on an `int`. */
  function Double(a: I32): (r: I32)
    ensures InRange(2 * a) ==> r == 2 * a
    ensures 2 * a > MAX ==> r == 2 * a - MODULUS
    ensures 2 * a < MIN ==> r == 2 * a + MODULUS
  {
    Wrap(2 * a)
  }

  /** Adding `b` and then `-b` restores `a`, overflow or not. */
  lemma AddInverse(a: I32, b: I32)
    requires b != MIN
    ensures Add(Add(a, b), -b) == a
  {
  }
}

/** String operations of `java.lang.String` that the client relies on. */
module Text {
  import opened Wrappers

  /** `s.startsWith(p)` */
  predicate StartsWith(s: string, p: string) {
    |p| <= |s| && s[..|p|] == p
  }

  /** `s` contains `p` starting at index `i`. */
  predicate OccursAt(s: string, p: string, i: nat) {
    i + |p| <= |s| && s[i..i + |p|] == p
  }

  /**
   `s.replace(target, "")`: one left-to-right scan that deletes every
   non-overlapping occurrence of `target`. Characters brought together by a
   deletion are not rescanned, so the result may still contain `target`.
   */
  function RemoveAll(s: string, target: string): (r: string)
    requires |target| > 0
    decreases |s|
  {
    if |s| < |target| then s
    else if s[..|target|] == target then RemoveAll(s[|target|..], target)
    else [s[0]] + RemoveAll(s[1..], target)
  }

  /** Deleting never lengthens the string. */
  lemma {:induction false} RemoveAllLength(s: string, target: string)
    requires |target| > 0
    ensures |RemoveAll(s, target)| <= |s|
    decreases |s|
  {
    if |s| < |target| {
    } else if s[..|target|] == target {
      RemoveAllLength(s[|target|..], target);
    } else {
      RemoveAllLength(s[1..], target);
    }
  }

  /** Every character of the result comes from `s`: nothing is invented. */
  lemma {:induction false} RemoveAllChars(s: string, target: string)
    requires |target| > 0
    ensures multiset(RemoveAll(s, target)) <= multiset(s)
    decreases |s|
  {
    if |s| < |target| {
    } else if s[..|target|] == target {
      var t := s[|target|..];
      RemoveAllChars(t, target);
      assert s == s[..|target|] + t;
      assert multiset(s) == multiset(s[..|target|]) + multiset(t);
    } else {
      RemoveAllChars(s[1..], target);
      assert s == [s[0]] + s[1..];
      assert multiset(s) == multiset([s[0]]) + multiset(s[1..]);
    }
  }

  /** A string holding the target somewhere loses at least one whole copy of it. */
  lemma {:induction false} RemoveAllShortens(s: string, target: string, i: nat)
    requires |target| > 0 && OccursAt(s, target, i)
    ensures |RemoveAll(s, target)| <= |s| - |target|
    decreases |s|
  {
    if s[..|target|] == target {
      RemoveAllLength(s[|target|..], target);
    } else {
      assert i > 0;
      assert OccursAt(s[1..], target, i - 1) by {
        assert s[1..][i - 1..i - 1 + |target|] == s[i..i + |target|];
      }
      RemoveAllShortens(s[1..], target, i - 1);
    }
  }

  /** A string without any occurrence of `target` is left unchanged. */
  lemma {:induction false} RemoveAllNoOccurrence(s: string, target: string)
    requires |target| > 0
    requires forall i: nat :: !OccursAt(s, target, i)
    ensures RemoveAll(s, target) == s
    decreases |s|
  {
    if |s| < |target| {
    } else {
      assert !OccursAt(s, target, 0);
      assert s[..|target|] != target;
      forall i: nat
        ensures !OccursAt(s[1..], target, i)
      {
        assert !OccursAt(s, target, i + 1);
        if i + |target| <= |s[1..]| {
          assert s[1..][i..i + |target|] == s[i + 1..i + 1 + |target|];
        }
      }
      RemoveAllNoOccurrence(s[1..], target);
      assert s == [s[0]] + s[1..];
    }
  }

  /** A string lacking the first character of `target` has no occurrence of it. */
  lemma NoOccurrenceWithoutFirst(s: string, target: string)
    requires |target| > 0 && target[0] !in s
    ensures forall i: nat :: !OccursAt(s, target, i)
  {
  }

  /** A leading occurrence is deleted, and the scan continues after it. */
  lemma RemoveAllLeading(p: string, rest: string)
    requires |p| > 0
    ensures RemoveAll(p + rest, p) == RemoveAll(rest, p)
  {
  }

  predicate IsDigit(c: char) {
    '0' <= c <= '9'
  }

  /** Java's `n + ""` for a non-negative `int`: its decimal digits. */
  function Decimal(n: nat): (s: string)
    ensures |s| > 0
    ensures forall i :: 0 <= i < |s| ==> IsDigit(s[i])
    ensures n > 0 ==> s[0] != '0'
    decreases n
  {
    var d := [(('0' as int) + n % 10) as char];
    if n < 10 then d else Decimal(n / 10) + d
  }

  /** The value denoted by a string of decimal digits. */
  function DigitsValue(s: string): nat
    requires forall i :: 0 <= i < |s| ==> IsDigit(s[i])
    decreases |s|
  {
    if |s| == 0 then 0
    else
      assert IsDigit(s[|s| - 1]);
      10 * DigitsValue(s[..|s| - 1]) + ((s[|s| - 1] as int) - ('0' as int))
  }

  /** Reading back the decimal digits gives the number that was printed. */
  lemma {:induction false} DecimalRoundTrip(n: nat)
    ensures DigitsValue(Decimal(n)) == n
    decreases n
  {
    var s := Decimal(n);
    if n >= 10 {
      DecimalRoundTrip(n / 10);
      assert s[..|s| - 1] == Decimal(n / 10);
    }
  }
}
