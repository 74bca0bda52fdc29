/** Small helpers shared by the model: optional and fallible results, the least
    element of a finite set of ids (the model of "first in ascending key order"
    over a `BTreeMap`), decimal rendering of counters, and a counting fact. */
module Util {

  datatype Option<T> = None | Some(value: T)

  datatype Result<T, E> = Ok(value: T) | Err(error: E)

  /** Every non-empty set of naturals has a least element. */
  lemma MinExists(s: set<nat>)
    requires s != {}
    ensures exists m :: m in s && forall y :: y in s ==> m <= y
  {
    var x :| x in s;
    MinBelow(s, x);
  }

  lemma {:induction false} MinBelow(s: set<nat>, x: nat)
    requires x in s
    ensures exists m :: m in s && forall y :: y in s ==> m <= y
    decreases x
  {
    if !forall y :: y in s ==> x <= y {
      var y :| y in s && y < x;
      MinBelow(s, y);
    }
  }

  /** The least element of a non-empty set: the key a `BTreeMap` iteration meets first. */
  function SetMin(s: set<nat>): (m: nat)
    requires s != {}
    ensures m in s
    ensures forall y :: y in s ==> m <= y
  {
    MinExists(s);
    var m :| m in s && forall y :: y in s ==> m <= y;
    m
  }

  /** Every element left after removing the least one is larger than it. */
  lemma SetMinRemoved(s: set<nat>, m: nat)
    requires s != {} && m == SetMin(s)
    ensures forall j :: j in s - {m} ==> m < j
  {
  }

  function DigitChar(d: nat): char
    requires d < 10
  {
    "0123456789"[d]
  }

  /** Decimal rendering of a counter, as Rust's `format!("{i}")` writes it. */
  function NatToString(n: nat): (s: string)
    ensures 1 <= |s|
    decreases n
  {
    if n < 10 then [DigitChar(n)] else NatToString(n / 10) + [DigitChar(n % 10)]
  }

  lemma DigitCharInjective(a: nat, b: nat)
    requires a < 10 && b < 10 && DigitChar(a) == DigitChar(b)
    ensures a == b
  {
  }

  /** Distinct numbers have distinct decimal renderings. */
  lemma {:induction false} NatToStringInjective(a: nat, b: nat)
    requires NatToString(a) == NatToString(b)
    ensures a == b
    decreases a
  {
    var sa, sb := NatToString(a), NatToString(b);
    if a < 10 && b < 10 {
      DigitCharInjective(a, b);
    } else if a >= 10 && b >= 10 {
      assert sa[|sa| - 1] == DigitChar(a % 10) && sb[|sb| - 1] == DigitChar(b % 10);
      DigitCharInjective(a % 10, b % 10);
      assert NatToString(a / 10) == sa[..|sa| - 1] == sb[..|sb| - 1] == NatToString(b / 10);
      NatToStringInjective(a / 10, b / 10);
    }
  }

  lemma StrictSubsetSmaller<T>(a: set<T>, b: set<T>)
    requires a < b
    ensures |a| < |b|
  {
    assert !(b <= a);
    var x :| x in b && x !in a;
    assert b == a + (b - a);
    assert a * (b - a) == {};
    assert x in b - a;
  }

  ghost predicate Distinct<T>(w: seq<T>)
  {
    forall i, j :: 0 <= i < j < |w| ==> w[i] != w[j]
  }

  /** A repetition-free sequence drawn from a finite set is no longer than the set. */
  lemma {:induction false} DistinctSeqBound<T>(w: seq<T>, u: set<T>)
    requires Distinct(w)
    requires forall i :: 0 <= i < |w| ==> w[i] in u
    ensures |w| <= |u|
  {
    if w != [] {
      var x := w[|w| - 1];
      var w' := w[..|w| - 1];
      assert forall i :: 0 <= i < |w'| ==> w'[i] in u - {x} by {
        forall i | 0 <= i < |w'| ensures w'[i] in u - {x} {
          assert w'[i] == w[i] && w[i] != w[|w| - 1];
        }
      }
      DistinctSeqBound(w', u - {x});
    }
  }

  /** The position of the first entry equal to `x`, if any: a front-to-back search. */
  function IndexOf(s: seq<string>, x: string): (r: Option<nat>)
    ensures r.None? <==> x !in s
    ensures r.Some? ==> r.value < |s| && s[r.value] == x && x !in s[..r.value]
    decreases |s|
  {
    if |s| == 0 then None
    else if s[0] == x then Some(0)
    else
      match IndexOf(s[1..], x)
      case None => None
      case Some(i) =>
        assert s[..i + 1] == [s[0]] + s[1..][..i];
        Some(i + 1)
  }
}
