/** Sums, maxima and counts over integer sequences, with the facts the
    layout proofs use about them. */
module SeqMath {

  /** Sum of a sequence, peeled from the end so that loops adding left to
      right match `Sum(s[..i+1]) == Sum(s[..i]) + s[i]`. */
  function Sum(s: seq<int>): int {
    if s == [] then 0 else Sum(s[..|s| - 1]) + s[|s| - 1]
  }

  /** Sum of the positive parts of a sequence. */
  function PosSum(s: seq<int>): nat {
    if s == [] then 0 else PosSum(s[..|s| - 1]) + (if s[|s| - 1] > 0 then s[|s| - 1] else 0)
  }

  /** Number of occurrences of `x` in `s`. */
  function Count(s: seq<nat>, x: nat): nat {
    if s == [] then 0 else Count(s[..|s| - 1], x) + (if s[|s| - 1] == x then 1 else 0)
  }

  /** `x` repeated `k` times. */
  function Repeat(x: nat, k: nat): (r: seq<nat>)
    ensures |r| == k && forall i :: 0 <= i < k ==> r[i] == x
  {
    if k == 0 then [] else Repeat(x, k - 1) + [x]
  }

  /** The indices `0, 1, ..., n - 1` in order. */
  function Range(n: nat): (r: seq<nat>)
    ensures |r| == n && forall i :: 0 <= i < n ==> r[i] == i
  {
    if n == 0 then [] else Range(n - 1) + [n - 1]
  }

  lemma {:induction false} SumAppend(s: seq<int>, x: int)
    ensures Sum(s + [x]) == Sum(s) + x
  {
    assert (s + [x])[..|s|] == s;
  }

  lemma {:induction false} CountAppend(s: seq<nat>, y: nat, x: nat)
    ensures Count(s + [y], x) == Count(s, x) + (if y == x then 1 else 0)
  {
    assert (s + [y])[..|s|] == s;
  }

  /** Replacing one element changes the sum by the difference. */
  lemma {:induction false} SumUpdate(s: seq<int>, i: nat, v: int)
    requires i < |s|
    ensures Sum(s[i := v]) == Sum(s) - s[i] + v
  {
    var n := |s| - 1;
    assert s[i := v][..n] == if i == n then s[..n] else s[..n][i := v];
    if i < n {
      SumUpdate(s[..n], i, v);
    }
  }

  /** Replacing one element changes the positive sum by the difference of positive parts. */
  lemma {:induction false} PosSumUpdate(s: seq<int>, i: nat, v: int)
    requires i < |s|
    ensures PosSum(s[i := v]) == PosSum(s) - (if s[i] > 0 then s[i] else 0) + (if v > 0 then v else 0)
  {
    var n := |s| - 1;
    assert s[i := v][..n] == if i == n then s[..n] else s[..n][i := v];
    if i < n {
      PosSumUpdate(s[..n], i, v);
    }
  }

  /** A sum is bounded by the sum of elementwise upper bounds. */
  lemma {:induction false} SumMonotone(s: seq<int>, t: seq<int>)
    requires |s| == |t|
    requires forall i :: 0 <= i < |s| ==> s[i] <= t[i]
    ensures Sum(s) <= Sum(t)
  {
    if s != [] {
      SumMonotone(s[..|s| - 1], t[..|t| - 1]);
    }
  }

  /** A sequence of non-positive numbers has a non-positive sum. */
  lemma {:induction false} SumNonPositive(s: seq<int>)
    requires forall i :: 0 <= i < |s| ==> s[i] <= 0
    ensures Sum(s) <= 0
  {
    if s != [] {
      SumNonPositive(s[..|s| - 1]);
    }
  }

  /** `n` copies of `x` sum to `n * x`. */
  lemma {:induction false} SumConst(n: nat, x: int)
    ensures Sum(seq(n, _ => x)) == n * x
  {
    if n > 0 {
      var s := seq(n, _ => x);
      assert s[..n - 1] == seq(n - 1, _ => x);
      SumConst(n - 1, x);
    }
  }

  /** Multiplying by a positive `a` and dividing again gives back `c`, with no remainder. */
  lemma MulDivCancel(c: int, a: int)
    requires a >= 1
    ensures (c * a) / a == c && (c * a) % a == 0
  {
    var q, r := (c * a) / a, (c * a) % a;
    assert c * a == q * a + r && 0 <= r < a;
    assert (c - q) * a == r;
    MulBound(c - q, a);
  }

  /** A non-zero multiple of a positive `a` is at least `a` away from 0. */
  lemma {:induction false} MulBound(k: int, a: int)
    requires a >= 1
    ensures k >= 1 ==> k * a >= a
    ensures k <= -1 ==> k * a <= -a
    decreases if k < 0 then -k else k
  {
    if k > 1 {
      MulBound(k - 1, a);
      assert k * a == (k - 1) * a + a;
    } else if k < -1 {
      MulBound(k + 1, a);
      assert k * a == (k + 1) * a - a;
    }
  }

  /** Division by a positive `a` is fixed by the remainder's range. */
  lemma DivUnique(x: int, a: int, k: int, r: int)
    requires a >= 1 && x == k * a + r && 0 <= r < a
    ensures x / a == k && x % a == r
  {
    var q, m := x / a, x % a;
    assert x == q * a + m && 0 <= m < a;
    assert (k - q) * a == m - r;
    MulBound(k - q, a);
  }

  /** `n >= 1` copies of `v` exceed `n` copies of `w` by at least `v - w`. */
  lemma MulGap(n: int, v: int, w: int, a: int)
    requires n >= 1 && a >= 1 && v - w >= a
    ensures n * v >= n * w + a
  {
    MulBound(n, v - w);
    assert n * v == n * w + n * (v - w);
  }

  /** Multiplying by a positive `a` keeps the order. */
  lemma MulLe(x: int, y: int, a: int)
    requires x <= y && a >= 1
    ensures x * a <= y * a
  {
    if x < y {
      MulBound(y - x, a);
      assert y * a - x * a == (y - x) * a;
    }
  }

  /** Taking one quantum `a` off a positive multiple of `a` leaves a multiple of `a` that is at least 0. */
  lemma ModStep(x: int, a: int)
    requires a >= 1 && x > 0 && x % a == 0
    ensures x >= a && (x - a) % a == 0
  {
    var q := x / a;
    assert x == q * a;
    assert x - a == (q - 1) * a;
    MulDivCancel(q - 1, a);
  }

  function Min(a: int, b: int): int {
    if a < b then a else b
  }

  function Max(a: int, b: int): int {
    if a < b then b else a
  }

  /** Sum of a sequence of naturals, as a natural. */
  function SumNat(s: seq<nat>): nat {
    if s == [] then 0 else SumNat(s[..|s| - 1]) + s[|s| - 1]
  }

  /** The largest element of `s`, or 0 when every element is smaller (`0.max(a).max(b)...`). */
  function Max0(s: seq<int>): int {
    if s == [] then 0 else
      var m := Max0(s[..|s| - 1]);
      if m < s[|s| - 1] then s[|s| - 1] else m
  }

  /** The smallest element of `s`, or `cap` when every element is larger (`cap.min(a).min(b)...`). */
  function CappedMin(s: seq<nat>, cap: nat): nat {
    if s == [] then cap else
      var m := CappedMin(s[..|s| - 1], cap);
      if s[|s| - 1] < m then s[|s| - 1] else m
  }

  lemma {:induction false} SumNatAppend(s: seq<nat>, x: nat)
    ensures SumNat(s + [x]) == SumNat(s) + x
  {
    assert (s + [x])[..|s|] == s;
  }

  lemma {:induction false} Max0Append(s: seq<int>, x: int)
    ensures Max0(s + [x]) == if Max0(s) < x then x else Max0(s)
  {
    assert (s + [x])[..|s|] == s;
  }

  lemma {:induction false} CappedMinAppend(s: seq<nat>, cap: nat, x: nat)
    ensures CappedMin(s + [x], cap) == if x < CappedMin(s, cap) then x else CappedMin(s, cap)
  {
    assert (s + [x])[..|s|] == s;
  }

  /** `m` is the largest of 0 and the elements of `s`. */
  predicate IsMax0(m: int, s: seq<int>) {
    m >= 0 && (forall i :: 0 <= i < |s| ==> s[i] <= m) && (m == 0 || exists i :: 0 <= i < |s| && m == s[i])
  }

  /** `Max0` is an upper bound of 0 and of every element, and it is 0 or one of the elements. */
  lemma {:induction false} Max0IsMax(s: seq<int>)
    ensures IsMax0(Max0(s), s)
  {
    if s != [] {
      var t := s[..|s| - 1];
      Max0IsMax(t);
      assert forall i :: 0 <= i < |t| ==> s[i] == t[i];
      if Max0(s) != 0 && Max0(s) != s[|s| - 1] {
        var i :| 0 <= i < |t| && Max0(t) == t[i];
        assert Max0(s) == s[i];
      }
    }
  }

  /** `CappedMin` is a lower bound of `cap` and of every element, and it is `cap` or one of the elements. */
  lemma {:induction false} CappedMinIsMin(s: seq<nat>, cap: nat)
    ensures CappedMin(s, cap) <= cap
    ensures forall i :: 0 <= i < |s| ==> CappedMin(s, cap) <= s[i]
    ensures CappedMin(s, cap) == cap || exists i :: 0 <= i < |s| && CappedMin(s, cap) == s[i]
  {
    if s != [] {
      var t := s[..|s| - 1];
      CappedMinIsMin(t, cap);
      assert forall i :: 0 <= i < |t| ==> s[i] == t[i];
      if CappedMin(s, cap) != cap && CappedMin(s, cap) != s[|s| - 1] {
        var i :| 0 <= i < |t| && CappedMin(t, cap) == t[i];
        assert CappedMin(s, cap) == s[i];
      }
    }
  }

  lemma {:induction false} CountConcat(s: seq<nat>, t: seq<nat>, x: nat)
    ensures Count(s + t, x) == Count(s, x) + Count(t, x)
  {
    if t != [] {
      var t' := t[..|t| - 1];
      assert (s + t)[..|s + t| - 1] == s + t';
      CountConcat(s, t', x);
    } else {
      assert s + t == s;
    }
  }

  lemma {:induction false} CountRepeat(y: nat, k: nat, x: nat)
    ensures Count(Repeat(y, k), x) == if y == x then k else 0
  {
    if k > 0 {
      CountRepeat(y, k - 1, x);
      CountAppend(Repeat(y, k - 1), y, x);
    }
  }

  /** Every index below `n` occurs exactly once in `Range(n)`. */
  lemma {:induction false} CountRange(n: nat, x: nat)
    requires x < n
    ensures Count(Range(n), x) == 1
  {
    CountAppend(Range(n - 1), n - 1, x);
    if x < n - 1 {
      CountRange(n - 1, x);
    } else {
      CountAbsent(Range(n - 1), x);
    }
  }

  /** An element larger than every entry does not occur. */
  lemma {:induction false} CountAbsent(s: seq<nat>, x: nat)
    requires forall i :: 0 <= i < |s| ==> s[i] < x
    ensures Count(s, x) == 0
  {
    if s != [] {
      CountAbsent(s[..|s| - 1], x);
    }
  }
}
