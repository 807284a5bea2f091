/** Failure-compatible datatypes, machine words and finite sums shared by the other modules. */
module Prelude {

  datatype Option<+T> = None | Some(value: T)

  /** A Go `(value, error)` pair: either a value or an error with its memo. */
  datatype Result<+T> = Ok(value: T) | Err(error: string) {
    predicate IsFailure() {
      Err?
    }

    function PropagateFailure<U>(): Result<U>
      requires Err?
    {
      Err(error)
    }

    function Extract(): T
      requires Ok?
    {
      value
    }
  }

  const MAX_UINT32: nat := 0xFFFF_FFFF
  const TWO_TO_THE_64: nat := 0x1_0000_0000_0000_0000

  type uint32 = n: nat | n <= MAX_UINT32
  type uint64 = n: nat | n < TWO_TO_THE_64

  type pos = n: nat | n > 0 witness 1

  newtype byte = b: int | 0 <= b < 256
  type Bytes = seq<byte>

  /** Sum of `f` over a sequence; it grows at the end, as Go slices do. */
  function SumBy<T>(f: T -> nat, xs: seq<T>): nat {
    if |xs| == 0 then 0 else SumBy(f, xs[..|xs| - 1]) + f(xs[|xs| - 1])
  }

  lemma {:induction false} SumBySnoc<T>(f: T -> nat, xs: seq<T>, x: T)
    ensures SumBy(f, xs + [x]) == SumBy(f, xs) + f(x)
  {
    assert (xs + [x])[..|xs|] == xs;
  }

  lemma {:induction false} SumByConcat<T>(f: T -> nat, xs: seq<T>, ys: seq<T>)
    ensures SumBy(f, xs + ys) == SumBy(f, xs) + SumBy(f, ys)
  {
    if |ys| == 0 {
      assert xs + ys == xs;
    } else {
      var front := ys[..|ys| - 1];
      SumByConcat(f, xs, front);
      assert (xs + ys)[..|xs + ys| - 1] == xs + front;
    }
  }

  lemma {:induction false} SubsetSize<T>(a: set<T>, b: set<T>)
    requires a <= b
    ensures |a| <= |b|
  {
    assert b == a + (b - a);
  }

  /** Some element is of the one kind, and none before it of the other. */
  ghost predicate ComesFirst<T>(xs: seq<T>, one: T -> bool, other: T -> bool) {
    exists i :: 0 <= i < |xs| && one(xs[i]) && forall j :: 0 <= j < i ==> !other(xs[j])
  }

  lemma ComesFirstTail<T>(xs: seq<T>, one: T -> bool, other: T -> bool)
    requires |xs| > 0 && !one(xs[0]) && !other(xs[0])
    ensures ComesFirst(xs, one, other) <==> ComesFirst(xs[1..], one, other)
  {
    var rest := xs[1..];
    if ComesFirst(xs, one, other) {
      var i :| 0 <= i < |xs| && one(xs[i]) && forall j :: 0 <= j < i ==> !other(xs[j]);
      assert one(rest[i - 1]) && forall j :: 0 <= j < i - 1 ==> rest[j] == xs[j + 1];
    }
    if ComesFirst(rest, one, other) {
      var i :| 0 <= i < |rest| && one(rest[i]) && forall j :: 0 <= j < i ==> !other(rest[j]);
      assert one(xs[i + 1]) && forall j :: 0 < j < i + 1 ==> xs[j] == rest[j - 1];
    }
  }

  function Flatten<T>(xss: seq<seq<T>>): seq<T> {
    if |xss| == 0 then [] else Flatten(xss[..|xss| - 1]) + xss[|xss| - 1]
  }

  lemma {:induction false} FlattenMembers<T>(xss: seq<seq<T>>)
    ensures forall x :: x in Flatten(xss) <==> exists g :: 0 <= g < |xss| && x in xss[g]
  {
    if |xss| > 0 {
      FlattenMembers(xss[..|xss| - 1]);
    }
  }

  function Without<T>(xs: seq<T>, j: nat): seq<T>
    requires j < |xs|
  {
    xs[..j] + xs[j + 1..]
  }

  lemma {:induction false} WithoutMultiset<T>(xs: seq<T>, j: nat)
    requires j < |xs|
    ensures multiset(Without(xs, j)) == multiset(xs) - multiset{xs[j]}
  {
    assert xs == xs[..j] + ([xs[j]] + xs[j + 1..]);
  }

  lemma {:induction false} SumByWithout<T>(f: T -> nat, xs: seq<T>, j: nat)
    requires j < |xs|
    ensures SumBy(f, xs) == SumBy(f, Without(xs, j)) + f(xs[j])
  {
    var before, after := xs[..j], xs[j + 1..];
    assert xs == (before + [xs[j]]) + after;
    SumByConcat(f, before + [xs[j]], after);
    SumBySnoc(f, before, xs[j]);
    SumByConcat(f, before, after);
  }

  /** A sum does not depend on the order of its terms. */
  lemma {:induction false} SumByPermutation<T>(f: T -> nat, xs: seq<T>, ys: seq<T>)
    requires multiset(xs) == multiset(ys)
    ensures SumBy(f, xs) == SumBy(f, ys)
  {
    if |xs| == 0 {
      assert |multiset(ys)| == 0;
    } else {
      assert xs[0] in multiset(ys);
      var j :| 0 <= j < |ys| && ys[j] == xs[0];
      WithoutMultiset(xs, 0);
      WithoutMultiset(ys, j);
      SumByPermutation(f, Without(xs, 0), Without(ys, j));
      SumByWithout(f, xs, 0);
      SumByWithout(f, ys, j);
    }
  }

  /** Changing one element changes the sum by the difference of the two terms. */
  lemma {:induction false} SumByUpdate<T>(f: T -> nat, xs: seq<T>, i: nat, x: T)
    requires i < |xs|
    ensures SumBy(f, xs[i := x]) + f(xs[i]) == SumBy(f, xs) + f(x)
  {
    var front := xs[..|xs| - 1];
    if i == |xs| - 1 {
      assert xs[i := x][..|xs| - 1] == front;
    } else {
      SumByUpdate(f, front, i, x);
      assert xs[i := x][..|xs| - 1] == front[i := x];
    }
  }

  /** A sum is positive exactly when one of its terms is. */
  lemma {:induction false} SumByPositive<T>(f: T -> nat, xs: seq<T>)
    ensures SumBy(f, xs) > 0 <==> exists j :: 0 <= j < |xs| && f(xs[j]) > 0
  {
    if |xs| > 0 {
      var front := xs[..|xs| - 1];
      SumByPositive(f, front);
      if SumBy(f, front) > 0 {
        var j :| 0 <= j < |front| && f(front[j]) > 0;
        assert f(xs[j]) > 0;
      }
      if exists j :: 0 <= j < |xs| && f(xs[j]) > 0 {
        var j :| 0 <= j < |xs| && f(xs[j]) > 0;
        if j < |front| {
          assert f(front[j]) > 0;
        }
      }
    }
  }

  lemma {:induction false} SumByPointwise<T, U>(f: T -> nat, xs: seq<T>, g: U -> nat, ys: seq<U>)
    requires |xs| == |ys| && forall i :: 0 <= i < |xs| ==> f(xs[i]) == g(ys[i])
    ensures SumBy(f, xs) == SumBy(g, ys)
  {
    if |xs| > 0 {
      SumByPointwise(f, xs[..|xs| - 1], g, ys[..|ys| - 1]);
    }
  }

  /** Every term is at most the sum. */
  lemma {:induction false} SumByBound<T>(f: T -> nat, xs: seq<T>, j: nat)
    requires j < |xs|
    ensures f(xs[j]) <= SumBy(f, xs)
  {
    if j < |xs| - 1 {
      SumByBound(f, xs[..|xs| - 1], j);
    }
  }

  // ----- Remainders

  lemma ModPlus(a: nat, b: nat, m: pos)
    ensures (a % m + b) % m == (a + b) % m
  {
    var q := a / m;
    assert a + b == m * q + (a % m + b);
    ModShift(a % m + b, q, m);
  }

  lemma ModTimes(a: nat, h: nat, m: pos)
    ensures (a % m * h) % m == (a * h) % m
  {
    ModTimesOf(a, a / m, a % m, h, m);
  }

  lemma ModTimesOf(a: nat, q: nat, r: nat, h: nat, m: pos)
    requires a == m * q + r
    ensures (r * h) % m == (a * h) % m
  {
    var k, z := q * h, r * h;
    assert a * h == m * k + z by { Distribute(m, q, r, h); }
    ModShift(z, k, m);
  }

  lemma Distribute(m: nat, q: nat, r: nat, h: nat)
    ensures (m * q + r) * h == m * (q * h) + r * h
  {
  }

  lemma ModShift(z: nat, k: nat, m: pos)
    ensures (m * k + z) % m == z % m
  {
    var q, r := z / m, z % m;
    assert m * k + z == m * (k + q) + r;
    RemainderUnique(m * k + z, m, k + q, r);
  }

  lemma RemainderUnique(a: nat, m: pos, q: nat, r: nat)
    requires a == m * q + r && r < m
    ensures a % m == r
  {
    var d := a / m - q;
    assert m * d == m * (a / m) - m * q == r - a % m;
  }

  lemma ModSum(a: nat, b: nat, x: nat, y: nat, m: pos)
    requires a % m == b % m && x == y % m
    ensures (a + x) % m == (b + y) % m
  {
    ModPlus(a, x, m);
    ModPlus(b, x, m);
    ModPlus(y, b, m);
  }
}
