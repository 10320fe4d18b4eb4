// Machine integers, the option and result types, and the sums that the rest of the model shares.

module Numbers {

  const U32_MAX: nat := 0xFFFF_FFFF
  const U64_MAX: nat := 0xFFFF_FFFF_FFFF_FFFF

  type u64 = x: nat | x <= U64_MAX
  type u32 = x: nat | x <= U32_MAX
  type i32 = x: int | -0x8000_0000 <= x < 0x8000_0000
  type i64 = x: int | -0x8000_0000_0000_0000 <= x < 0x8000_0000_0000_0000

  datatype Option<+T> = None | Some(value: T)

  function Min(a: int, b: int): int {
    if a <= b then a else b
  }

  function Max(a: int, b: int): int {
    if a >= b then a else b
  }

  function Bit(b: bool): nat {
    if b then 1 else 0
  }

  function SaturatingAdd32(a: nat, b: nat): nat {
    Min(a + b, U32_MAX)
  }

  function SaturatingAdd(a: nat, b: nat): nat {
    Min(a + b, U64_MAX)
  }

  function SaturatingMul(a: nat, b: nat): nat {
    Min(a * b, U64_MAX)
  }

  // ------------------------------------------------------------ remainders

  lemma MulMonotone(a: nat, b: nat, c: nat)
    ensures a <= b ==> a * c <= b * c
  {
    assert a <= b ==> b * c == a * c + (b - a) * c;
  }

  lemma UniqueRemainder(n: nat, q: nat, r: nat, step: nat)
    requires step > 0 && n == q * step + r && r < step
    ensures n / step == q && n % step == r
  {
    var p := n / step;
    assert n == p * step + n % step;
    MulMonotone(p + 1, q, step);
    MulMonotone(q + 1, p, step);
    assert (p + 1) * step == p * step + step;
    assert (q + 1) * step == q * step + step;
    assert p == q;
  }

  lemma ModAtMost(d: nat, step: nat)
    requires step > 0
    ensures d % step <= d
  {
    MulMonotone(0, d / step, step);
    assert d == d / step * step + d % step;
  }

  lemma ModOfSum(a: nat, d: nat, step: nat)
    requires step > 0 && a % step == 0
    ensures (a + d) % step == d % step
  {
    var x, y := a / step, d / step;
    assert a == x * step && d == y * step + d % step;
    assert (x + y) * step == x * step + y * step;
    UniqueRemainder(a + d, x + y, d % step, step);
  }

  // ------------------------------------------------------------ sums over sequences

  function Sum<T>(xs: seq<T>, f: T -> nat): nat {
    if xs == [] then 0 else Sum(xs[..|xs| - 1], f) + f(xs[|xs| - 1])
  }

  lemma {:induction false} SumOfConcat<T>(xs: seq<T>, ys: seq<T>, f: T -> nat)
    ensures Sum(xs + ys, f) == Sum(xs, f) + Sum(ys, f)
  {
    if ys == [] {
      assert xs + ys == xs;
    } else {
      assert (xs + ys)[..|xs + ys| - 1] == xs + ys[..|ys| - 1];
      SumOfConcat(xs, ys[..|ys| - 1], f);
    }
  }

  lemma SumOfOne<T>(x: T, f: T -> nat)
    ensures Sum([x], f) == f(x)
  {
    assert [x][..0] == [];
  }

  lemma SumOfPrefix<T>(xs: seq<T>, n: nat, f: T -> nat)
    requires n <= |xs|
    ensures Sum(xs[..n], f) <= Sum(xs, f)
  {
    assert xs == xs[..n] + xs[n..];
    SumOfConcat(xs[..n], xs[n..], f);
  }

  lemma SumStep<T>(xs: seq<T>, n: nat, f: T -> nat)
    requires n < |xs|
    ensures Sum(xs[..n + 1], f) == Sum(xs[..n], f) + f(xs[n])
  {
    assert xs[..n + 1][..n] == xs[..n];
  }

  lemma RemoveAt<T>(xs: seq<T>, i: nat)
    requires i < |xs|
    ensures multiset(xs[..i] + xs[i + 1..]) == multiset(xs) - multiset{xs[i]}
  {
    assert xs == xs[..i] + [xs[i]] + xs[i + 1..];
    assert multiset(xs) == multiset(xs[..i]) + multiset{xs[i]} + multiset(xs[i + 1..]);
  }

  lemma SumAround<T>(left: seq<T>, x: T, right: seq<T>, f: T -> nat)
    ensures Sum(left + [x] + right, f) == Sum(left + right, f) + f(x)
  {
    SumOfConcat(left, right, f);
    SumOfConcat(left + [x], right, f);
    SumOfConcat(left, [x], f);
    SumOfOne(x, f);
  }

  lemma SumWithout<T>(xs: seq<T>, i: nat, f: T -> nat)
    requires i < |xs|
    ensures Sum(xs, f) == Sum(xs[..i] + xs[i + 1..], f) + f(xs[i])
  {
    var left, right := xs[..i], xs[i + 1..];
    assert xs == left + [xs[i]] + right;
    SumAround(left, xs[i], right, f);
  }

  lemma {:induction false} SumIgnoresOrder<T>(xs: seq<T>, ys: seq<T>, f: T -> nat)
    requires multiset(xs) == multiset(ys)
    ensures Sum(xs, f) == Sum(ys, f)
  {
    if xs == [] {
      assert |multiset(ys)| == 0;
    } else {
      var n := |xs| - 1;
      assert xs[n] in multiset(ys);
      var i :| 0 <= i < |ys| && ys[i] == xs[n];
      RemoveAt(xs, n);
      RemoveAt(ys, i);
      SumWithout(xs, n, f);
      SumWithout(ys, i, f);
      SumIgnoresOrder(xs[..n] + xs[n + 1..], ys[..i] + ys[i + 1..], f);
    }
  }

  lemma {:induction false} SumBounded<T>(xs: seq<T>, f: T -> nat, bound: nat)
    requires forall i :: 0 <= i < |xs| ==> f(xs[i]) <= bound
    ensures Sum(xs, f) <= |xs| * bound
  {
    if xs != [] {
      SumBounded(xs[..|xs| - 1], f, bound);
    }
  }

  lemma {:induction false} SumOfEqual<T>(xs: seq<T>, f: T -> nat, g: T -> nat)
    requires forall i :: 0 <= i < |xs| ==> f(xs[i]) == g(xs[i])
    ensures Sum(xs, f) == Sum(xs, g)
  {
    if xs != [] {
      SumOfEqual(xs[..|xs| - 1], f, g);
    }
  }

  lemma {:induction false} SumAdds<T>(xs: seq<T>, f: T -> nat, g: T -> nat, h: T -> nat)
    requires forall i :: 0 <= i < |xs| ==> h(xs[i]) == f(xs[i]) + g(xs[i])
    ensures Sum(xs, h) == Sum(xs, f) + Sum(xs, g)
  {
    if xs != [] {
      SumAdds(xs[..|xs| - 1], f, g, h);
    }
  }

  lemma {:induction false} SumMonotone<T>(xs: seq<T>, f: T -> nat, g: T -> nat)
    requires forall i :: 0 <= i < |xs| ==> f(xs[i]) <= g(xs[i])
    ensures Sum(xs, f) <= Sum(xs, g)
  {
    if xs != [] {
      SumMonotone(xs[..|xs| - 1], f, g);
    }
  }

  lemma {:induction false} ZeroSum<T>(xs: seq<T>, f: T -> nat)
    ensures Sum(xs, f) == 0 <==> forall i :: 0 <= i < |xs| ==> f(xs[i]) == 0
  {
    if xs != [] {
      ZeroSum(xs[..|xs| - 1], f);
    }
  }
}
