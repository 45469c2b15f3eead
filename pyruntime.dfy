/** The small part of Python's runtime that the resizer's logic leans on:
    `None`, truthiness, `int()` on a float, `os.path.join`, `os.path.basename`
    and `pathlib.PurePath.suffix` for a single path component (POSIX rules). */
module PyRuntime {

  datatype Option<+T> = None | Some(value: T)

  /** Truthiness of an optional `int`: both `None` and `0` are false. */
  predicate IntTruthy(x: Option<int>) {
    x.Some? && x.value != 0
  }

  /** Truthiness of an optional `float`: both `None` and `0.0` are false. */
  predicate RealTruthy(x: Option<real>) {
    x.Some? && x.value != 0.0
  }

  /** `int(x)` for a finite float: truncation toward zero. */
  function Trunc(x: real): (r: int)
    ensures 0.0 <= x ==> r as real <= x < r as real + 1.0
    ensures x < 0.0 ==> r as real - 1.0 < x <= r as real
  {
    if x >= 0.0 then x.Floor else -((-x).Floor)
  }

  /** `n * x` for an `int` and a `float`, as repeated addition. The resize
      plan computes `side * percent` with it rather than with `*`: a product
      of two unknowns inside a function that other proofs unfold sends the
      solver into nonlinear arithmetic, whereas this one is reached only
      through `TimesIsProduct`, where it is proved to be the product. */
  function Times(n: nat, x: real): real {
    if n == 0 then 0.0 else Times(n - 1, x) + x
  }

  lemma {:induction false} TimesIsProduct(n: nat, x: real)
    ensures Times(n, x) == n as real * x
  {
    if n > 0 {
      TimesIsProduct(n - 1, x);
    }
  }

  /** `n * m` for an `int` and a natural, as repeated addition, for the
      same reason as `Times`: the aspect-ratio side is computed with it, and
      `IntTimesIsProduct` proves it is the product. */
  function IntTimes(n: int, m: nat): int {
    if m == 0 then 0 else IntTimes(n, m - 1) + n
  }

  lemma {:induction false} IntTimesIsProduct(n: int, m: nat)
    ensures IntTimes(n, m) == n * m
  {
    if m > 0 {
      IntTimesIsProduct(n, m - 1);
    }
  }

  /** `a // b` for naturals, as repeated subtraction, for the same reason
      as `Times`; `QuotIsDiv` proves it is the Euclidean quotient. */
  function Quot(a: nat, b: nat): nat
    requires b > 0
    decreases a
  {
    if a < b then 0 else 1 + Quot(a - b, b)
  }

  /** The quotient brackets the dividend. */
  lemma {:induction false} QuotBounds(a: nat, b: nat)
    requires b > 0
    ensures Quot(a, b) * b <= a < (Quot(a, b) + 1) * b
    decreases a
  {
    if a >= b {
      QuotBounds(a - b, b);
      var q := Quot(a - b, b);
      assert (q + 1) * b == q * b + b;
      assert (q + 2) * b == (q + 1) * b + b;
    }
  }

  /** An integer bracketed by multiples of `b` fixes the Euclidean quotient. */
  lemma DivUnique(a: int, b: int, q: int)
    requires b > 0 && q * b <= a < (q + 1) * b
    ensures a / b == q
  {
    var d := a / b - q;
    assert a == (a / b) * b + a % b;
    assert d * b == (a / b) * b - q * b;
    assert (q + 1) * b == q * b + b;
    MulBelow(d, b);
  }

  /** A non-zero multiple of a positive `b` is at least `b` away from zero. */
  lemma {:induction false} MulBelow(d: int, b: int)
    requires b > 0
    ensures d > 0 ==> d * b >= b
    ensures d < 0 ==> d * b <= -b
    decreases if d < 0 then -d else d
  {
    if d > 1 {
      MulBelow(d - 1, b);
      assert d * b == (d - 1) * b + b;
    } else if d < -1 {
      MulBelow(d + 1, b);
      assert d * b == (d + 1) * b - b;
    }
  }

  lemma QuotIsDiv(a: nat, b: nat)
    requires b > 0
    ensures Quot(a, b) == a / b
  {
    QuotBounds(a, b);
    DivUnique(a, b, Quot(a, b));
  }

  /** `int(a / b)` for integers in exact arithmetic: the quotient truncated
      toward zero. */
  function TruncDiv(a: int, b: nat): int
    requires b > 0
  {
    if a >= 0 then Quot(a, b) else -(Quot(-a, b) as int)
  }

  /** floor(a / b) over the reals is Euclidean division for a non-negative
      numerator. */
  lemma FloorOfQuotient(a: int, b: int)
    requires 0 <= a && 0 < b
    ensures ((a as real) / (b as real)).Floor == a / b
  {
    var q, r := a / b, a % b;
    assert a == q * b + r;
    assert (a as real) == (q as real) * (b as real) + (r as real);
    assert (a as real) / (b as real) == (q as real) + (r as real) / (b as real);
    assert 0.0 <= (r as real) / (b as real) < 1.0;
  }

  /** The integer quotient agrees with `int()` of the exact real quotient. */
  lemma TruncDivIsTrunc(a: int, b: nat)
    requires b > 0
    ensures TruncDiv(a, b) == Trunc(a as real / b as real)
  {
    if a >= 0 {
      QuotIsDiv(a, b);
      FloorOfQuotient(a, b);
    } else {
      QuotIsDiv(-a, b);
      FloorOfQuotient(-a, b);
      var x := a as real / b as real;
      assert (-a) as real == -(a as real);
      assert x * (b as real) == a as real;
      assert (-x) * (b as real) == (-a) as real;
      assert (-a) as real / b as real == -x;
    }
  }

  /** `s.rfind(c)`: the index of the last occurrence of `c`, or -1. */
  function RFind(s: string, c: char): (i: int)
    ensures -1 <= i < |s|
    ensures 0 <= i ==> s[i] == c
    ensures forall j :: i < j < |s| ==> s[j] != c
  {
    if s == [] then -1
    else if s[|s| - 1] == c then |s| - 1
    else RFind(s[..|s| - 1], c)
  }

  /** `os.path.join(a, b)` on POSIX: an absolute `b` replaces `a`; otherwise
      a separator is inserted unless `a` is empty or already ends in one. */
  function Join(a: string, b: string): (r: string)
    ensures |b| > 0 && b[0] == '/' ==> r == b
    ensures !(|b| > 0 && b[0] == '/') ==>
              |a| + |b| <= |r| <= |a| + |b| + 1 && r[..|a|] == a && r[|r| - |b|..] == b &&
              (|r| > |a| + |b| <==> a != [] && a[|a| - 1] != '/') &&
              (|r| > |a| + |b| ==> r[|a|] == '/')
  {
    if |b| > 0 && b[0] == '/' then b
    else if a == [] || a[|a| - 1] == '/' then a + b
    else a + "/" + b
  }

  /** `os.path.basename(p)`: everything after the last '/'. */
  function Basename(p: string): (r: string)
    ensures '/' !in r
    ensures |r| <= |p| && p[|p| - |r|..] == r
    ensures |r| == |p| || p[|p| - |r| - 1] == '/'
  {
    p[RFind(p, '/') + 1..]
  }

  /** `PurePath(name).suffix` for a name without '/': the part from the last
      '.' on, provided that dot is neither the first nor the last character. */
  function Suffix(name: string): (r: string)
    ensures r == [] || (2 <= |r| < |name| && r[0] == '.' && '.' !in r[1..] && name[|name| - |r|..] == r)
  {
    var i := RFind(name, '.');
    if 0 < i < |name| - 1 then name[i..] else ""
  }

  /** Joining a directory and a plain file name, then taking the basename,
      gives the file name back. */
  lemma BasenameOfJoin(dir: string, name: string)
    requires '/' !in name
    ensures Basename(Join(dir, name)) == name
  {
    var p := Join(dir, name);
    var prefix := if dir == [] || dir[|dir| - 1] == '/' then dir else dir + "/";
    assert p == prefix + name;
    var i := RFind(p, '/');
    if prefix == [] {
      assert p == name;
      assert i == -1;
    } else {
      assert p[|prefix| - 1] == '/';
      assert i == |prefix| - 1;
    }
    assert p[i + 1..] == name;
  }
}
