/**
 * The part of C#'s `int` that FizzBuzzer.Execute relies on: the 32-bit range
 * of its argument and the remainder operator `%`, which truncates toward zero
 * (the result takes the sign of the dividend), unlike Dafny's Euclidean `%`.
 */
module CSharpInt {

  const MinInt32: int := -0x8000_0000
  const MaxInt32: int := 0x7fff_ffff

  /** The values of a C# `int`. */
  type Int32 = x: int | MinInt32 <= x <= MaxInt32

  /** `k * m`, named so that quantifiers over `m` have a term to hang on. */
  function Multiple(k: int, m: int): int {
    k * m
  }

  /** The reference notion of divisibility: `a` is `k` times some integer. */
  ghost predicate IsMultiple(a: int, k: int) {
    exists m :: Multiple(k, m) == a
  }

  /**
   * C#'s `a % k` for a positive divisor. Its contract pins the result down
   * uniquely: it lies strictly between `-k` and `k`, carries the sign of `a`,
   * and differs from `a` by a multiple of `k`.
   */
  function Rem(a: int, k: int): (r: int)
    requires k > 0
    ensures -k < r < k
    ensures a >= 0 ==> r >= 0
    ensures a <= 0 ==> r <= 0
    ensures IsMultiple(a - r, k)
  {
    if a >= 0 then
      assert Multiple(k, a / k) == a - a % k;
      a % k
    else
      assert Multiple(k, -((-a) / k)) == a + (-a) % k;
      -((-a) % k)
  }

  /** A nonzero multiple of `k` is at least `k` away from zero. */
  lemma MultipleAwayFromZero(k: int, j: int)
    requires k > 0
    ensures j >= 1 ==> Multiple(k, j) >= k
    ensures j <= -1 ==> Multiple(k, j) <= -k
  {
  }

  /**
   * The divisibility test `a % k == 0` means the same in C# as in
   * mathematics, negative `a` included.
   */
  lemma {:induction false} RemZeroIffMultiple(a: int, k: int)
    requires k > 0
    ensures Rem(a, k) == 0 <==> IsMultiple(a, k)
  {
    var r := Rem(a, k);
    var q :| Multiple(k, q) == a - r;
    if IsMultiple(a, k) {
      var m :| Multiple(k, m) == a;
      assert Multiple(k, m - q) == r;
      MultipleAwayFromZero(k, m - q);
    }
  }

  /** Divisible by 3 and by 5 exactly when divisible by 15. */
  lemma {:induction false} MultipleOfThreeAndFive(a: int)
    ensures IsMultiple(a, 3) && IsMultiple(a, 5) <==> IsMultiple(a, 15)
  {
    if IsMultiple(a, 3) && IsMultiple(a, 5) {
      var x :| Multiple(3, x) == a;
      var y :| Multiple(5, y) == a;
      assert Multiple(15, 2 * y - x) == a;
    }
    if IsMultiple(a, 15) {
      var m :| Multiple(15, m) == a;
      assert Multiple(3, 5 * m) == a;
      assert Multiple(5, 3 * m) == a;
    }
  }
}
