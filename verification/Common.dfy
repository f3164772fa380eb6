/** Option and Result types, and small facts shared by the other modules. */
module Common {

  datatype Option<+T> = None | Some(value: T)

  datatype Result<+T, +E> = Ok(value: T) | Err(error: E)

  function Max(x: int, y: int): int {
    if x < y then y else x
  }

  function Min(x: int, y: int): int {
    if x < y then x else y
  }

  function Align16(n: nat): (a: nat)
    ensures n <= a < n + 16 && a % 16 == 0
  {
    (n + 15) / 16 * 16
  }

  /** At most the first n elements. */
  function Prefix<T>(s: seq<T>, n: nat): seq<T> { if |s| <= n then s else s[..n] }

  // ------------------------------------------------------------ finite sets

  ghost function Pick(s: set<int>): (b: int)
    requires s != {}
    ensures b in s
  {
    assert (forall b :: b !in s) ==> s == {};
    var b :| b in s;
    b
  }

  lemma SubsetSmaller<T>(a: set<T>, b: set<T>)
    requires a <= b
    ensures |a| <= |b| && (|a| == |b| ==> a == b)
  {
    assert b == a + (b - a);
  }

  // ------------------------------------------------------------ remainders

  lemma Distribute(n: int, a: int, b: int)
    ensures n * a - n * b == n * (a - b)
  {
  }

  lemma AtLeast(n: int, d: int)
    requires n >= 0
    ensures d >= 1 ==> n * d >= n
    ensures d <= -1 ==> n * d <= -n
  {
    if d >= 1 { assert n * d == n + n * (d - 1); }
    if d <= -1 { assert n * d == -n - n * (-1 - d); }
  }

  lemma ModIs(x: int, n: int, q: int, r: int)
    requires 0 <= r < n && x == n * q + r
    ensures x % n == r && x / n == q
  {
    var q', r' := x / n, x % n;
    Distribute(n, q, q');
    AtLeast(n, q - q');
  }

  lemma NextMod(k: nat, n: nat)
    requires n > 0
    ensures (k % n + 1) % n == (k + 1) % n
  {
    var q, r := k / n, k % n;
    assert k == n * q + r;
    if r + 1 < n {
      ModIs(k + 1, n, q, r + 1);
      ModIs(r + 1, n, 0, r + 1);
    } else {
      assert n * (q + 1) == n * q + n;
      ModIs(k + 1, n, q + 1, 0);
      ModIs(n, n, 1, 0);
    }
  }
}
