/**
 * The circular index arithmetic of `nextImage` and `previousImage`
 * (app.js:436-448), with JavaScript's `%`, which truncates toward zero.
 */
module Navigation {

  /**
   * JavaScript's `a % n` for a positive `n`: the remainder of the division
   * that truncates toward zero, so its sign follows the dividend.
   */
  function JsRem(a: int, n: nat): (r: int)
    requires n > 0
    ensures exists q: int :: a == q * n + r
    ensures a >= 0 ==> 0 <= r < n
    ensures a < 0 ==> r <= 0 && r + n > 0
  {
    if a >= 0 then
      assert a == (a / n) * n + a % n;
      a % n
    else
      assert -a == ((-a) / n) * n + (-a) % n;
      assert a == (-((-a) / n)) * n + -((-a) % n);
      -((-a) % n)
  }

  /**
   * The index `nextImage` moves to: `(i + 1) % n`. From an index in range it
   * steps forward and wraps from the last index to 0.
   */
  function Next(i: int, n: nat): (r: int)
    requires n > 0
    ensures 0 <= i < n ==> r == if i == n - 1 then 0 else i + 1
    ensures 0 <= i < n ==> 0 <= r < n
  {
    assert 0 <= i < n - 1 ==> (i + 1) % n == i + 1;
    assert i == n - 1 ==> (i + 1) % n == 0;
    JsRem(i + 1, n)
  }

  /**
   * The index `previousImage` moves to: `(i - 1 + n) % n`. From an index in
   * range it steps back and wraps from 0 to the last index.
   */
  function Prev(i: int, n: nat): (r: int)
    requires n > 0
    ensures 0 <= i < n ==> r == if i == 0 then n - 1 else i - 1
    ensures 0 <= i < n ==> 0 <= r < n
  {
    assert i == 0 ==> (i - 1 + n) % n == n - 1;
    assert 0 < i < n ==> (i - 1 + n) % n == i - 1;
    JsRem(i - 1 + n, n)
  }

  /** `previousImage` after `nextImage` restores the index. */
  lemma PrevAfterNext(i: int, n: nat)
    requires 0 <= i < n
    ensures Prev(Next(i, n), n) == i
  {
  }

  /** `nextImage` after `previousImage` restores the index. */
  lemma NextAfterPrev(i: int, n: nat)
    requires 0 <= i < n
    ensures Next(Prev(i, n), n) == i
  {
  }

  /** The index after `k` presses of "next" from `i`. */
  function Advance(i: int, n: nat, k: nat): (r: int)
    requires n > 0
  {
    if k == 0 then i else Next(Advance(i, n, k - 1), n)
  }

  /** From an index in range, any number of presses of "next" stays in range. */
  lemma {:induction false} AdvanceInRange(i: int, n: nat, k: nat)
    requires 0 <= i < n
    ensures 0 <= Advance(i, n, k) < n
  {
    if k > 0 {
      AdvanceInRange(i, n, k - 1);
    }
  }

  /** Stepping `a` times and then `b` times is stepping `a + b` times. */
  lemma {:induction false} AdvanceCompose(i: int, n: nat, a: nat, b: nat)
    requires n > 0
    ensures Advance(Advance(i, n, a), n, b) == Advance(i, n, a + b)
  {
    if b > 0 {
      AdvanceCompose(i, n, a, b - 1);
    }
  }

  /** Before it wraps, stepping forward `k` times adds `k` to the index. */
  lemma {:induction false} AdvanceNoWrap(i: int, n: nat, k: nat)
    requires 0 <= i && i + k < n
    ensures Advance(i, n, k) == i + k
  {
    if k > 0 {
      AdvanceNoWrap(i, n, k - 1);
    }
  }

  /** From any index in range, pressing "next" until past the last image lands on index 0. */
  lemma AdvanceToStart(i: int, n: nat)
    requires 0 <= i < n
    ensures Advance(i, n, n - i) == 0
  {
    AdvanceNoWrap(i, n, n - 1 - i);
    assert Advance(i, n, n - i) == Next(Advance(i, n, n - 1 - i), n);
  }

  /** Every index of the tour can be reached from any other by pressing "next". */
  lemma Reachable(i: int, j: int, n: nat)
    requires 0 <= i < n && 0 <= j < n
    ensures Advance(i, n, if i <= j then j - i else n - i + j) == j
  {
    if i <= j {
      AdvanceNoWrap(i, n, j - i);
    } else {
      AdvanceToStart(i, n);
      AdvanceNoWrap(0, n, j);
      AdvanceCompose(i, n, n - i, j);
    }
  }

  /** The tour is one cycle of length `n`: `n` presses of "next" come back to the start. */
  lemma FullCircle(i: int, n: nat)
    requires 0 <= i < n
    ensures Advance(i, n, n) == i
  {
    AdvanceToStart(i, n);
    AdvanceNoWrap(0, n, i);
    AdvanceCompose(i, n, n - i, i);
  }
}
