/** The wrap-around rules of `upArrow` and `downArrow` on the 1-based row
    `cursorLocs.y` of a menu with `n` options. */
module Navigation {

  /** Multiplication distributes over addition. */
  lemma Distrib(a: int, b: int, n: int)
    ensures a * n + b * n == (a + b) * n
  {
  }

  /** A multiple of `n` strictly between `-n` and `n` is zero. */
  lemma SmallMultiple(d: int, n: int)
    requires n > 0 && -n < d * n < n
    ensures d == 0
  {
    if d >= 1 {
      Distrib(d - 1, 1, n);
    } else if d <= -1 {
      Distrib(d + 1, -1, n);
    }
  }

  /** Euclidean remainders are determined by any quotient that fits. */
  lemma ModUnique(x: int, n: int, q: int, m: int)
    requires n > 0 && 0 <= m < n && x == q * n + m
    ensures x % n == m
  {
    var d := q - x / n;
    Distrib(d, x / n, n);
    SmallMultiple(d, n);
  }

  /** Moving one back, then taking the remainder, is taking the
      remainder, then moving one back. */
  lemma ModPred(x: int, n: int)
    requires n > 0
    ensures (x % n - 1) % n == (x - 1) % n
  {
    var a, q := x % n, x / n;
    var r, q' := (a - 1) % n, (a - 1) / n;
    Distrib(q, q', n);
    ModUnique(x - 1, n, q + q', r);
  }

  /** Moving one on, then taking the remainder, is taking the remainder,
      then moving one on. */
  lemma ModSucc(x: int, n: int)
    requires n > 0
    ensures (x % n + 1) % n == (x + 1) % n
  {
    var a, q := x % n, x / n;
    var r, q' := (a + 1) % n, (a + 1) / n;
    Distrib(q, q', n);
    ModUnique(x + 1, n, q + q', r);
  }

  /** Adding a multiple of `n` leaves the remainder alone. */
  lemma ModPeriod(x: int, n: int, j: int)
    requires n > 0
    ensures (x + j * n) % n == x % n
  {
    Distrib(x / n, j, n);
    ModUnique(x + j * n, n, x / n + j, x % n);
  }

  /** Taking the remainder before adding `m` changes nothing modulo `n`. */
  lemma ModAdd(x: int, m: int, n: int)
    requires n > 0
    ensures (x % n + m) % n == (x + m) % n
  {
    assert x % n + m + (x / n) * n == x + m;
    ModPeriod(x % n + m, n, x / n);
  }

  /** The row after an up-arrow: one row back, from the first row to the
      last. */
  function UpRow(y: int, n: int): (r: int)
    requires 1 <= y <= n
    ensures 1 <= r <= n
    ensures r - 1 == (y - 2) % n
  {
    if y == 1 then
      ModUnique(y - 2, n, -1, n - 1);
      n
    else
      ModUnique(y - 2, n, 0, y - 2);
      y - 1
  }

  /** The row after a down-arrow: one row on, from the last row to the
      first. */
  function DownRow(y: int, n: int): (r: int)
    requires 1 <= y <= n
    ensures 1 <= r <= n
    ensures r - 1 == y % n
  {
    if y == n then
      ModUnique(y, n, 1, 0);
      1
    else
      ModUnique(y, n, 0, y);
      y + 1
  }

  /** A down-arrow undoes an up-arrow. */
  lemma DownUndoesUp(y: int, n: int)
    requires 1 <= y <= n
    ensures DownRow(UpRow(y, n), n) == y
  {
  }

  /** An up-arrow undoes a down-arrow. */
  lemma UpUndoesDown(y: int, n: int)
    requires 1 <= y <= n
    ensures UpRow(DownRow(y, n), n) == y
  {
  }

  /** The row after `k` up-arrows in a row. */
  function UpRows(y: int, n: int, k: nat): (r: int)
    requires 1 <= y <= n
    ensures 1 <= r <= n
  {
    if k == 0 then y else UpRow(UpRows(y, n, k - 1), n)
  }

  /** The row after `k` down-arrows in a row. */
  function DownRows(y: int, n: int, k: nat): (r: int)
    requires 1 <= y <= n
    ensures 1 <= r <= n
  {
    if k == 0 then y else DownRow(DownRows(y, n, k - 1), n)
  }

  /** `k` up-arrows move the 0-based index `y - 1` back by `k`, modulo `n`. */
  lemma {:induction false} UpRowsModular(y: int, n: int, k: nat)
    requires 1 <= y <= n
    ensures UpRows(y, n, k) - 1 == (y - 1 - k) % n
  {
    if k == 0 {
      ModUnique(y - 1, n, 0, y - 1);
    } else {
      UpRowsModular(y, n, k - 1);
      ModPred(y - k, n);
    }
  }

  /** `k` down-arrows move the 0-based index `y - 1` on by `k`, modulo `n`. */
  lemma {:induction false} DownRowsModular(y: int, n: int, k: nat)
    requires 1 <= y <= n
    ensures DownRows(y, n, k) - 1 == (y - 1 + k) % n
  {
    if k == 0 {
      ModUnique(y - 1, n, 0, y - 1);
    } else {
      DownRowsModular(y, n, k - 1);
      ModSucc(y - 2 + k, n);
    }
  }

  /** `n` up-arrows in a row come back to the starting row. */
  lemma UpCycle(y: int, n: int)
    requires 1 <= y <= n
    ensures UpRows(y, n, n) == y
  {
    UpRowsModular(y, n, n);
    ModPeriod(y - 1 - n, n, 1);
    ModUnique(y - 1, n, 0, y - 1);
  }

  /** `n` down-arrows in a row come back to the starting row. */
  lemma DownCycle(y: int, n: int)
    requires 1 <= y <= n
    ensures DownRows(y, n, n) == y
  {
    DownRowsModular(y, n, n);
    ModPeriod(y - 1 + n, n, -1);
    ModUnique(y - 1, n, 0, y - 1);
  }

  /** `k` up-arrows followed by `m` down-arrows leave the 0-based index
      at `y - 1 - k + m`, modulo `n`. */
  lemma UpsThenDowns(y: int, n: int, k: nat, m: nat)
    requires 1 <= y <= n
    ensures DownRows(UpRows(y, n, k), n, m) - 1 == (y - 1 - k + m) % n
  {
    var p := UpRows(y, n, k);
    UpRowsModular(y, n, k);
    DownRowsModular(p, n, m);
    // p - 1 == (y - 1 - k) % n == (y - 1 - k) - j * n for j == (y - 1 - k) / n
    ModAdd(y - 1 - k, m, n);
  }
}
