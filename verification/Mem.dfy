/** Memory commands and the machine arithmetic shared by the command path. */
module Mem {
  const PAGE_SIZE := 0x20_0000
  const TWO_TO_32 := 0x1_0000_0000
  const TWO_TO_48 := 0x1_0000_0000_0000
  const TWO_TO_64 := 0x1_0000_0000_0000_0000

  datatype MemCmd = MemCmd(addr: nat, len: nat)

  /** An offset inside a 2 MiB page. */
  type PageOff = x: nat | x < 0x20_0000

  /** A 64-bit sum or difference. */
  function Wrap(x: int): (r: nat)
    ensures r < TWO_TO_64
  {
    x % TWO_TO_64
  }

  function OffsetIn(x: int): PageOff {
    x % PAGE_SIZE
  }

  lemma ModUnique(x: int, m: int, q: int, r: int)
    requires m > 0 && x == q * m + r && 0 <= r < m
    ensures x % m == r && x / m == q
  {
    var q', r' := x / m, x % m;
    assert x == q' * m + r';
    assert (q - q') * m == r' - r;
    if q != q' {
      NonzeroMultiple(q - q', m);
    }
  }

  lemma NonzeroMultiple(k: int, m: int)
    requires m > 0 && k != 0
    ensures k * m >= m || k * m <= -m
  {
    if k >= 1 {
      assert (k - 1) * m >= 0;
    } else {
      assert (-k - 1) * m >= 0;
    }
  }

  /** Reducing modulo a power of two first does not change the page offset. */
  lemma OffsetOfWrap(x: int)
    ensures OffsetIn(x % TWO_TO_64) == OffsetIn(x) && OffsetIn(x % TWO_TO_48) == OffsetIn(x)
  {
    OffsetShift(x % TWO_TO_64, x / TWO_TO_64 * (TWO_TO_64 / PAGE_SIZE));
    OffsetShift(x % TWO_TO_48, x / TWO_TO_48 * (TWO_TO_48 / PAGE_SIZE));
  }

  /** Whole pages do not change the page offset. */
  lemma OffsetShift(x: int, k: int)
    ensures OffsetIn(x + k * PAGE_SIZE) == OffsetIn(x)
  {
    ModUnique(x + k * PAGE_SIZE, PAGE_SIZE, x / PAGE_SIZE + k, x % PAGE_SIZE);
  }

  /** Congruent bases give the same offset. */
  lemma OffsetCongruent(a: int, b: int, c: int)
    requires OffsetIn(b) == OffsetIn(c)
    ensures OffsetIn(a - b) == OffsetIn(a - c)
  {
    OffsetShift(a - b, b / PAGE_SIZE - c / PAGE_SIZE);
  }

  lemma OffsetSum(x: int, n: int)
    requires 0 <= OffsetIn(x) + n < PAGE_SIZE
    ensures OffsetIn(x + n) == OffsetIn(x) + n && (x + n) / PAGE_SIZE == x / PAGE_SIZE
  {
    ModUnique(x + n, PAGE_SIZE, x / PAGE_SIZE, OffsetIn(x) + n);
  }

  lemma WrapAgain(x: nat, y: nat)
    ensures Wrap(Wrap(x) + y) == Wrap(x + y)
  {
    var q := x / TWO_TO_64;
    var z := Wrap(x) + y;
    ModUnique(x + y, TWO_TO_64, z / TWO_TO_64 + q, z % TWO_TO_64);
  }
}
