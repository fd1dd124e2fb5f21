// What the other modules share.
module Basics {

  datatype Option<+T> = None | Some(value: T)

  type byte = b: int | 0 <= b < 256

  // -- quotients and remainders ------------------------------------------------

  // x and y agree modulo m when they differ by a multiple of it.
  lemma ModShift(x: int, k: int, m: int)
    requires m > 0
    ensures (x + m * k) % m == x % m
  {
    var q, r := x / m, x % m;
    assert x + m * k == m * (q + k) + r;
    ModUnique(x + m * k, q + k, r, m);
  }

  lemma ModUnique(x: int, q: int, r: int, m: int)
    requires m > 0 && x == m * q + r && 0 <= r < m
    ensures x % m == r && x / m == q
  {
    var q', r' := x / m, x % m;
    assert m * (q - q') == r' - r;
    if q > q' { AtLeastOnce(m, q - q'); }
    if q < q' { assert m * (q' - q) == r - r'; AtLeastOnce(m, q' - q); }
  }

  lemma AtLeastOnce(m: int, d: int)
    requires m > 0 && d >= 1
    ensures m * d >= m
  {
  }
}
