// Facts about products and floor division that the solver needs spelled out.
module Arithmetic {
  lemma Scaled(d: nat, m: int, n: int)
    requires d > 0
    ensures m >= n ==> d * m >= d * n
    ensures m <= n ==> d * m <= d * n
  {
  }

  lemma FloorSum(x: int, y: int, d: nat)
    requires d > 0
    ensures x / d + y / d <= (x + y) / d <= x / d + y / d + 1
  {
    var qx, qy, q := x / d, y / d, (x + y) / d;
    assert x == d * qx + x % d && y == d * qy + y % d && x + y == d * q + (x + y) % d;
    assert d * (q - qx - qy) == x % d + y % d - (x + y) % d;
    Scaled(d, q - qx - qy, -1);
    Scaled(d, q - qx - qy, 2);
  }
}
