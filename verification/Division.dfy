/** Facts about integer division by a positive divisor. */
module Division {

  lemma MulMonotone(a: int, b: int, m: nat)
    requires a <= b
    ensures a * m <= b * m
  {
  }

  lemma MulCancel(a: int, b: int, c: nat)
    requires a * c < b * c
    ensures a < b
  {
    if b <= a {
      MulMonotone(b, a, c);
    }
  }

  lemma DivBounds(x: int, c: nat)
    requires c > 0
    ensures x / c * c <= x < (x / c + 1) * c
  {
  }

  lemma DivAtLeast(x: int, c: nat, q: int)
    requires c > 0 && q * c <= x
    ensures q <= x / c
  {
    DivBounds(x, c);
    MulCancel(q, x / c + 1, c);
  }

  lemma DivBelow(x: int, c: nat, q: int)
    requires c > 0 && x < q * c
    ensures x / c < q
  {
    DivBounds(x, c);
    MulCancel(x / c, q, c);
  }

  lemma DivMonotone(x: int, y: int, c: nat)
    requires c > 0 && x <= y
    ensures x / c <= y / c
  {
    DivBounds(x, c);
    DivAtLeast(y, c, x / c);
  }

  lemma DivAdds(x: int, y: int, c: nat)
    requires c > 0
    ensures x / c + y / c <= (x + y) / c
  {
    DivBounds(x, c);
    DivBounds(y, c);
    assert (x / c + y / c) * c == x / c * c + y / c * c;
    DivAtLeast(x + y, c, x / c + y / c);
  }

  lemma DivExact(m: nat, c: nat)
    requires c > 0
    ensures m * c / c == m
  {
    DivAtLeast(m * c, c, m);
    assert (m + 1) * c == m * c + c;
    DivBelow(m * c, c, m + 1);
  }

  lemma DivShift(x: int, m: int, c: nat)
    requires c > 0
    ensures (x + m * c) / c == x / c + m
  {
    DivBounds(x, c);
    assert (x / c + m) * c == x / c * c + m * c;
    assert (x / c + m + 1) * c == (x / c + 1) * c + m * c;
    DivAtLeast(x + m * c, c, x / c + m);
    DivBelow(x + m * c, c, x / c + m + 1);
  }

  lemma DivAddsAtMost(x: int, y: int, c: nat)
    requires c > 0
    ensures (x + y) / c <= x / c + y / c + 1
  {
    DivBounds(x, c);
    DivBounds(y, c);
    assert (x / c + 1) * c + (y / c + 1) * c == (x / c + y / c + 2) * c;
    DivBelow(x + y, c, x / c + y / c + 2);
  }
}
