/** The signed total of a leg from its unit value. */
module LegPv {
  import opened Reals

  datatype Direction = Long | Short

  function PositionSign(direction: Direction): real {
    if direction == Short then -1.0 else 1.0
  }

  function SignedTotal(direction: Direction, quantity: real, contractSize: real, unit: real): real {
    PositionSign(direction) * quantity * contractSize * unit
  }

  function Opposite(direction: Direction): Direction {
    if direction == Long then Short else Long
  }

  /** One unit held long is worth its unit value, and the other side of any leg is worth the negative. */
  lemma TotalOfUnit(direction: Direction, quantity: real, contractSize: real, unit: real)
    ensures SignedTotal(Long, 1.0, 1.0, unit) == unit
    ensures SignedTotal(Opposite(direction), quantity, contractSize, unit) == -SignedTotal(direction, quantity, contractSize, unit)
  {
    var sign := PositionSign(direction);
    assert PositionSign(Opposite(direction)) == -sign;
    SignFactors(sign, quantity, contractSize, unit);
  }

  lemma SignFactors(sign: real, quantity: real, contractSize: real, unit: real)
    ensures -sign * quantity * contractSize * unit == -(sign * quantity * contractSize * unit)
  {
    assert Mul(-sign, quantity * contractSize * unit) == -Mul(sign, quantity * contractSize * unit);
  }

  /** The total is linear in the quantity, in the contract size and in the unit value: legs split or merged in any of them
      have totals that add up. */
  lemma TotalIsLinear(direction: Direction, quantity: real, contractSize: real, unit: real, a: real, b: real, other: real)
    ensures SignedTotal(direction, Mul(a, quantity) + Mul(b, other), contractSize, unit)
         == Mul(a, SignedTotal(direction, quantity, contractSize, unit)) + Mul(b, SignedTotal(direction, other, contractSize, unit))
    ensures SignedTotal(direction, quantity, Mul(a, contractSize) + Mul(b, other), unit)
         == Mul(a, SignedTotal(direction, quantity, contractSize, unit)) + Mul(b, SignedTotal(direction, quantity, other, unit))
    ensures SignedTotal(direction, quantity, contractSize, Mul(a, unit) + Mul(b, other))
         == Mul(a, SignedTotal(direction, quantity, contractSize, unit)) + Mul(b, SignedTotal(direction, quantity, contractSize, other))
  {
    var sign := PositionSign(direction);
    SplitProduct(sign, quantity, a, b, other, contractSize * unit);
    SplitProduct(sign * quantity, contractSize, a, b, other, unit);
    SplitProduct(sign * quantity * contractSize, unit, a, b, other, 1.0);
    Rebracket(sign, quantity, contractSize, unit);
    Rebracket(sign, other, contractSize, unit);
    Rebracket(sign, Mul(a, quantity) + Mul(b, other), contractSize, unit);
  }

  lemma SplitProduct(left: real, x: real, a: real, b: real, y: real, right: real)
    ensures left * (Mul(a, x) + Mul(b, y)) * right == Mul(a, left * x * right) + Mul(b, left * y * right)
  {
    assert Mul(left, Mul(a, x)) == Mul(a, left * x) && Mul(left, Mul(b, y)) == Mul(b, left * y);
    assert Mul(Mul(a, left * x) + Mul(b, left * y), right) == Mul(Mul(a, left * x), right) + Mul(Mul(b, left * y), right);
  }

  lemma Rebracket(sign: real, quantity: real, contractSize: real, unit: real)
    ensures sign * quantity * contractSize * unit == sign * quantity * (contractSize * unit)
  {
  }
}
