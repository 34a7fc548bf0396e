/** Durations, in nanoseconds as `std::chrono::steady_clock` counts them. */
module Clock {

  const NANOS_PER_MILLI: int := 1_000_000
  const NANOS_PER_SECOND: int := 1_000_000_000
  const NANOS_PER_MINUTE: int := 60_000_000_000

  type Unit = u: int | u > 0 witness 1

  /** `duration_cast` to a coarser unit truncates toward zero. */
  function TruncDiv(nanos: int, unit: int): int
    requires unit > 0
  {
    if nanos >= 0 then nanos / unit else -(-nanos / unit)
  }

  lemma MulMonotone(x: int, y: int, d: int)
    requires d >= 0 && x <= y
    ensures x * d <= y * d
  {
  }

  lemma FloorAtLeast(x: int, d: int, q: int)
    requires d > 0 && q * d <= x
    ensures q <= x / d
  {
    if q > x / d {
      MulMonotone(x / d + 1, q, d);
    }
  }

  lemma FloorIff(x: int, unit: Unit, q: int)
    ensures x / unit == q <==> q * unit <= x < q * unit + unit
  {
    if q * unit <= x < q * unit + unit {
      FloorAtLeast(x, unit, q);
      if q + 1 <= x / unit {
        MulMonotone(q + 1, x / unit, unit);
      }
    }
  }

  /** The quotient of the magnitudes, rounded down, under the sign of the duration. */
  lemma TruncDivIff(nanos: int, unit: Unit, q: int)
    ensures TruncDiv(nanos, unit) == q <==>
            if nanos >= 0 then q * unit <= nanos < q * unit + unit else q * unit - unit < nanos <= q * unit
  {
    FloorIff(nanos, unit, q);
    FloorIff(-nanos, unit, -q);
    assert (-q) * unit == -(q * unit);
  }

  lemma FloorsAdd(x: int, y: int, d: int)
    requires d > 0
    ensures x / d + y / d <= (x + y) / d
  {
    assert (x / d) * d <= x && (y / d) * d <= y;
    assert (x / d + y / d) * d == (x / d) * d + (y / d) * d;
    FloorAtLeast(x + y, d, x / d + y / d);
  }

  lemma TruncDivMonotone(x: int, y: int, unit: int)
    requires unit > 0 && x <= y
    ensures TruncDiv(x, unit) <= TruncDiv(y, unit)
  {
    if 0 <= x {
      assert (x / unit) * unit <= x;
      FloorAtLeast(y, unit, x / unit);
    } else if y < 0 {
      assert (-y / unit) * unit <= -y;
      FloorAtLeast(-x, unit, -y / unit);
    } else {
      FloorAtLeast(-x, unit, 0);
      FloorAtLeast(y, unit, 0);
    }
  }

  /** At least one whole unit, said without the cast. */
  lemma AtLeastOneUnit(x: int, unit: int)
    requires unit > 0
    ensures TruncDiv(x, unit) >= 1 <==> x >= unit
  {
    if x >= unit {
      FloorAtLeast(x, unit, 1);
    } else if x < 0 {
      FloorAtLeast(-x, unit, 0);
    }
  }

  lemma WholeUnits(x: int, unit: int, count: int)
    requires unit > 0
    ensures count >= 1 ==> (TruncDiv(x, unit) >= count <==> x >= count * unit)
    ensures count <= 0 ==> (TruncDiv(x, unit) >= count <==> x > count * unit - unit)
  {
    if count <= 0 {
      UnitsBelowOne(x, unit, count);
    } else {
      UnitsAboveZero(x, unit, count);
    }
  }

  /** A negative duration is rounded up. */
  lemma UnitsBelowOne(x: int, unit: int, count: int)
    requires unit > 0 && count <= 0
    ensures TruncDiv(x, unit) >= count <==> x > count * unit - unit
  {
    assert (1 - count) * unit == unit - count * unit;
    if x < 0 {
      if -x / unit >= 1 - count {
        MulMonotone(1 - count, -x / unit, unit);
      } else if -x >= (1 - count) * unit {
        FloorAtLeast(-x, unit, 1 - count);
      }
    } else {
      MulMonotone(count, 0, unit);
      FloorAtLeast(x, unit, 0);
    }
  }

  lemma UnitsAboveZero(x: int, unit: int, count: int)
    requires unit > 0 && count >= 1
    ensures TruncDiv(x, unit) >= count <==> x >= count * unit
  {
    if x >= count * unit {
      MulMonotone(1, count, unit);
      FloorAtLeast(x, unit, count);
    } else if x < 0 {
      FloorAtLeast(-x, unit, 0);
    } else if x / unit >= count {
      MulMonotone(count, x / unit, unit);
    }
  }
}
