/** The table of the price curve against the logit function ln(x / (1 - x)) that it samples. */
module LogitShape {
  import opened Arithmetic
  import opened FixedPoint
  import opened CurveTable

  // ----- Rises of the logarithm -----

  /** Three terms of the series 2 * (y + y^3 / 3 + y^5 / 5 + ...) for ln((n + 1) / n), with y == 1 / (2 * n + 1), and
      with the rest of the series bounded by a geometric one. */
  function LogAtLeast(n: int): real
    requires n > 0
  {
    var d := (2 * n + 1) as real;
    2.0 / d + 2.0 / (3.0 * d * d * d) + 2.0 / (5.0 * d * d * d * d * d)
  }

  function LogAtMost(n: int): real
    requires n > 0
  {
    var d := (2 * n + 1) as real;
    2.0 / d + 2.0 / (3.0 * d * d * d) + 2.0 / (5.0 * d * d * d * (d * d - 1.0))
  }

  /** From `k` hundredths to the next the logit rises by ln((k + 1) / k) + ln((100 - k) / (99 - k)). */
  ghost predicate LogitRise(k: int, here: int, next: int) {
    1 <= k <= 98
    && LogAtLeast(k) + LogAtLeast(99 - k) < (next - here) as real / 18446744073709551616.0
       < LogAtMost(k) + LogAtMost(99 - k)
  }

  lemma Row0From1(i: int)
    requires 1 <= i < 3
    ensures LogitRise(0 + i, Row(0)[i], Row(0)[i + 1])
  {
    if i == 1 {} else if i == 2 {}
  }

  lemma Row0From3(i: int)
    requires 3 <= i < 5
    ensures LogitRise(0 + i, Row(0)[i], Row(0)[i + 1])
  {
    if i == 3 {} else if i == 4 {}
  }

  lemma Row0From5(i: int)
    requires 5 <= i < 7
    ensures LogitRise(0 + i, Row(0)[i], Row(0)[i + 1])
  {
    if i == 5 {} else if i == 6 {}
  }

  lemma Row0From7(i: int)
    requires 7 <= i < 9
    ensures LogitRise(0 + i, Row(0)[i], Row(0)[i + 1])
  {
    if i == 7 {} else if i == 8 {}
  }

  lemma Row1From0(i: int)
    requires 0 <= i < 3
    ensures LogitRise(10 + i, Row(1)[i], Row(1)[i + 1])
  {
    if i == 0 {} else if i == 1 {} else if i == 2 {}
  }

  lemma Row1From3(i: int)
    requires 3 <= i < 5
    ensures LogitRise(10 + i, Row(1)[i], Row(1)[i + 1])
  {
    if i == 3 {} else if i == 4 {}
  }

  lemma Row1From5(i: int)
    requires 5 <= i < 7
    ensures LogitRise(10 + i, Row(1)[i], Row(1)[i + 1])
  {
    if i == 5 {} else if i == 6 {}
  }

  lemma Row1From7(i: int)
    requires 7 <= i < 9
    ensures LogitRise(10 + i, Row(1)[i], Row(1)[i + 1])
  {
    if i == 7 {} else if i == 8 {}
  }

  lemma Row2From0(i: int)
    requires 0 <= i < 5
    ensures LogitRise(20 + i, Row(2)[i], Row(2)[i + 1])
  {
    if i == 0 {} else if i == 1 {} else if i == 2 {} else if i == 3 {} else if i == 4 {}
  }

  lemma Row2From5(i: int)
    requires 5 <= i < 9
    ensures LogitRise(20 + i, Row(2)[i], Row(2)[i + 1])
  {
    if i == 5 {} else if i == 6 {} else if i == 7 {} else if i == 8 {}
  }

  lemma Row3From0(i: int)
    requires 0 <= i < 5
    ensures LogitRise(30 + i, Row(3)[i], Row(3)[i + 1])
  {
    if i == 0 {} else if i == 1 {} else if i == 2 {} else if i == 3 {} else if i == 4 {}
  }

  lemma Row3From5(i: int)
    requires 5 <= i < 9
    ensures LogitRise(30 + i, Row(3)[i], Row(3)[i + 1])
  {
    if i == 5 {} else if i == 6 {} else if i == 7 {} else if i == 8 {}
  }

  lemma Row4From0(i: int)
    requires 0 <= i < 5
    ensures LogitRise(40 + i, Row(4)[i], Row(4)[i + 1])
  {
    if i == 0 {} else if i == 1 {} else if i == 2 {} else if i == 3 {} else if i == 4 {}
  }

  lemma Row4From5(i: int)
    requires 5 <= i < 9
    ensures LogitRise(40 + i, Row(4)[i], Row(4)[i + 1])
  {
    if i == 5 {} else if i == 6 {} else if i == 7 {} else if i == 8 {}
  }

  lemma Row5From0(i: int)
    requires 0 <= i < 5
    ensures LogitRise(50 + i, Row(5)[i], Row(5)[i + 1])
  {
    if i == 0 {} else if i == 1 {} else if i == 2 {} else if i == 3 {} else if i == 4 {}
  }

  lemma Row5From5(i: int)
    requires 5 <= i < 9
    ensures LogitRise(50 + i, Row(5)[i], Row(5)[i + 1])
  {
    if i == 5 {} else if i == 6 {} else if i == 7 {} else if i == 8 {}
  }

  lemma Row6From0(i: int)
    requires 0 <= i < 5
    ensures LogitRise(60 + i, Row(6)[i], Row(6)[i + 1])
  {
    if i == 0 {} else if i == 1 {} else if i == 2 {} else if i == 3 {} else if i == 4 {}
  }

  lemma Row6From5(i: int)
    requires 5 <= i < 9
    ensures LogitRise(60 + i, Row(6)[i], Row(6)[i + 1])
  {
    if i == 5 {} else if i == 6 {} else if i == 7 {} else if i == 8 {}
  }

  lemma Row7From0(i: int)
    requires 0 <= i < 5
    ensures LogitRise(70 + i, Row(7)[i], Row(7)[i + 1])
  {
    if i == 0 {} else if i == 1 {} else if i == 2 {} else if i == 3 {} else if i == 4 {}
  }

  lemma Row7From5(i: int)
    requires 5 <= i < 9
    ensures LogitRise(70 + i, Row(7)[i], Row(7)[i + 1])
  {
    if i == 5 {} else if i == 6 {} else if i == 7 {} else if i == 8 {}
  }

  lemma Row8From0(i: int)
    requires 0 <= i < 3
    ensures LogitRise(80 + i, Row(8)[i], Row(8)[i + 1])
  {
    if i == 0 {} else if i == 1 {} else if i == 2 {}
  }

  lemma Row8From3(i: int)
    requires 3 <= i < 5
    ensures LogitRise(80 + i, Row(8)[i], Row(8)[i + 1])
  {
    if i == 3 {} else if i == 4 {}
  }

  lemma Row8From5(i: int)
    requires 5 <= i < 7
    ensures LogitRise(80 + i, Row(8)[i], Row(8)[i + 1])
  {
    if i == 5 {} else if i == 6 {}
  }

  lemma Row8From7(i: int)
    requires 7 <= i < 9
    ensures LogitRise(80 + i, Row(8)[i], Row(8)[i + 1])
  {
    if i == 7 {} else if i == 8 {}
  }

  lemma Row9From0(i: int)
    requires 0 <= i < 3
    ensures LogitRise(90 + i, Row(9)[i], Row(9)[i + 1])
  {
    if i == 0 {} else if i == 1 {} else if i == 2 {}
  }

  lemma Row9From3(i: int)
    requires 3 <= i < 5
    ensures LogitRise(90 + i, Row(9)[i], Row(9)[i + 1])
  {
    if i == 3 {} else if i == 4 {}
  }

  lemma Row9From5(i: int)
    requires 5 <= i < 7
    ensures LogitRise(90 + i, Row(9)[i], Row(9)[i + 1])
  {
    if i == 5 {} else if i == 6 {}
  }

  lemma Row9From7(i: int)
    requires 7 <= i < 9
    ensures LogitRise(90 + i, Row(9)[i], Row(9)[i + 1])
  {
    if i == 7 {} else if i == 8 {}
  }

  lemma LowJoinsRise(r: int)
    requires 0 <= r < 4
    ensures LogitRise(10 * r + 9, Row(r)[9], Row(r + 1)[0])
  {
    if r == 0 {} else if r == 1 {} else if r == 2 {}
  }

  lemma HighJoinsRise(r: int)
    requires 4 <= r < 9
    ensures LogitRise(10 * r + 9, Row(r)[9], Row(r + 1)[0])
  {
    if r == 4 {} else if r == 5 {} else if r == 6 {} else if r == 7 {}
  }

  lemma LowRowsRise(r: int, i: int)
    requires 0 <= r < 5 && 0 <= i < 9 && !(r == 0 && i == 0)
    ensures LogitRise(10 * r + i, Row(r)[i], Row(r)[i + 1])
  {
    match r
    case 0 =>
      if i < 3 { Row0From1(i); }
      else if i < 5 { Row0From3(i); }
      else if i < 7 { Row0From5(i); }
      else { Row0From7(i); }
    case 1 =>
      if i < 3 { Row1From0(i); }
      else if i < 5 { Row1From3(i); }
      else if i < 7 { Row1From5(i); }
      else { Row1From7(i); }
    case 2 =>
      if i < 5 { Row2From0(i); }
      else { Row2From5(i); }
    case 3 =>
      if i < 5 { Row3From0(i); }
      else { Row3From5(i); }
    case 4 =>
      if i < 5 { Row4From0(i); }
      else { Row4From5(i); }
  }

  lemma HighRowsRise(r: int, i: int)
    requires 5 <= r < 10 && 0 <= i < 9
    ensures LogitRise(10 * r + i, Row(r)[i], Row(r)[i + 1])
  {
    match r
    case 5 =>
      if i < 5 { Row5From0(i); }
      else { Row5From5(i); }
    case 6 =>
      if i < 5 { Row6From0(i); }
      else { Row6From5(i); }
    case 7 =>
      if i < 5 { Row7From0(i); }
      else { Row7From5(i); }
    case 8 =>
      if i < 3 { Row8From0(i); }
      else if i < 5 { Row8From3(i); }
      else if i < 7 { Row8From5(i); }
      else { Row8From7(i); }
    case 9 =>
      if i < 3 { Row9From0(i); }
      else if i < 5 { Row9From3(i); }
      else if i < 7 { Row9From5(i); }
      else { Row9From7(i); }
  }

  // ----- From rows to points -----

  lemma AtRow(k: int, r: int, i: int)
    requires k == 10 * r + i && 0 <= i < 10 && 0 <= k <= 100
    ensures 0 <= r <= 10 && i < |Row(r)| && At(k) == Row(r)[i]
  {
    assert k / 10 == r && k % 10 == i;
  }

  lemma LowRises(k: int, r: int, i: int)
    requires k == 10 * r + i && 0 <= i < 9 && 1 <= k < 50
    ensures LogitRise(k, At(k), At(k + 1))
  {
    AtRow(k, r, i);
    AtRow(k + 1, r, i + 1);
    LowRowsRise(r, i);
  }

  lemma HighRises(k: int, r: int, i: int)
    requires k == 10 * r + i && 0 <= i < 9 && 50 <= k <= 98
    ensures LogitRise(k, At(k), At(k + 1))
  {
    AtRow(k, r, i);
    AtRow(k + 1, r, i + 1);
    HighRowsRise(r, i);
  }

  lemma RisesAcross(k: int, r: int)
    requires k == 10 * r + 9 && 1 <= k <= 98
    ensures LogitRise(k, At(k), At(k + 1))
  {
    AtRow(k, r, 9);
    AtRow(k + 1, r + 1, 0);
    if r < 4 { LowJoinsRise(r); } else { HighJoinsRise(r); }
  }

  /** Between 1/100 and 99/100 every point of the table lies above the one before by the rise of the logit, enclosed by
      its series. */
  lemma TableIsLogit(k: int)
    requires 1 <= k <= 98
    ensures LogitRise(k, At(k), At(k + 1))
  {
    if k % 10 == 9 { RisesAcross(k, k / 10); }
    else if k < 50 { LowRises(k, k / 10, k % 10); }
    else { HighRises(k, k / 10, k % 10); }
  }

  // ----- Symmetry and curvature -----

  /** The most by which opposite points fail to cancel. */
  const SKEW: int := 0x20000

  predicate Cancel(here: int, opposite: int) { -SKEW <= here + opposite <= SKEW }

  lemma OuterMirrors(r: int, i: int)
    requires 0 <= r < 3 && 0 < i < 10
    ensures Cancel(Row(r)[i], Row(9 - r)[10 - i])
  {}

  lemma InnerMirrors(r: int, i: int)
    requires 3 <= r < 5 && 0 < i < 10
    ensures Cancel(Row(r)[i], Row(9 - r)[10 - i])
  {}

  lemma StartMirrors(r: int)
    requires 0 <= r <= 5
    ensures Cancel(Row(r)[0], Row(10 - r)[0])
  {}

  lemma MirrorsOutside(k: int, r: int, i: int)
    requires k == 10 * r + i && 0 < i < 10 && 0 <= k < 30
    ensures Cancel(At(k), At(100 - k))
  {
    AtRow(k, r, i);
    AtRow(100 - k, 9 - r, 10 - i);
    OuterMirrors(r, i);
  }

  lemma MirrorsInside(k: int, r: int, i: int)
    requires k == 10 * r + i && 0 < i < 10 && 30 <= k < 50
    ensures Cancel(At(k), At(100 - k))
  {
    AtRow(k, r, i);
    AtRow(100 - k, 9 - r, 10 - i);
    InnerMirrors(r, i);
  }

  lemma MirrorsAtStart(k: int, r: int)
    requires k == 10 * r && 0 <= k <= 50
    ensures Cancel(At(k), At(100 - k))
  {
    AtRow(k, r, 0);
    AtRow(100 - k, 10 - r, 0);
    StartMirrors(r);
  }

  lemma HalfMirrors(k: int)
    requires 0 <= k <= 50
    ensures Cancel(At(k), At(100 - k))
  {
    if k % 10 == 0 { MirrorsAtStart(k, k / 10); }
    else if k < 30 { MirrorsOutside(k, k / 10, k % 10); }
    else { MirrorsInside(k, k / 10, k % 10); }
  }

  /** The table is antisymmetric around one half, where it is zero, up to the rounding of its entries. */
  lemma TableMirrors(k: int)
    requires 0 <= k <= 100
    ensures At(50) == 0 && Cancel(At(k), At(100 - k))
  {
    if k <= 50 { HalfMirrors(k); } else { HalfMirrors(100 - k); }
  }

  /** Rises shrink up to one half and grow from there on. */
  predicate Curving(k: int, before: int, here: int, next: int) {
    if k >= 50 then next - here > here - before else next - here < here - before
  }

  lemma LowRowsCurve(r: int, i: int)
    requires 0 <= r < 5 && 0 < i < 9 && !(r == 0 && i == 1)
    ensures Curving(10 * r + i, Row(r)[i - 1], Row(r)[i], Row(r)[i + 1])
  {}

  lemma HighRowsCurve(r: int, i: int)
    requires 5 <= r < 10 && 0 < i < 9
    ensures Curving(10 * r + i, Row(r)[i - 1], Row(r)[i], Row(r)[i + 1])
  {}

  lemma JoinsCurve(r: int)
    requires 0 <= r < 9
    ensures Curving(10 * r + 9, Row(r)[8], Row(r)[9], Row(r + 1)[0])
    ensures Curving(10 * r + 10, Row(r)[9], Row(r + 1)[0], Row(r + 1)[1])
  {}

  lemma LowCurves(k: int, r: int, i: int)
    requires k == 10 * r + i && 0 < i < 9 && 2 <= k < 50
    ensures Curving(k, At(k - 1), At(k), At(k + 1))
  {
    AtRow(k - 1, r, i - 1);
    AtRow(k, r, i);
    AtRow(k + 1, r, i + 1);
    LowRowsCurve(r, i);
  }

  lemma HighCurves(k: int, r: int, i: int)
    requires k == 10 * r + i && 0 < i < 9 && 50 <= k <= 98
    ensures Curving(k, At(k - 1), At(k), At(k + 1))
  {
    AtRow(k - 1, r, i - 1);
    AtRow(k, r, i);
    AtRow(k + 1, r, i + 1);
    HighRowsCurve(r, i);
  }

  lemma CurvesAtEnd(k: int, r: int)
    requires k == 10 * r + 9 && 2 <= k <= 98
    ensures Curving(k, At(k - 1), At(k), At(k + 1))
  {
    AtRow(k - 1, r, 8);
    AtRow(k, r, 9);
    AtRow(k + 1, r + 1, 0);
    JoinsCurve(r);
  }

  lemma CurvesAtStart(k: int, r: int)
    requires k == 10 * r && 2 <= k <= 98
    ensures Curving(k, At(k - 1), At(k), At(k + 1))
  {
    AtRow(k - 1, r - 1, 9);
    AtRow(k, r, 0);
    AtRow(k + 1, r, 1);
    JoinsCurve(r - 1);
  }

  lemma TableCurves(k: int)
    requires 2 <= k <= 98
    ensures Curving(k, At(k - 1), At(k), At(k + 1))
  {
    if k % 10 == 9 { CurvesAtEnd(k, k / 10); }
    else if k % 10 == 0 { CurvesAtStart(k, k / 10); }
    else if k < 50 { LowCurves(k, k / 10, k % 10); }
    else { HighCurves(k, k / 10, k % 10); }
  }
}
