/** The table of the price curve: 101 points of the logit function, clamped at 1/100 and 99/100. */
module CurveTable {

  const LOWEST: int := -84764999863455367168
  const HIGHEST: int := 84764999863455252480

  /** The smallest rise between neighbouring points outside the two flat ends, and a bound on the largest. */
  const GAP: int := 737968169202023424
  const JUMP: int := 0x1_0000_0000_0000_0000

  function Row(r: int): (s: seq<int>)
    ensures |s| == if 0 <= r < 10 then 10 else 1
  {
    match r
    case 0 =>
     [-84764999863455367168, -84764999863455367168, -71791413020114739200, -64122702906348363776, -58624745660900909056,
      -54315312289337933824, -50756867729459126272, -47715996328766365696, -45053350700638961664, -42679031418590216192]
    case 1 =>
     [-40531639450585882624, -38567365939524018176, -36753849332779208704, -35066499762404089856, -33486189434148528128,
      -31997741738730885120, -30588908944945000448, -29249660330515177472, -27971674063185141760, -26747966611833823232]
    case 2 =>
     [-25572617290405310464, -24440560042528645120, -23347423671542177792, -22289407577085239296, -21263183918842343424,
      -20265819725292941312, -19294714246602784768, -18347548093616457728, -17422241585731162112, -16516920363702972416]
    case 3 =>
     [-15629886784764432384, -14759595957603760128, -13904635528415858688, -13063708520358164480, -12235618674138603520,
      -11419257849061355520, -10613595130224742400, -9817667354921738240, -9030570824192866304, -8251454007294845952]
    case 4 =>
     [-7479511080090284032, -6713976164925600768, -5954118160879564800, -5199236070424976384, -4448654742390539264,
      -3701720962283612672, -2957799830037197824, -2216271372462491904, -1476527343420476672, -737968169202023424]
    case 5 =>
     [0, 737968169202024192, 1476527343420477440, 2216271372462496512, 2957799830037204480,
      3701720962283612672, 4448654742390539264, 5199236070424971264, 5954118160879561728, 6713976164925597696]
    case 6 =>
     [7479511080090281984, 8251454007294848000, 9030570824192860160, 9817667354921742336, 10613595130224742400,
      11419257849061359616, 12235618674138605568, 13063708520358168576, 13904635528415862784, 14759595957603747840]
    case 7 =>
     [15629886784764430336, 16516920363702964224, 17422241585731166208, 18347548093616463872, 19294714246602788864,
      20265819725292945408, 21263183918842335232, 22289407577085243392, 23347423671542181888, 24440560042528653312]
    case 8 =>
     [25572617290405310464, 26747966611833827328, 27971674063185145856, 29249660330515173376, 30588908944945000448,
      31997741738730881024, 33486189434148524032, 35066499762404098048, 36753849332779192320, 38567365939524001792]
    case 9 =>
     [40531639450585874432, 42679031418590240768, 45053350700638978048, 47715996328766390272, 50756867729459134464,
      54315312289337958400, 58624745660900876288, 64122702906348298240, 71791413020114722816, 84764999863455252480]
    case _ => [84764999863455252480]
  }

  function At(k: int): int { if 0 <= k <= 100 then Row(k / 10)[k % 10] else 0 }

  function Tabulate(f: int -> int, lo: int, hi: int): (s: seq<int>)
    requires lo <= hi
    ensures |s| == hi - lo
    ensures forall i :: 0 <= i < |s| ==> s[i] == f(lo + i)
    decreases hi - lo
  {
    if lo == hi then [] else [f(lo)] + Tabulate(f, lo + 1, hi)
  }

  function Points(): seq<int> { Tabulate(At, 0, 101) }

  /** What the interpolation relies on: flat ends and a minimum rise in between. */
  ghost predicate Table(p: seq<int>) {
    && |p| == 101
    && p[0] == p[1] == LOWEST
    && p[99] == p[100] == HIGHEST
    && forall k :: 1 <= k < 99 ==> Rises(p, k)
  }

  ghost predicate Rises(p: seq<int>, k: int) {
    1 <= k < 99 && |p| == 101 && p[k] + GAP <= p[k + 1] <= p[k] + JUMP
  }

  lemma LowRowRises(r: int, i: int)
    requires 0 <= r < 5 && 0 <= i < 9 && !(r == 0 && i == 0)
    ensures Row(r)[i] + GAP <= Row(r)[i + 1] <= Row(r)[i] + JUMP
  {}

  lemma HighRowRises(r: int, i: int)
    requires 5 <= r < 10 && 0 <= i < 9
    ensures Row(r)[i] + GAP <= Row(r)[i + 1] <= Row(r)[i] + JUMP
  {}

  lemma RowRises(r: int, i: int)
    requires 0 <= r < 10 && 0 <= i < 9 && !(r == 0 && i == 0)
    ensures Row(r)[i] + GAP <= Row(r)[i + 1] <= Row(r)[i] + JUMP
  {
    if r < 5 { LowRowRises(r, i); } else { HighRowRises(r, i); }
  }

  lemma RowJoins(r: int)
    requires 0 <= r < 9
    ensures Row(r)[9] + GAP <= Row(r + 1)[0] <= Row(r)[9] + JUMP
  {}

  lemma AtRises(k: int)
    requires 1 <= k < 99
    ensures At(k) + GAP <= At(k + 1) <= At(k) + JUMP
  {
    var r, i := k / 10, k % 10;
    if i == 9 {
      assert (k + 1) / 10 == r + 1 && (k + 1) % 10 == 0;
      RowJoins(r);
    } else {
      assert (k + 1) / 10 == r && (k + 1) % 10 == i + 1;
      RowRises(r, i);
    }
  }

  lemma TabulateTable(f: int -> int)
    requires f(0) == f(1) == LOWEST && f(99) == f(100) == HIGHEST
    requires forall k :: 1 <= k < 99 ==> f(k) + GAP <= f(k + 1) <= f(k) + JUMP
    ensures Table(Tabulate(f, 0, 101))
  {
    var p := Tabulate(f, 0, 101);
    forall k | 1 <= k < 99 ensures Rises(p, k) {
      assert p[k] == f(k) && p[k + 1] == f(k + 1);
    }
  }

  lemma EndsFlat()
    ensures At(0) == At(1) == LOWEST && At(99) == At(100) == HIGHEST
  {}

  lemma PointsAreTable()
    ensures Table(Points())
  {
    EndsFlat();
    forall k | 1 <= k < 99 ensures At(k) + GAP <= At(k + 1) <= At(k) + JUMP { AtRises(k); }
    TabulateTable(At);
  }
}
