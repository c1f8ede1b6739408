/**
  Coupled congestion control over several paths (OLIA): the shares that the paths give to each other,
  and the congestion window of one path.
 */
module OliaCongestion {
  import opened Basics

  const TCP_MSS: nat := 1460
  const MAX_BURST: nat := 3 * TCP_MSS
  const MIN_WINDOW: nat := 2
  const STEP: int := 1024 // the scale, two to the tenth
  const RENO_BETA: real := 0.7

  // ----- machine integers

  function U64(x: int): (r: nat)
    ensures r < TWO_64 && (0 <= x < TWO_64 ==> r == x)
  {
    x % TWO_64
  }

  function S64(x: int): (r: int)
    ensures -0x8000_0000_0000_0000 <= r < 0x8000_0000_0000_0000
  {
    var u := U64(x);
    if u < 0x8000_0000_0000_0000 then u else u - TWO_64
  }

  // ----- products and quotients

  lemma Grows(a: int, b: int, c: nat)
    requires a <= b
    ensures a * c <= b * c
  {
    assert b * c - a * c == (b - a) * c;
  }

  lemma Quotient(x: nat, d: nat)
    requires d > 0
    ensures d * (x / d) <= x < d * (x / d + 1) && 0 <= x / d <= x
  {
    var q := x / d;
    assert x == d * q + x % d;
    if q > x { Grows(1, d, q); assert false; }
  }

  lemma Below(d: nat, w: int, window: nat)
    requires d > 3 && window > 0 && d * w <= (d - 3) * window
    ensures w < window
  {
    assert (d - 3) * window == d * window - 3 * window;
    if w >= window { Grows(window, w, d); assert false; }
  }

  lemma RealGrows(x: real, y: real, d: real)
    requires d > 0.0
    ensures x <= y ==> x * d <= y * d
    ensures x < y ==> x * d < y * d
  {
  }

  lemma CastProduct(a: int, b: int)
    ensures (a * b) as real == a as real * b as real
  {
  }

  lemma CastOrder(a: int, b: int, x: real, y: real, d: real)
    requires d > 0.0 && a as real == x * d && b as real == y * d
    ensures (x <= y ==> a <= b) && (x < y ==> a < b)
  {
    RealGrows(x, y, d);
  }

  lemma Floored(x: real, d: nat, y: int)
    requires d > 0 && x * d as real == y as real
    ensures d * x.Floor <= y < d * (x.Floor + 1)
  {
    var lo, hi := x.Floor, x.Floor + 1;
    CastProduct(lo, d);
    CastProduct(hi, d);
    CastOrder(lo * d, y, lo as real, x, d as real);
    CastOrder(y, hi * d, x, hi as real, d as real);
  }

  lemma Exactly(d: nat, m: int, n: nat)
    requires d > 0 && d * m <= n * d < d * (m + 1)
    ensures m == n
  {
    if m > n { Grows(n + 1, m, d); assert false; }
    if m < n { Grows(m + 1, n, d); assert false; }
  }

  lemma NoMore(window: nat, rate: nat, inc: int, square: nat)
    requires rate > 0 && square <= rate && inc >= 0 && window * rate * inc <= square * STEP
    ensures inc * window <= STEP
  {
    assert (inc * window) * rate == window * rate * inc;
    Grows(square, rate, STEP);
    if inc * window > STEP { Grows(STEP + 1, inc * window, rate); assert false; }
  }

  lemma Bounded(a: nat, x: nat, b: nat, y: nat)
    requires a < x && b < y
    ensures a * b < x * y
  {
    Grows(a, x - 1, b);
    Grows(b, y, x);
    assert (x - 1) * b + b == x * b;
    assert x * b < x * y || b == 0;
  }

  // ----- the shares of the paths

  // where a path stands: in the set of the largest windows, or, apart from it, of the best paths
  datatype Place = Largest | BestOnly | Neither

  // the share of a path, as a fraction
  datatype Share = Share(num: int, den: nat)

  function Count(ps: seq<Place>, p: Place): (n: nat)
    ensures n <= |ps|
  {
    if ps == [] then 0 else Count(ps[..|ps| - 1], p) + if ps[|ps| - 1] == p then 1 else 0
  }

  // the share of a place among n paths, when b are best only and m are largest
  function ShareOf(p: Place, n: nat, b: nat, m: nat): (s: Share) {
    if b == 0 then Share(0, 1)
    else match p
      case BestOnly => Share(1, n * b)
      case Largest => Share(-1, n * m)
      case Neither => Share(0, 1)
  }

  function Fraction(s: Share): (r: real)
    requires s.den > 0
  {
    s.num as real / s.den as real
  }

  function Total(ss: seq<Share>): (r: real)
    requires forall i :: 0 <= i < |ss| ==> ss[i].den > 0
  {
    if ss == [] then 0.0 else Total(ss[..|ss| - 1]) + Fraction(ss[|ss| - 1])
  }

  // the same number of the same amount
  function Times(k: nat, x: real): (r: real) {
    if k == 0 then 0.0 else Times(k - 1, x) + x
  }

  lemma {:induction false} TimesIsProduct(k: nat, x: real)
    ensures Times(k, x) == k as real * x
  {
    if k > 0 { TimesIsProduct(k - 1, x); }
  }

  lemma SharesOfEqualParts(n: nat, k: nat)
    requires n > 0 && k > 0
    ensures n * k > 0 && Times(k, 1.0 / (n * k) as real) == 1.0 / n as real
  {
    var x, a, b := 1.0 / (n * k) as real, n as real, k as real;
    TimesIsProduct(k, x);
    assert (n * k) as real == a * b;
    assert x * (a * b) == 1.0;
    assert (b * x) * a == x * (a * b);
  }

  // what a path gets, when best paths get x and largest ones give up y
  function Part(p: Place, x: real, y: real): (r: real) {
    match p
    case BestOnly => x
    case Largest => -y
    case Neither => 0.0
  }

  lemma {:induction false} TotalByPlace(ps: seq<Place>, ss: seq<Share>, x: real, y: real)
    requires |ss| == |ps| && forall i :: 0 <= i < |ps| ==> ss[i].den > 0 && Fraction(ss[i]) == Part(ps[i], x, y)
    ensures Total(ss) == Times(Count(ps, BestOnly), x) - Times(Count(ps, Largest), y)
  {
    hide Fraction;
    if ps != [] {
      var k := |ps| - 1;
      assert ss[k].den > 0;
      TotalByPlace(ps[..k], ss[..k], x, y);
    }
  }

  lemma FractionOf(p: Place, n: nat, b: nat, m: nat)
    requires n * b > 0 && n * m > 0
    ensures ShareOf(p, n, b, m).den > 0 &&
            Fraction(ShareOf(p, n, b, m)) == Part(p, 1.0 / (n * b) as real, 1.0 / (n * m) as real)
  {
  }

  ghost predicate Divided(ps: seq<Place>, ss: seq<Share>) {
    |ss| == |ps| && forall i :: 0 <= i < |ps| ==>
      ss[i] == ShareOf(ps[i], |ps|, Count(ps, BestOnly), Count(ps, Largest)) && ss[i].den > 0
  }

  // What some paths gain, others give up.
  lemma SharesCancel(ps: seq<Place>, ss: seq<Share>)
    requires Divided(ps, ss) && (ps != [] ==> Count(ps, Largest) > 0)
    ensures Total(ss) == 0.0
  {
    var n, b, m := |ps|, Count(ps, BestOnly), Count(ps, Largest);
    if b == 0 {
      NothingToShare(ss);
    } else {
      hide Fraction, Total;
      SharesOfEqualParts(n, b);
      SharesOfEqualParts(n, m);
      forall i | 0 <= i < n ensures ss[i].den > 0 &&
        Fraction(ss[i]) == Part(ps[i], 1.0 / (n * b) as real, 1.0 / (n * m) as real) {
        FractionOf(ps[i], n, b, m);
      }
      TotalByPlace(ps, ss, 1.0 / (n * b) as real, 1.0 / (n * m) as real);
    }
  }

  lemma {:induction false} NothingToShare(ss: seq<Share>)
    requires forall i :: 0 <= i < |ss| ==> ss[i] == Share(0, 1)
    ensures Total(ss) == 0.0
  {
    if ss != [] {
      assert ss[|ss| - 1] == Share(0, 1);
      NothingToShare(ss[..|ss| - 1]);
    }
  }

  // what the paths in one place get together
  ghost function TotalAt(ps: seq<Place>, ss: seq<Share>, p: Place): (r: real)
    requires |ps| == |ss| && forall i :: 0 <= i < |ss| ==> ss[i].den > 0
  {
    if ps == [] then 0.0
    else
      var k := |ps| - 1;
      TotalAt(ps[..k], ss[..k], p) + if ps[k] == p then Fraction(ss[k]) else 0.0
  }

  lemma {:induction false} EqualParts(ps: seq<Place>, ss: seq<Share>, p: Place, x: real)
    requires |ps| == |ss| && forall i :: 0 <= i < |ss| ==> ss[i].den > 0 && (ps[i] == p ==> Fraction(ss[i]) == x)
    ensures TotalAt(ps, ss, p) == Times(Count(ps, p), x)
  {
    hide Fraction;
    if ps != [] {
      var k := |ps| - 1;
      assert ss[k].den > 0;
      EqualParts(ps[..k], ss[..k], p, x);
    }
  }

  // If there is any path that is best without the largest window, these paths gain together one share of all
  // paths, each the same, those with the largest window give up as much, each the same, and the others nothing.
  lemma SharesAreEqual(ps: seq<Place>, ss: seq<Share>)
    requires Divided(ps, ss) && Count(ps, Largest) > 0 && Count(ps, BestOnly) > 0
    ensures TotalAt(ps, ss, BestOnly) == 1.0 / |ps| as real && TotalAt(ps, ss, Largest) == -(1.0 / |ps| as real)
    ensures forall i, j :: 0 <= i < |ps| && 0 <= j < |ps| && ps[i] == ps[j] ==> ss[i] == ss[j]
    ensures forall i :: 0 <= i < |ps| ==>
      (ps[i] == BestOnly <==> ss[i].num > 0) && (ps[i] == Largest <==> ss[i].num < 0)
  {
    hide Fraction, TotalAt, Count, Times;
    CountsAddUp(ps);
    PartsOfPlaces(ps, ss, |ps|, Count(ps, BestOnly), Count(ps, Largest));
  }

  lemma PartsOfPlaces(ps: seq<Place>, ss: seq<Share>, n: nat, b: nat, m: nat)
    requires |ss| == |ps| == n > 0 && b == Count(ps, BestOnly) > 0 && m == Count(ps, Largest) > 0
    requires forall i :: 0 <= i < n ==> ss[i] == ShareOf(ps[i], n, b, m) && ss[i].den > 0
    ensures TotalAt(ps, ss, BestOnly) == 1.0 / n as real && TotalAt(ps, ss, Largest) == -(1.0 / n as real)
  {
    SharesOfEqualParts(n, b);
    SharesOfEqualParts(n, m);
    var x, y := 1.0 / (n * b) as real, 1.0 / (n * m) as real;
    forall i | 0 <= i < n ensures ss[i].den > 0 && Fraction(ss[i]) == Part(ps[i], x, y) { FractionOf(ps[i], n, b, m); }
    hide *;
    assert Part(BestOnly, x, y) == x && Part(Largest, x, y) == -y by { PartIs(x, y); }
    EqualParts(ps, ss, BestOnly, x);
    EqualParts(ps, ss, Largest, -y);
    TimesNegative(m, y);
  }

  lemma PartIs(x: real, y: real)
    ensures Part(BestOnly, x, y) == x && Part(Largest, x, y) == -y
  {
  }

  lemma {:induction false} TimesNegative(k: nat, x: real)
    ensures Times(k, -x) == -Times(k, x)
  {
    if k > 0 { TimesNegative(k - 1, x); }
  }

  function Smoothed(loss1: nat, loss2: nat, loss3: nat): (bytes: nat) {
    var a, b := U64(loss3 - loss2), U64(loss2 - loss1);
    if a > b then a else b
  }

  // The bytes between losses: since the last loss, or between the last two, whichever are more.
  lemma SmoothedIsLarger(loss1: nat, loss2: nat, loss3: nat)
    requires loss1 <= loss2 <= loss3 < TWO_64
    ensures
      var bytes := Smoothed(loss1, loss2, loss3);
      bytes >= loss3 - loss2 && bytes >= loss2 - loss1 && bytes in {loss3 - loss2, loss2 - loss1}
  {
  }

  // is bytes / rtt at least bestBytes / bestRtt, in 64-bit arithmetic
  predicate AtLeast(bytes: nat, rtt: int, bestBytes: nat, bestRtt: int) {
    S64(S64(bytes) * bestRtt) >= S64(S64(bestBytes) * rtt)
  }

  // what the choice of shares looks at
  datatype Path = Path(window: nat, bytes: nat, rttSquared: int)

  datatype Reference = Reference(window: nat, bytes: nat, rttSquared: int)

  function PlaceOf(p: Path, r: Reference): (place: Place) {
    if p.window == r.window then Largest
    else if AtLeast(p.bytes, p.rttSquared, r.bytes, r.rttSquared) then BestOnly
    else Neither
  }

  function Places(ps: seq<Path>, r: Reference): (places: seq<Place>)
    ensures |places| == |ps| && forall i :: 0 <= i < |ps| ==> places[i] == PlaceOf(ps[i], r)
  {
    seq(|ps|, i requires 0 <= i < |ps| => PlaceOf(ps[i], r))
  }

  // the largest window
  ghost predicate IsLargest(ps: seq<Path>, w: nat) {
    (forall p :: p in ps ==> p.window <= w) && (ps != [] ==> exists p :: p in ps && p.window == w)
  }

  lemma LargestStep(ps: seq<Path>, i: nat, w: nat)
    requires i < |ps| && IsLargest(ps[..i], w) && (i == 0 ==> w == 0)
    ensures IsLargest(ps[..i + 1], if ps[i].window > w then ps[i].window else w)
  {
    assert ps[..i + 1] == ps[..i] + [ps[i]];
    var r := ps[..i + 1];
    assert r[i] == ps[i] && ps[i] in r;
    if ps[i].window <= w && i > 0 {
      var p :| p in ps[..i] && p.window == w;
      assert p in r;
    }
  }

  method MaxWindow(ps: seq<Path>) returns (best: nat)
    ensures IsLargest(ps, best)
  {
    best := 0;
    var i := 0;
    while i < |ps|
      invariant i <= |ps| && IsLargest(ps[..i], best) && (i == 0 ==> best == 0)
    {
      LargestStep(ps, i, best);
      if ps[i].window > best { best := ps[i].window; }
      i := i + 1;
    }
    assert ps[..i] == ps;
  }

  // ----- the best paths

  // bytes between losses, for the squared round trip time
  ghost function Quality(bytes: nat, rttSquared: int): (q: real)
    requires rttSquared > 0
  {
    bytes as real / rttSquared as real
  }

  // round trip times are known, and 64 bits hold every product that is compared
  ghost predicate Measured(ps: seq<Path>) {
    (forall p :: p in ps ==> p.rttSquared > 0) &&
    forall p, q :: p in ps && q in ps ==> p.bytes * q.rttSquared < 0x8000_0000_0000_0000
  }

  lemma Ratios(a: nat, b: int, c: nat, d: int)
    requires b > 0 && d > 0
    ensures a * d >= c * b <==> Quality(a, b) >= Quality(c, d)
  {
    var x, y, u, v := a as real, b as real, c as real, d as real;
    assert x / y * y == x && u / v * v == u;
    assert (a * d) as real == x * v && (c * b) as real == u * y;
    assert x * v == (x / y) * (y * v) && u * y == (u / v) * (y * v);
    assert y * v > 0.0;
    MultiplyOut(x / y, u / v, y * v);
  }

  lemma MultiplyOut(p: real, q: real, k: real)
    requires k > 0.0
    ensures p >= q <==> p * k >= q * k
  {
  }

  // In this range the comparison of the code is that of the ratios.
  lemma ComparesRatios(ps: seq<Path>, p: Path, q: Path)
    requires Measured(ps) && p in ps && q in ps
    ensures AtLeast(p.bytes, p.rttSquared, q.bytes, q.rttSquared) <==>
            Quality(p.bytes, p.rttSquared) >= Quality(q.bytes, q.rttSquared)
  {
    Ratios(p.bytes, p.rttSquared, q.bytes, q.rttSquared);
    hide Quality;
    assert p.bytes * q.rttSquared < 0x8000_0000_0000_0000 && q.bytes * p.rttSquared < 0x8000_0000_0000_0000;
    FitsSigned(p.bytes, q.rttSquared);
    FitsSigned(q.bytes, p.rttSquared);
  }

  lemma FitsSigned(a: nat, b: int)
    requires b > 0 && a * b < 0x8000_0000_0000_0000
    ensures S64(S64(a) * b) == a * b
  {
    hide S64;
    NoSmaller(a, b);
    SmallIsKept(a);
    SmallIsKept(a * b);
  }

  lemma NoSmaller(a: nat, b: int)
    requires b > 0
    ensures a <= a * b
  {
  }

  lemma SmallIsKept(x: nat)
    requires x < 0x8000_0000_0000_0000
    ensures S64(x) == x
  {
  }

  // what the loop over the paths takes for the best one; a later one that is equal replaces an earlier one
  ghost function BestOf(ps: seq<Path>): (best: (nat, int)) {
    if ps == [] then (0, 0)
    else
      var best, last := BestOf(ps[..|ps| - 1]), ps[|ps| - 1];
      if AtLeast(last.bytes, last.rttSquared, best.0, best.1) then (last.bytes, last.rttSquared) else best
  }

  lemma BestOfTwo(p: Path, q: Path)
    ensures BestOf([p, q]) ==
            if AtLeast(q.bytes, q.rttSquared, p.bytes, p.rttSquared) then (q.bytes, q.rttSquared)
            else (p.bytes, p.rttSquared)
  {
    hide AtLeast;
    assert [p, q][..1] == [p] && [p][..0] == [];
    BetterThanNone(p.bytes, p.rttSquared);
    assert BestOf([p]) == (p.bytes, p.rttSquared);
  }

  // Two paths with ten packets between losses, and round trips of 100 and 200 milliseconds: the slower one is
  // taken to be the better one, in whichever order they come. If the faster one has the larger window, it has to
  // give to the slower one; if it has the smaller window, it gains nothing.
  lemma WrapExample(near: Path, far: Path)
    requires near.bytes == far.bytes == 14600
    requires near.rttSquared == 10_000_000_000_000_000 && far.rttSquared == 40_000_000_000_000_000
    ensures Quality(near.bytes, near.rttSquared) > Quality(far.bytes, far.rttSquared) && !Measured([near, far])
    ensures BestOf([near, far]) == BestOf([far, near]) == (far.bytes, far.rttSquared)
    ensures near.window > far.window ==>
            Places([near, far], Reference(near.window, far.bytes, far.rttSquared)) == [Largest, BestOnly]
    ensures near.window < far.window ==>
            Places([near, far], Reference(far.window, far.bytes, far.rttSquared)) == [Neither, Largest]
  {
    hide AtLeast, BestOf, Quality;
    Wrapped();
    BestOfTwo(near, far);
    BestOfTwo(far, near);
    Ratios(far.bytes, far.rttSquared, near.bytes, near.rttSquared);
    assert near in [near, far] && far in [near, far] && near.bytes * far.rttSquared == 584_000_000_000_000_000_000;
  }

  lemma Wrapped()
    ensures AtLeast(14600, 40_000_000_000_000_000, 14600, 10_000_000_000_000_000)
    ensures AtLeast(14600, 40_000_000_000_000_000, 14600, 40_000_000_000_000_000)
    ensures !AtLeast(14600, 10_000_000_000_000_000, 14600, 40_000_000_000_000_000)
  {
  }

  // The shares in this example: a half of the faster path's goes to the slower one.
  lemma WrapShares(near: Path, far: Path, ss: seq<Share>)
    requires near.bytes == far.bytes == 14600 && near.window > far.window
    requires near.rttSquared == 10_000_000_000_000_000 && far.rttSquared == 40_000_000_000_000_000
    requires var best := BestOf([near, far]);
             Divided(Places([near, far], Reference(near.window, best.0, best.1)), ss)
    ensures ss == [Share(-1, 2), Share(1, 2)]
  {
    hide AtLeast, BestOf, Places;
    WrapExample(near, far);
    var places := [Largest, BestOnly];
    assert places[..1] == [Largest] && [Largest][..0] == [];
    assert Count([Largest], Largest) == 1 && Count([Largest], BestOnly) == 0;
  }

  ghost predicate IsBest(ps: seq<Path>, bytes: nat, rttSquared: int) {
    rttSquared > 0 &&
    forall q :: q in ps ==> q.rttSquared > 0 && Quality(bytes, rttSquared) >= Quality(q.bytes, q.rttSquared)
  }

  lemma BestStep(ps: seq<Path>, i: nat, best: Path)
    requires Measured(ps) && i < |ps| && best in ps && IsBest(ps[..i], best.bytes, best.rttSquared)
    ensures AtLeast(ps[i].bytes, ps[i].rttSquared, best.bytes, best.rttSquared) ==>
            IsBest(ps[..i + 1], ps[i].bytes, ps[i].rttSquared)
    ensures !AtLeast(ps[i].bytes, ps[i].rttSquared, best.bytes, best.rttSquared) ==>
            IsBest(ps[..i + 1], best.bytes, best.rttSquared)
  {
    assert ps[i] in ps;
    ComparesRatios(ps, ps[i], best);
    hide AtLeast, Quality;
    assert ps[..i + 1] == ps[..i] + [ps[i]];
  }

  lemma FirstIsBest(ps: seq<Path>)
    requires Measured(ps) && ps != []
    ensures IsBest(ps[..1], ps[0].bytes, ps[0].rttSquared)
  {
    assert ps[..1] == [ps[0]] && ps[0] in ps;
  }

  // A path with the most bytes between losses for its squared round trip time. The first one is always better than
  // none.
  method BestPath(ps: seq<Path>) returns (bytes: nat, rttSquared: int)
    ensures (bytes, rttSquared) == BestOf(ps)
    ensures ps != [] ==> exists p :: p in ps && p.bytes == bytes && p.rttSquared == rttSquared
    ensures ps != [] && Measured(ps) ==> IsBest(ps, bytes, rttSquared)
  {
    bytes, rttSquared := 0, 0;
    if ps != [] && Measured(ps) { FirstIsBest(ps); }
    ghost var best := if ps == [] then Path(0, 0, 0) else ps[0];
    for i := 0 to |ps|
      invariant (bytes, rttSquared) == BestOf(ps[..i])
      invariant i > 0 ==> best in ps && best.bytes == bytes && best.rttSquared == rttSquared
      invariant i > 0 && Measured(ps) ==> IsBest(ps[..i], bytes, rttSquared)
    {
      hide Measured, IsBest;
      assert ps[..i + 1][..i] == ps[..i];
      if i == 0 { BetterThanNone(ps[0].bytes, ps[0].rttSquared); }
      hide AtLeast;
      if i > 0 && Measured(ps) { BestStep(ps, i, best); }
      if AtLeast(ps[i].bytes, ps[i].rttSquared, bytes, rttSquared) {
        bytes, rttSquared := ps[i].bytes, ps[i].rttSquared;
        best := ps[i];
      }
    }
    assert ps[..|ps|] == ps;
  }

  lemma BetterThanNone(bytes: nat, rttSquared: int)
    ensures AtLeast(bytes, rttSquared, 0, 0)
  {
  }

  // where path i stands, told from the windows and ratios of all paths
  ghost function Standing(ps: seq<Path>, i: nat): (place: Place)
    requires Measured(ps) && i < |ps|
  {
    if forall q :: q in ps ==> q.window <= ps[i].window then Largest
    else if IsBest(ps, ps[i].bytes, ps[i].rttSquared) then BestOnly
    else Neither
  }

  ghost function Standings(ps: seq<Path>): (places: seq<Place>)
    requires Measured(ps)
    ensures |places| == |ps| && forall i :: 0 <= i < |ps| ==> places[i] == Standing(ps, i)
  {
    seq(|ps|, i requires 0 <= i < |ps| => Standing(ps, i))
  }

  lemma PlaceIsStanding(ps: seq<Path>, r: Reference, best: Path, i: nat)
    requires Measured(ps) && i < |ps| && IsLargest(ps, r.window) && IsBest(ps, r.bytes, r.rttSquared)
    requires best in ps && best.bytes == r.bytes && best.rttSquared == r.rttSquared
    ensures PlaceOf(ps[i], r) == Standing(ps, i)
  {
    var p := ps[i];
    assert p in ps;
    ComparesRatios(ps, p, best);
    hide AtLeast, Quality, Measured;
    assert p.window == r.window <==> forall q :: q in ps ==> q.window <= p.window by {
      var w :| w in ps && w.window == r.window;
    }
    assert AtLeast(p.bytes, p.rttSquared, r.bytes, r.rttSquared) <==> IsBest(ps, p.bytes, p.rttSquared);
  }

  // The two sets are those of the largest windows and of the best ratios.
  lemma PlacesAreStandings(ps: seq<Path>, r: Reference)
    requires ps != [] && Measured(ps) && IsLargest(ps, r.window) && IsBest(ps, r.bytes, r.rttSquared)
    requires exists p :: p in ps && p.bytes == r.bytes && p.rttSquared == r.rttSquared
    ensures Places(ps, r) == Standings(ps)
  {
    hide PlaceOf, Standing, Measured, IsBest, IsLargest;
    var best :| best in ps && best.bytes == r.bytes && best.rttSquared == r.rttSquared;
    forall i | 0 <= i < |ps| ensures PlaceOf(ps[i], r) == Standing(ps, i) { PlaceIsStanding(ps, r, best, i); }
  }

  lemma CountStep(ps: seq<Place>, i: nat, p: Place)
    requires i < |ps|
    ensures Count(ps[..i + 1], p) == Count(ps[..i], p) + if ps[i] == p then 1 else 0
  {
    assert ps[..i + 1][..i] == ps[..i];
  }

  function Byte(n: nat): (r: nat)
    ensures r < 256 && (n < 256 ==> r == n)
  {
    n % 256
  }

  lemma ByteStep(n: nat)
    ensures Byte(Byte(n) + 1) == Byte(n + 1)
  {
  }

  // The sizes of the two sets, counted in a byte.
  method CountPlaces(ps: seq<Path>, r: Reference) returns (m: nat, b: nat)
    ensures m == Byte(Count(Places(ps, r), Largest)) && b == Byte(Count(Places(ps, r), BestOnly))
  {
    hide Count, AtLeast, Byte;
    ghost var places := Places(ps, r);
    NoneCounted(places);
    m, b := 0, 0;
    var i := 0;
    while i < |ps|
      invariant i <= |ps| && m == Byte(Count(places[..i], Largest)) && b == Byte(Count(places[..i], BestOnly))
    {
      CountStep(places, i, Largest);
      CountStep(places, i, BestOnly);
      ByteStep(Count(places[..i], Largest));
      ByteStep(Count(places[..i], BestOnly));
      if ps[i].window == r.window {
        m := Byte(m + 1);
      } else if AtLeast(ps[i].bytes, ps[i].rttSquared, r.bytes, r.rttSquared) {
        b := Byte(b + 1);
      }
      i := i + 1;
    }
    assert places[..i] == places;
  }

  lemma NoneCounted(places: seq<Place>)
    ensures Count(places[..0], Largest) == 0 && Count(places[..0], BestOnly) == 0
  {
  }

  lemma {:induction false} CountsAddUp(ps: seq<Place>)
    ensures Count(ps, Largest) + Count(ps, BestOnly) <= |ps|
  {
    if ps != [] { CountsAddUp(ps[..|ps| - 1]); }
  }

  lemma {:induction false} Counted(ps: seq<Place>, i: nat)
    requires i < |ps|
    ensures Count(ps, ps[i]) > 0
  {
    if i < |ps| - 1 {
      assert ps[..|ps| - 1][i] == ps[i];
      Counted(ps[..|ps| - 1], i);
    }
  }

  // A byte is enough for the sizes of the sets, where they are used.
  lemma ByteIsEnough(ps: seq<Path>, r: Reference)
    requires |ps| <= 256 && IsLargest(ps, r.window)
    ensures ps != [] ==> Count(Places(ps, r), Largest) > 0
    ensures Byte(Count(Places(ps, r), BestOnly)) == Count(Places(ps, r), BestOnly)
    ensures Count(Places(ps, r), BestOnly) > 0 ==> Byte(Count(Places(ps, r), Largest)) == Count(Places(ps, r), Largest)
  {
    var places := Places(ps, r);
    CountsAddUp(places);
    if ps != [] {
      var p :| p in ps && p.window == r.window;
      var i :| 0 <= i < |ps| && ps[i] == p;
      Counted(places, i);
    }
  }

  // ----- a path's sender

  // the part of a packet by which the window grows or shrinks, times the scale
  function Increment(share: Share, window: nat, rate: nat, windowScaled: nat): (inc: int) {
    var d := U64(share.den * window * rate);
    var den := if d == 0 then 1 else d;
    var square := U64(share.den * windowScaled * windowScaled);
    if share.num == -1 then
      if square < rate then -S64(U64((rate - square) * STEP) / den) else S64(U64((square - rate) * STEP) / den)
    else S64(U64(U64(share.num * rate + square) * STEP) / den)
  }

  // the quotient of two numbers for which 64 bits are enough
  lemma ScaledQuotient(t: nat, d: nat)
    requires 0 < d < TWO_64 && t < 0x20_0000_0000_0000
    ensures U64(d) == d && U64(t) == t && S64(U64(t * STEP) / d) == t * STEP / d
  {
    SmallStays(d);
    SmallStays(t);
    SmallStays(t * STEP);
    Quotient(t * STEP, d);
    SignedIsSame(t * STEP / d);
  }

  lemma IncrementUp(share: Share, window: nat, rate: nat, windowScaled: nat, d: nat, square: nat, t: nat)
    requires share.num >= 0 && d == share.den * window * rate && square == share.den * windowScaled * windowScaled
    requires 0 < d < TWO_64 && square <= t == share.num * rate + square < 0x20_0000_0000_0000
    ensures Increment(share, window, rate, windowScaled) == t * STEP / d
  {
    hide U64, S64;
    ScaledQuotient(t, d);
    SmallStays(square);
  }

  lemma IncrementDown(share: Share, window: nat, rate: nat, windowScaled: nat, d: nat, square: nat)
    requires share.num == -1 && d == share.den * window * rate && square == share.den * windowScaled * windowScaled
    requires 0 < d < TWO_64 && rate + square < 0x20_0000_0000_0000
    ensures Increment(share, window, rate, windowScaled) ==
            if square < rate then -((rate - square) * STEP / d) else (square - rate) * STEP / d
  {
    hide U64, S64;
    ScaledQuotient(if square < rate then rate - square else square - rate, d);
    SmallStays(square);
  }

  // The increment is the fraction (num * rate + den * scaled * scaled) / (den * window * rate) of the scale, rounded
  // towards zero, as long as 64 bits are enough.
  lemma IncrementIsExact(share: Share, window: nat, rate: nat, windowScaled: nat)
    requires share.num >= -1 && share.den > 0 && window > 0 && rate > 0
    requires
      var square := share.den * windowScaled * windowScaled;
      rate + square < 0x20_0000_0000_0000 && share.num * rate + square < 0x20_0000_0000_0000
    requires share.den * window * rate < TWO_64
    ensures
      var inc, all, t := Increment(share, window, rate, windowScaled), share.den * window * rate,
        share.num * rate + share.den * windowScaled * windowScaled;
      if t >= 0 then inc >= 0 && all * inc <= t * STEP < all * (inc + 1)
      else inc <= 0 && all * (-inc) <= (-t) * STEP < all * (-inc + 1)
  {
    var d, square := share.den * window * rate, share.den * windowScaled * windowScaled;
    var t := share.num * rate + square;
    Product(share.den, window, rate);
    if share.num == -1 {
      assert share.num * rate == 0 - rate;
      IncrementDown(share, window, rate, windowScaled, d, square);
    } else {
      assert share.num * rate >= 0;
      IncrementUp(share, window, rate, windowScaled, d, square, t);
    }
    hide Increment;
    Quotient(if t >= 0 then t * STEP else (-t) * STEP, d);
  }

  lemma Product(a: nat, b: nat, c: nat)
    requires a > 0 && b > 0 && c > 0
    ensures a * b * c > 0
  {
    assert a * b > 0;
  }

  lemma SmallStays(x: nat)
    requires x < TWO_64
    ensures U64(x) == x
  {
  }

  lemma SignedIsSame(x: nat)
    requires x < 0x8000_0000_0000_0000
    ensures S64(x) == x
  {
  }

  // a whole packet more or less
  function Stepped(window: nat, total: int): (w: nat) {
    if total >= STEP - 1 then window + 1
    else if total <= -STEP + 1 then (if window > 1 then window - 1 else 1)
    else window
  }

  // the window and the counter after an acknowledgement
  function Coupled(window: nat, count: int, share: Share, rate: nat, max: nat): (r: (nat, int)) {
    var total := S64(count + Increment(share, window, rate, U64(window * STEP)));
    (Min(Stepped(window, total), max), if -STEP + 1 < total < STEP - 1 then total else 0)
  }

  lemma CoupledIs(window: nat, count: int, share: Share, rate: nat, max: nat)
    ensures
      var total := S64(count + Increment(share, window, rate, U64(window * STEP)));
      Coupled(window, count, share, rate, max) ==
      (Min(Stepped(window, total), max), if -STEP + 1 < total < STEP - 1 then total else 0)
  {
  }

  class OliaSender {
    const initialWindow: nat
    const initialMaxWindow: nat
    var congestionWindow: nat
    var slowstartThreshold: nat
    var maxWindow: nat
    var largestSent: nat
    var largestAcked: nat
    var largestSentAtLastCutback: nat
    var lastCutbackExitedSlowstart: bool
    var slowStartLargeReduction: bool
    var slowstartPacketsLost: nat
    var slowstartBytesLost: nat
    var numConnections: nat
    var smoothedRtt: nat // in nanoseconds

    var loss1: nat
    var loss2: nat
    var loss3: nat
    var epsilonNum: int
    var epsilonDen: nat
    var sndCwndCnt: int

    ghost predicate Valid()
      reads `congestionWindow, `maxWindow, `numConnections, `loss1, `loss2, `loss3, `sndCwndCnt
    {
      1 <= congestionWindow <= maxWindow && maxWindow == initialMaxWindow && MIN_WINDOW <= maxWindow &&
      1 <= initialWindow <= initialMaxWindow && numConnections > 0 && loss1 <= loss2 <= loss3 &&
      -STEP + 1 < sndCwndCnt < STEP - 1
    }

    constructor (initial: nat, max: nat, connections: nat)
      requires 1 <= initial <= max && MIN_WINDOW <= max && connections > 0
      ensures Valid() && congestionWindow == initial && maxWindow == max && slowstartThreshold == max
    {
      initialWindow, initialMaxWindow := initial, max;
      congestionWindow, slowstartThreshold, maxWindow := initial, max, max;
      largestSent, largestAcked, largestSentAtLastCutback := 0, 0, 0;
      lastCutbackExitedSlowstart, slowStartLargeReduction := false, false;
      slowstartPacketsLost, slowstartBytesLost, numConnections, smoothedRtt := 0, 0, connections, 0;
      loss1, loss2, loss3, epsilonNum, epsilonDen, sndCwndCnt := 0, 0, 0, 0, 1, 0;
    }

    function View(): (p: Path)
      reads `congestionWindow, `loss1, `loss2, `loss3, `smoothedRtt
    {
      Path(congestionWindow, Smoothed(loss1, loss2, loss3), S64(smoothedRtt * smoothedRtt))
    }

    predicate InRecovery()
      reads this
    {
      largestAcked <= largestSentAtLastCutback && largestAcked != 0
    }

    predicate InSlowStart()
      reads `congestionWindow, `slowstartThreshold
    {
      congestionWindow * TCP_MSS < slowstartThreshold * TCP_MSS
    }

    predicate IsCwndLimited(bytesInFlight: nat)
      reads `congestionWindow, `slowstartThreshold
    {
      var window := congestionWindow * TCP_MSS;
      bytesInFlight >= window || (InSlowStart() && bytesInFlight > window / 2) || window - bytesInFlight <= MAX_BURST
    }

    // The counter gathers fractions of a packet; the window changes by one packet when they add up to one.
    method CongestionWindowAfterAck(rate: nat, windowScaled: nat) returns (window: nat)
      requires Valid()
      modifies `sndCwndCnt
      ensures Valid() && 1 <= window && congestionWindow - 1 <= window <= congestionWindow + 1
      ensures
        var inc := Increment(Share(epsilonNum, epsilonDen), congestionWindow, rate, windowScaled);
        var total := S64(old(sndCwndCnt) + inc);
        window == Stepped(congestionWindow, total) &&
        (sndCwndCnt == if -STEP + 1 < total < STEP - 1 then total else 0) &&
        (window > congestionWindow <==> total >= 1023) &&
        (window < congestionWindow <==> total <= -1023 && congestionWindow > 1)
    {
      hide U64, S64;
      window := congestionWindow;
      var incDen := U64(epsilonDen * congestionWindow * rate);
      if incDen == 0 { incDen := 1; }
      var square := U64(epsilonDen * windowScaled * windowScaled);
      if epsilonNum == -1 {
        if square < rate {
          sndCwndCnt := S64(sndCwndCnt - S64(U64((rate - square) * STEP) / incDen));
        } else {
          sndCwndCnt := S64(sndCwndCnt + S64(U64((square - rate) * STEP) / incDen));
        }
      } else {
        sndCwndCnt := S64(sndCwndCnt + S64(U64(U64(epsilonNum * rate + square) * STEP) / incDen));
      }
      if sndCwndCnt >= STEP - 1 {
        window, sndCwndCnt := window + 1, 0;
      } else if sndCwndCnt <= -STEP + 1 {
        window, sndCwndCnt := if congestionWindow > 1 then congestionWindow - 1 else 1, 0;
      }
    }

    // The window counts as used if no more than a burst is left of it, or in slow start less than a half.
    lemma LimitedIsExact(bytesInFlight: nat)
      ensures IsCwndLimited(bytesInFlight) <==>
              bytesInFlight + 4380 >= congestionWindow * 1460 ||
              (congestionWindow < slowstartThreshold && 2 * bytesInFlight > congestionWindow * 1460)
      ensures InSlowStart() <==> congestionWindow < slowstartThreshold
    {
      var half := congestionWindow * 730;
      assert congestionWindow * TCP_MSS == 2 * half;
    }

    // After an acknowledgement, outside of recovery, the window changes by at most one packet.
    method MaybeIncreaseCwnd(bytesInFlight: nat, senders: seq<OliaSender>)
      requires Valid() && Distinct(senders) && |senders| <= 256
      modifies `congestionWindow, `sndCwndCnt, senders`epsilonNum, senders`epsilonDen
      ensures Valid() && old(congestionWindow) - 1 <= congestionWindow <= old(congestionWindow) + 1
      ensures old(IsCwndLimited(bytesInFlight)) <==>
              bytesInFlight + 4380 >= old(congestionWindow) * 1460 ||
              (old(congestionWindow < slowstartThreshold) && 2 * bytesInFlight > old(congestionWindow) * 1460)
      ensures old(InSlowStart()) <==> old(congestionWindow < slowstartThreshold)
      ensures !old(IsCwndLimited(bytesInFlight)) || old(congestionWindow) >= maxWindow ==> unchanged(this)
      ensures old(IsCwndLimited(bytesInFlight) && congestionWindow < maxWindow && InSlowStart()) ==>
              congestionWindow == old(congestionWindow) + 1
      ensures old(IsCwndLimited(bytesInFlight) && congestionWindow < maxWindow && !InSlowStart()) ==>
              Balanced(senders) && SharedOut(senders, old(Windows(senders))) &&
              (congestionWindow, sndCwndCnt) ==
                Coupled(old(congestionWindow), old(sndCwndCnt), Share(epsilonNum, epsilonDen),
                  old(Rate(senders, smoothedRtt)), maxWindow)
    {
      LimitedIsExact(bytesInFlight);
      hide IsCwndLimited, InSlowStart;
      if !IsCwndLimited(bytesInFlight) { return; }
      if congestionWindow >= maxWindow { return; }
      if InSlowStart() {
        congestionWindow := congestionWindow + 1;
      } else {
        hide Coupled, Rate, Balanced, SharedOut;
        CoupledIncrease(senders);
      }
    }

    method CoupledIncrease(senders: seq<OliaSender>)
      requires Valid() && Distinct(senders) && |senders| <= 256
      modifies `congestionWindow, `sndCwndCnt, senders`epsilonNum, senders`epsilonDen
      ensures Valid() && old(congestionWindow) - 1 <= congestionWindow <= old(congestionWindow) + 1 && Balanced(senders)
      ensures SharedOut(senders, old(Windows(senders)))
      ensures (congestionWindow, sndCwndCnt) ==
              Coupled(old(congestionWindow), old(sndCwndCnt), Share(epsilonNum, epsilonDen),
                old(Rate(senders, smoothedRtt)), maxWindow)
    {
      hide *;
      GetEpsilon(senders);
      ghost var ps := Views(senders);
      ViewsAre(senders, ps, Windows(senders));
      var rate := GetRate(senders, smoothedRtt);
      ghost var before, count := congestionWindow, sndCwndCnt;
      var window := CongestionWindowAfterAck(rate, U64(congestionWindow * STEP));
      SetWindow(window);
      IsSharedOut(senders, ps, old(Windows(senders)));
      CoupledIs(before, count, Share(epsilonNum, epsilonDen), rate, maxWindow);
    }

    method SetWindow(window: nat)
      requires Valid() && 1 <= window && congestionWindow - 1 <= window <= congestionWindow + 1
      modifies `congestionWindow
      ensures Valid() && congestionWindow == Min(window, maxWindow)
      ensures old(congestionWindow) - 1 <= congestionWindow <= old(congestionWindow) + 1
    {
      congestionWindow := if window > maxWindow then maxWindow else window;
    }

    method OnPacketAcked(number: nat, ackedBytes: nat, bytesInFlight: nat, senders: seq<OliaSender>)
      requires Valid() && Distinct(senders) && |senders| <= 256
      modifies `largestAcked, `loss3, `congestionWindow, `sndCwndCnt, senders`epsilonNum, senders`epsilonDen
      ensures Valid() && old(congestionWindow) - 1 <= congestionWindow <= old(congestionWindow) + 1
      ensures largestAcked == if number > old(largestAcked) then number else old(largestAcked)
      ensures largestAcked <= largestSentAtLastCutback && largestAcked != 0 ==>
              congestionWindow == old(congestionWindow) && loss3 == old(loss3)
      ensures !(largestAcked <= largestSentAtLastCutback && largestAcked != 0) ==> loss3 == old(loss3) + ackedBytes
      ensures !(largestAcked <= largestSentAtLastCutback && largestAcked != 0) &&
              old(InSlowStart() && congestionWindow < maxWindow) ==>
              congestionWindow == old(congestionWindow) + if old(IsCwndLimited(bytesInFlight)) then 1 else 0
      ensures !old(IsCwndLimited(bytesInFlight) && congestionWindow < maxWindow) ==>
              unchanged(`congestionWindow, `sndCwndCnt)
      ensures largestAcked <= largestSentAtLastCutback && largestAcked != 0 ==> sndCwndCnt == old(sndCwndCnt)
      ensures !(largestAcked <= largestSentAtLastCutback && largestAcked != 0) &&
              old(IsCwndLimited(bytesInFlight) && congestionWindow < maxWindow && !InSlowStart()) ==>
              Balanced(senders) && SharedOut(senders, old(Windows(senders))) &&
              (congestionWindow, sndCwndCnt) ==
                Coupled(old(congestionWindow), old(sndCwndCnt), Share(epsilonNum, epsilonDen),
                  old(Rate(senders, smoothedRtt)), maxWindow)
    {
      hide IsCwndLimited, InSlowStart, Coupled, Rate, Balanced, SharedOut;
      if number > largestAcked { largestAcked := number; }
      if InRecovery() { return; }
      loss3 := loss3 + ackedBytes;
      MaybeIncreaseCwnd(bytesInFlight, senders);
    }

    function Beta(): (b: real)
      requires numConnections > 0
      reads `numConnections
      ensures 0.0 < b <= 1.0
    {
      (numConnections as real - 1.0 + RENO_BETA) / numConnections as real
    }

    // A loss cuts the window back, once for all packets that were sent before the last cutback.
    method OnPacketLost(number: nat, lostBytes: nat)
      requires Valid()
      modifies `lastCutbackExitedSlowstart, `slowstartPacketsLost, `slowstartBytesLost, `congestionWindow,
               `slowstartThreshold,
               `largestSentAtLastCutback, `loss1, `loss2
      ensures Valid() && (congestionWindow <= old(congestionWindow) || congestionWindow == MIN_WINDOW)
      ensures number <= old(largestSentAtLastCutback) ==>
              unchanged(`loss1, `loss2, `largestSentAtLastCutback, `lastCutbackExitedSlowstart)
      ensures number <= old(largestSentAtLastCutback) && !(lastCutbackExitedSlowstart && slowStartLargeReduction) ==>
              unchanged(`congestionWindow, `slowstartThreshold)
      ensures number <= old(largestSentAtLastCutback) ==>
              congestionWindow == old(congestionWindow) || congestionWindow == AtLeastMin(old(congestionWindow) - 1)
      ensures number > old(largestSentAtLastCutback) ==>
              loss1 == old(loss2) && loss2 == loss3 && largestSentAtLastCutback == largestSent &&
              lastCutbackExitedSlowstart == old(InSlowStart())
      ensures number > old(largestSentAtLastCutback) ==> congestionWindow == slowstartThreshold == old(CutWindow())
      ensures number > old(largestSentAtLastCutback) &&
              slowStartLargeReduction && old(congestionWindow < slowstartThreshold) ==>
              congestionWindow == Max(2, old(congestionWindow) - 1)
      ensures number > old(largestSentAtLastCutback) &&
              !(slowStartLargeReduction && old(congestionWindow < slowstartThreshold)) ==>
              IsReduced(old(congestionWindow), numConnections, congestionWindow)
      ensures number > old(largestSentAtLastCutback) && old(congestionWindow) > 2 ==>
              congestionWindow < old(congestionWindow)
      ensures number <= old(largestSentAtLastCutback) ==>
              slowstartPacketsLost == old(slowstartPacketsLost) + (if lastCutbackExitedSlowstart then 1 else 0) &&
              slowstartBytesLost == old(slowstartBytesLost) + (if lastCutbackExitedSlowstart then lostBytes else 0)
      ensures number <= old(largestSentAtLastCutback) && lastCutbackExitedSlowstart && slowStartLargeReduction ==>
              congestionWindow == slowstartThreshold ==
              if old(slowstartPacketsLost) == 0 || slowstartBytesLost / 1460 > old(slowstartBytesLost) / 1460
              then Max(2, old(congestionWindow) - 1) else old(congestionWindow)
    {
      CutIsExact();
      hide Beta, CutWindow, IsReduced;
      if number <= largestSentAtLastCutback {
        LateLoss(lostBytes);
        return;
      }
      lastCutbackExitedSlowstart := InSlowStart();
      if InSlowStart() { slowstartPacketsLost := slowstartPacketsLost + 1; }
      loss1, loss2 := loss2, loss3;
      CutBack();
      largestSentAtLastCutback := largestSent;
    }

    // a packet from before the last cutback
    method LateLoss(lostBytes: nat)
      requires Valid()
      modifies `slowstartPacketsLost, `slowstartBytesLost, `congestionWindow, `slowstartThreshold
      ensures Valid() &&
              (congestionWindow == old(congestionWindow) || congestionWindow == AtLeastMin(old(congestionWindow) - 1))
      ensures !(lastCutbackExitedSlowstart && slowStartLargeReduction) ==>
              unchanged(`congestionWindow, `slowstartThreshold)
      ensures slowstartPacketsLost == old(slowstartPacketsLost) + (if lastCutbackExitedSlowstart then 1 else 0) &&
              slowstartBytesLost == old(slowstartBytesLost) + (if lastCutbackExitedSlowstart then lostBytes else 0)
      ensures lastCutbackExitedSlowstart && slowStartLargeReduction ==>
              congestionWindow == slowstartThreshold ==
              if old(slowstartPacketsLost) == 0 || slowstartBytesLost / 1460 > old(slowstartBytesLost) / 1460
              then Max(2, old(congestionWindow) - 1) else old(congestionWindow)
    {
      if lastCutbackExitedSlowstart {
        slowstartPacketsLost, slowstartBytesLost := slowstartPacketsLost + 1, slowstartBytesLost + lostBytes;
        if slowStartLargeReduction {
          if slowstartPacketsLost == 1 || slowstartBytesLost / TCP_MSS > (slowstartBytesLost - lostBytes) / TCP_MSS {
            congestionWindow := if congestionWindow - 1 > MIN_WINDOW then congestionWindow - 1 else MIN_WINDOW;
          }
          slowstartThreshold := congestionWindow;
        }
      }
    }

    // the window after a loss: one packet less, or the fraction that Reno keeps
    function CutWindow(): (w: int)
      requires numConnections > 0
      reads `numConnections, `slowStartLargeReduction, `congestionWindow, `slowstartThreshold
    {
      AtLeastMin(if slowStartLargeReduction && InSlowStart() then congestionWindow - 1
                 else Scaled(congestionWindow, Beta()))
    }

    // What a loss leaves of the window.
    lemma CutIsExact()
      requires Valid()
      ensures slowStartLargeReduction && congestionWindow < slowstartThreshold ==>
              CutWindow() == Max(2, congestionWindow - 1)
      ensures !(slowStartLargeReduction && congestionWindow < slowstartThreshold) ==>
              IsReduced(congestionWindow, numConnections, CutWindow())
      ensures congestionWindow > 2 ==> CutWindow() < congestionWindow
    {
      LimitedIsExact(0);
      hide InSlowStart, Scaled;
      BetaIsExact();
      ReducedIsExact(congestionWindow, numConnections, Beta());
    }

    // With n connections, a loss on one of them takes three tenths of its part.
    lemma BetaIsExact()
      requires numConnections > 0
      ensures Beta() * (10 * numConnections) as real == (10 * numConnections - 3) as real
    {
      var n := numConnections as real;
      assert (10 * numConnections) as real == 10.0 * n && (10 * numConnections - 3) as real == 10.0 * n - 3.0;
      assert Beta() * n == n - 1.0 + 0.7;
    }

    method CutBack()
      requires Valid()
      modifies `congestionWindow, `slowstartThreshold
      ensures Valid() && congestionWindow == slowstartThreshold == old(CutWindow())
      ensures congestionWindow <= old(congestionWindow) || congestionWindow == MIN_WINDOW
    {
      hide Scaled;
      if slowStartLargeReduction && InSlowStart() {
        congestionWindow := congestionWindow - 1;
      } else {
        var beta := Beta();
        hide Beta;
        ScaledDown(congestionWindow, beta);
        congestionWindow := Scaled(congestionWindow, beta);
      }
      if congestionWindow < MIN_WINDOW { congestionWindow := MIN_WINDOW; }
      slowstartThreshold := congestionWindow;
    }

    method OnRetransmissionTimeout(packetsRetransmitted: bool)
      requires Valid()
      modifies `largestSentAtLastCutback, `loss1, `loss2, `loss3, `epsilonNum, `epsilonDen, `sndCwndCnt,
               `slowstartThreshold, `congestionWindow
      ensures Valid() && largestSentAtLastCutback == 0
      ensures packetsRetransmitted ==> congestionWindow == MIN_WINDOW && slowstartThreshold == old(congestionWindow) / 2
      ensures packetsRetransmitted ==>
              loss1 == loss2 == loss3 == 0 && epsilonNum == 0 && epsilonDen == 1 && sndCwndCnt == 0
      ensures !packetsRetransmitted ==>
              unchanged(`congestionWindow, `slowstartThreshold, `loss1, `loss2, `loss3, `epsilonNum, `epsilonDen,
                        `sndCwndCnt)
    {
      largestSentAtLastCutback := 0;
      if !packetsRetransmitted { return; }
      loss1, loss2, loss3, epsilonNum, epsilonDen, sndCwndCnt := 0, 0, 0, 0, 1, 0;
      slowstartThreshold := congestionWindow / 2;
      congestionWindow := MIN_WINDOW;
    }
  }

  // The window after a loss: with n connections, (10 * n - 3) tenths of the nth part, rounded down, and at least 2.
  ghost predicate IsReduced(window: nat, n: nat, reduced: int) {
    exists w: int :: reduced == Max(2, w) && 10 * n * w <= (10 * n - 3) * window < 10 * n * (w + 1)
  }

  lemma ReducedIsExact(window: nat, n: nat, beta: real)
    requires n > 0 && beta * (10 * n) as real == (10 * n - 3) as real
    ensures IsReduced(window, n, AtLeastMin(Scaled(window, beta)))
    ensures window > 2 ==> AtLeastMin(Scaled(window, beta)) < window
  {
    var w := Scaled(window, beta);
    var x := window as real * beta;
    Floored(x, 10 * n, (10 * n - 3) * window) by {
      assert x * (10 * n) as real == window as real * (beta * (10 * n) as real);
      assert ((10 * n - 3) * window) as real == (10 * n - 3) as real * window as real;
    }
    assert 10 * n * w <= (10 * n - 3) * window < 10 * n * (w + 1);
    assert AtLeastMin(w) == Max(2, w);
    if window > 2 { Below(10 * n, w, window); }
  }

  function AtLeastMin(w: int): (r: int) {
    if w < MIN_WINDOW then MIN_WINDOW else w
  }

  function Scaled(n: nat, b: real): (r: int) {
    (n as real * b).Floor
  }

  lemma ScaledDown(n: nat, b: real)
    requires 0.0 < b <= 1.0
    ensures 0 <= Scaled(n, b) <= n
  {
    assert 0.0 <= n as real * b <= n as real * 1.0;
  }

  ghost predicate Distinct(senders: seq<OliaSender>) {
    forall i, j :: 0 <= i < j < |senders| ==> senders[i] != senders[j]
  }

  ghost function SharesIn(senders: seq<OliaSender>): (ss: seq<Share>)
    reads senders`epsilonNum, senders`epsilonDen
    ensures |ss| == |senders| &&
            forall i :: 0 <= i < |ss| ==> ss[i] == Share(senders[i].epsilonNum, senders[i].epsilonDen)
  {
    if senders == [] then []
    else
      var last := senders[|senders| - 1];
      SharesIn(senders[..|senders| - 1]) + [Share(last.epsilonNum, last.epsilonDen)]
  }

  function Views(senders: seq<OliaSender>): (ps: seq<Path>)
    reads senders
    ensures |ps| == |senders| && forall i :: 0 <= i < |ps| ==> ps[i] == senders[i].View()
  {
    seq(|senders|, i requires 0 <= i < |senders| reads senders => senders[i].View())
  }

  function Windows(senders: seq<OliaSender>): (ws: seq<nat>)
    reads senders`congestionWindow
    ensures |ws| == |senders| && forall i :: 0 <= i < |ws| ==> ws[i] == senders[i].congestionWindow
  {
    if senders == [] then []
    else Windows(senders[..|senders| - 1]) + [senders[|senders| - 1].congestionWindow]
  }

  // the shares are those for these windows, the bytes between losses and the round trip times
  ghost predicate SharedOut(senders: seq<OliaSender>, windows: seq<nat>)
    reads senders
  {
    |windows| == |senders| &&
    exists ps: seq<Path> :: ChosenBy(ps, SharesIn(senders)) && |ps| == |senders| &&
      forall i :: 0 <= i < |ps| ==> ps[i] == senders[i].View().(window := windows[i])
  }

  // what the paths look like with these windows
  ghost predicate AreViews(senders: seq<OliaSender>, ps: seq<Path>, windows: seq<nat>)
    reads senders`loss1, senders`loss2, senders`loss3, senders`smoothedRtt
  {
    |ps| == |windows| == |senders| && forall i :: 0 <= i < |ps| ==>
      ps[i] == Path(windows[i], Smoothed(senders[i].loss1, senders[i].loss2, senders[i].loss3),
                    S64(senders[i].smoothedRtt * senders[i].smoothedRtt))
  }

  lemma ViewsAre(senders: seq<OliaSender>, ps: seq<Path>, windows: seq<nat>)
    requires ps == Views(senders) && windows == Windows(senders)
    ensures AreViews(senders, ps, windows)
  {
  }

  lemma IsSharedOut(senders: seq<OliaSender>, ps: seq<Path>, windows: seq<nat>)
    requires AreViews(senders, ps, windows) && ChosenBy(ps, SharesIn(senders))
    ensures SharedOut(senders, windows)
  {
    hide ChosenBy, Smoothed, S64;
  }

  ghost predicate Positive(ss: seq<Share>) {
    forall i :: 0 <= i < |ss| ==> ss[i].den > 0
  }

  // What some paths gain, others give up.
  ghost predicate Balanced(senders: seq<OliaSender>)
    reads senders`epsilonNum, senders`epsilonDen
  {
    Positive(SharesIn(senders)) && Total(SharesIn(senders)) == 0.0
  }

  method Choose(p: Path, r: Reference, n: nat, b: nat, m: nat) returns (s: Share)
    requires p.window <= r.window
    ensures s == ShareOf(PlaceOf(p, r), n, b, m)
  {
    hide AtLeast;
    if b == 0 { return Share(0, 1); }
    if p.window < r.window && AtLeast(p.bytes, p.rttSquared, r.bytes, r.rttSquared) { return Share(1, n * b); }
    if p.window == r.window { return Share(-1, n * m); }
    return Share(0, 1);
  }

  method Assign(senders: seq<OliaSender>, ps: seq<Path>, r: Reference, b: nat, m: nat)
    requires Distinct(senders) && |ps| == |senders| && IsLargest(ps, r.window)
    modifies senders`epsilonNum, senders`epsilonDen
    ensures forall i :: 0 <= i < |senders| ==>
      Share(senders[i].epsilonNum, senders[i].epsilonDen) == ShareOf(PlaceOf(ps[i], r), |senders|, b, m)
  {
    hide AtLeast, ShareOf, PlaceOf;
    var i := 0;
    while i < |senders|
      invariant i <= |senders|
      invariant forall j :: 0 <= j < i ==>
        Share(senders[j].epsilonNum, senders[j].epsilonDen) == ShareOf(PlaceOf(ps[j], r), |senders|, b, m)
    {
      assert ps[i] in ps;
      var share := Choose(ps[i], r, |senders|, b, m);
      senders[i].epsilonNum, senders[i].epsilonDen := share.num, share.den;
      i := i + 1;
    }
  }

  // the shares are divided by the largest window and the path that the loop takes for the best; while products fit
  // into 64 bits, by the windows and the ratios of the paths
  ghost predicate ChosenBy(ps: seq<Path>, ss: seq<Share>) {
    (exists window :: IsLargest(ps, window) &&
       var best := BestOf(ps); Divided(Places(ps, Reference(window, best.0, best.1)), ss)) &&
    (Measured(ps) ==> Divided(Standings(ps), ss))
  }

  // The shares of the paths: those with the largest window give to those that do best without it. The best ones are
  // the ones of the highest ratio, as long as the products fit into 64 bits.
  method GetEpsilon(senders: seq<OliaSender>)
    requires Distinct(senders) && |senders| <= 256
    modifies senders`epsilonNum, senders`epsilonDen
    ensures Balanced(senders) && ChosenBy(Views(senders), SharesIn(senders)) && Views(senders) == old(Views(senders))
  {
    hide *;
    var ps := Views(senders);
    var window := MaxWindow(ps);
    var bytes, rttSquared := BestPath(ps);
    var r := Reference(window, bytes, rttSquared);
    if Measured(ps) {
      if ps == [] { NoPlaces(r); } else { PlacesAreStandings(ps, r); }
    }
    var m, b := CountPlaces(ps, r);
    ByteIsEnough(ps, r);
    Assign(senders, ps, r, b, m);
    assert Views(senders) == ps;
    PlacesAt(ps, r);
    DividedIn(Places(ps, r), SharesIn(senders), b, m);
    SharesCancel(Places(ps, r), SharesIn(senders));
    IsBalanced(senders, Places(ps, r));
    IsChosen(ps, SharesIn(senders), window);
  }

  lemma IsChosen(ps: seq<Path>, ss: seq<Share>, window: nat)
    requires IsLargest(ps, window) && Divided(Places(ps, Reference(window, BestOf(ps).0, BestOf(ps).1)), ss)
    requires Measured(ps) ==> Divided(Standings(ps), ss)
    ensures ChosenBy(ps, ss)
  {
    hide IsLargest, Divided, Places, Standings, BestOf, Measured;
  }

  lemma NoPlaces(r: Reference)
    ensures Measured([]) && Places([], r) == Standings([])
  {
  }

  lemma PlacesAt(ps: seq<Path>, r: Reference)
    ensures |Places(ps, r)| == |ps| && forall i :: 0 <= i < |ps| ==> Places(ps, r)[i] == PlaceOf(ps[i], r)
  {
  }

  lemma IsBalanced(senders: seq<OliaSender>, places: seq<Place>)
    requires Divided(places, SharesIn(senders)) && Total(SharesIn(senders)) == 0.0
    ensures Balanced(senders)
  {
  }

  lemma DenominatorIsPositive(p: Place, n: nat, b: nat, m: nat)
    requires n > 0 && (b > 0 ==> m > 0)
    ensures ShareOf(p, n, b, m).den > 0
  {
    if b > 0 {
      assert n * b > 0 && n * m > 0;
    }
  }

  lemma DividedIn(places: seq<Place>, ss: seq<Share>, b: nat, m: nat)
    requires |ss| == |places| && forall i :: 0 <= i < |ss| ==> ss[i] == ShareOf(places[i], |places|, b, m)
    requires b == Count(places, BestOnly) && (b > 0 ==> m == Count(places, Largest) > 0)
    ensures Divided(places, ss)
  {
    forall i | 0 <= i < |ss|
      ensures ss[i] == ShareOf(places[i], |places|, b, Count(places, Largest)) && ss[i].den > 0
    {
      NoSharesAtAll(places[i], |places|, b, m, Count(places, Largest));
      DenominatorIsPositive(places[i], |places|, b, m);
    }
  }

  lemma NoSharesAtAll(p: Place, n: nat, b: nat, m: nat, k: nat)
    requires b > 0 ==> m == k
    ensures ShareOf(p, n, b, m) == ShareOf(p, n, b, k)
  {
  }

  // the sum of the rates of the paths, squared, and never zero before wrapping around
  function RateSum(ps: seq<(nat, nat)>, pathRtt: nat): (rate: nat) {
    if ps == [] then 1
    else
      var (window, rtt) := ps[|ps| - 1];
      var rest := RateSum(ps[..|ps| - 1], pathRtt);
      if rtt == 0 then rest else U64(rest + U64(U64(window * STEP) * pathRtt) / rtt)
  }

  // The rate is a sum over the paths, so that their order does not matter.
  lemma {:induction false} RateConcat(ps: seq<(nat, nat)>, qs: seq<(nat, nat)>, pathRtt: nat)
    ensures RateSum(ps + qs, pathRtt) == U64(RateSum(ps, pathRtt) + RateSum(qs, pathRtt) - 1)
  {
    if qs == [] {
      assert ps + qs == ps;
      RateIsSmall(ps, pathRtt);
    } else {
      var front, last := qs[..|qs| - 1], qs[|qs| - 1];
      assert (ps + qs)[..|ps + qs| - 1] == ps + front && (ps + qs)[|ps + qs| - 1] == last;
      hide *;
      RateConcat(ps, front, pathRtt);
      RateMore(ps + qs, pathRtt);
      RateMore(qs, pathRtt);
      WrapSum(RateSum(ps, pathRtt), RateSum(front, pathRtt), RateBy(last, pathRtt));
    }
  }

  function RateBy(p: (nat, nat), pathRtt: nat): (more: nat) {
    if p.1 == 0 then 0 else U64(U64(p.0 * STEP) * pathRtt) / p.1
  }

  lemma RateMore(ps: seq<(nat, nat)>, pathRtt: nat)
    requires ps != []
    ensures RateSum(ps, pathRtt) == U64(RateSum(ps[..|ps| - 1], pathRtt) + RateBy(ps[|ps| - 1], pathRtt))
  {
    RateIsSmall(ps[..|ps| - 1], pathRtt);
  }

  lemma {:induction false} RateIsSmall(ps: seq<(nat, nat)>, pathRtt: nat)
    ensures RateSum(ps, pathRtt) < TWO_64
  {
    if ps != [] { RateIsSmall(ps[..|ps| - 1], pathRtt); }
  }

  lemma WrapTwice(x: int, y: int)
    ensures U64(U64(x) + y) == U64(x + y)
  {
  }

  lemma WrapSum(a: int, b: int, more: int)
    ensures U64(U64(a + b - 1) + more) == U64(a + U64(b + more) - 1)
  {
    hide U64;
    WrapTwice(a + b - 1, more);
    WrapTwice(b + more, a - 1);
    assert a + b - 1 + more == b + more + (a - 1) && U64(b + more) + (a - 1) == a + U64(b + more) - 1;
  }

  // What one path adds: its window, scaled, times the ratio of the round trip times, rounded down.
  lemma RateOfOne(window: nat, scaled: nat, rtt: nat, pathRtt: nat)
    requires rtt > 0 && scaled == window * STEP < TWO_64 && scaled * pathRtt < TWO_64 - 1
    ensures
      var more := RateSum([(window, rtt)], pathRtt) - 1;
      rtt * more <= scaled * pathRtt < rtt * (more + 1)
  {
    SmallStays(scaled);
    SmallStays(scaled * pathRtt);
    Quotient(scaled * pathRtt, rtt);
    SmallStays(1 + scaled * pathRtt / rtt);
    assert [(window, rtt)][..0] == [];
    assert RateSum([], pathRtt) == 1;
    hide U64;
    assert RateSum([(window, rtt)], pathRtt) == U64(1 + U64(U64(window * STEP) * pathRtt) / rtt);
  }

  lemma RateAlone(window: nat, rtt: nat)
    requires 0 < window < 0x1000 && 0 < rtt < 0x200_0000_0000
    ensures RateSum([(window, rtt)], rtt) == window * STEP + 1
  {
    var scaled := window * STEP;
    Bounded(scaled, 0x40_0000, rtt, 0x200_0000_0000);
    RateOfOne(window, scaled, rtt, rtt);
    hide RateSum;
    Exactly(rtt, RateSum([(window, rtt)], rtt) - 1, scaled);
  }

  // A path that is alone grows no faster than a packet for each window that is acknowledged.
  lemma AloneIsReno(window: nat, rtt: nat)
    requires 0 < window < 0x1000 && 0 < rtt < 0x200_0000_0000
    ensures
      var sum := RateSum([(window, rtt)], rtt);
      var inc := Increment(Share(0, 1), window, U64(sum * sum), window * STEP);
      0 <= inc && inc * window <= STEP
  {
    RateAlone(window, rtt);
    hide RateSum, Increment;
    var scaled, sum := window * STEP, window * STEP + 1;
    var rate := sum * sum;
    Bounded(sum, 0x40_0001, sum, 0x40_0001);
    SmallStays(rate);
    Bounded(window, 0x1000, rate, 0x40_0001 * 0x40_0001);
    assert rate == scaled * scaled + 2 * scaled + 1;
    IncrementOfNone(window, rate, scaled, scaled * scaled);
  }

  lemma IncrementOfNone(window: nat, rate: nat, scaled: nat, square: nat)
    requires window > 0 && square == scaled * scaled < rate && rate < 0x10_0000_0000_0000 && window * rate < TWO_64
    ensures var inc := Increment(Share(0, 1), window, rate, scaled); 0 <= inc && inc * window <= STEP
  {
    hide Increment;
    Product(1, window, rate);
    assert 1 * scaled * scaled == square && 1 * window * rate == window * rate && 0 * rate == 0;
    IncrementIsExact(Share(0, 1), window, rate, scaled);
    NoMore(window, rate, Increment(Share(0, 1), window, rate, scaled), square);
  }

  ghost function WindowsAndRtts(senders: seq<OliaSender>): (ps: seq<(nat, nat)>)
    reads senders`congestionWindow, senders`smoothedRtt
    ensures |ps| == |senders| &&
            forall i :: 0 <= i < |ps| ==> ps[i] == (senders[i].congestionWindow, senders[i].smoothedRtt)
  {
    if senders == [] then []
    else
      var last := senders[|senders| - 1];
      WindowsAndRtts(senders[..|senders| - 1]) + [(last.congestionWindow, last.smoothedRtt)]
  }

  ghost function Rate(senders: seq<OliaSender>, pathRtt: nat): (rate: nat)
    reads senders`congestionWindow, senders`smoothedRtt
  {
    var sum := RateSum(WindowsAndRtts(senders), pathRtt);
    U64(sum * sum)
  }

  method GetRate(senders: seq<OliaSender>, pathRtt: nat) returns (rate: nat)
    ensures rate == Rate(senders, pathRtt)
  {
    rate := 1;
    ghost var ps := WindowsAndRtts(senders);
    var i := 0;
    while i < |senders|
      invariant i <= |senders| && rate == RateSum(ps[..i], pathRtt)
    {
      var s := senders[i];
      assert ps[..i + 1][..i] == ps[..i];
      var scaled := U64(U64(s.congestionWindow * STEP) * pathRtt);
      if s.smoothedRtt != 0 { rate := U64(rate + scaled / s.smoothedRtt); }
      i := i + 1;
    }
    assert ps[..i] == ps;
    rate := U64(rate * rate);
  }
}
