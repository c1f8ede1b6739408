/**
  The multipath volume allocator: how many bits of one stream each path carries.

  A path is seen as a link with a one-way delay and a bandwidth share. A link that carries
  volume v > 0 finishes at owd + v / bdw. The allocator levels finishing times link by link,
  in order of delay, and shares what is left in proportion to bandwidth.
 */
module VolumeScheduler {
  import opened Basics

  datatype Link = Link(owd: real, bdw: real)

  ghost predicate Positive(links: seq<Link>) {
    forall k :: 0 <= k < |links| ==> links[k].bdw > 0.0
  }

  function Sum(v: seq<real>): (s: real) {
    if v == [] then 0.0 else v[0] + Sum(v[1..])
  }

  function Times(x: real, y: real): (p: real) {
    x * y
  }

  function Over(v: real, b: real): (q: real)
    requires b > 0.0
  {
    v / b
  }

  function Finish(l: Link, v: real): (t: real)
    requires l.bdw > 0.0
  {
    l.owd + Over(v, l.bdw)
  }

  // v distributes total over the links
  ghost predicate IsSplit(links: seq<Link>, v: seq<real>, total: real) {
    |v| == |links| && (forall k :: 0 <= k < |v| ==> v[k] >= 0.0) && Sum(v) == total
  }

  // every link that carries data has finished at time t
  ghost predicate DoneBy(links: seq<Link>, v: seq<real>, t: real)
    requires Positive(links) && |v| == |links|
  {
    forall k :: 0 <= k < |v| && v[k] > 0.0 ==> Finish(links[k], v[k]) <= t
  }

  // no split of the same volume is done earlier than v
  ghost predicate Optimal(links: seq<Link>, v: seq<real>, total: real)
    requires Positive(links)
  {
    IsSplit(links, v, total) &&
    forall w, t :: IsSplit(links, w, total) && DoneBy(links, w, t) ==> DoneBy(links, v, t)
  }

  // every used link finishes exactly at t, and no unused link could have started before t
  ghost predicate LevelAt(links: seq<Link>, v: seq<real>, t: real)
    requires Positive(links) && |v| == |links|
  {
    forall k :: 0 <= k < |v| ==>
      (v[k] > 0.0 ==> Finish(links[k], v[k]) == t) && (v[k] <= 0.0 ==> links[k].owd >= t)
  }

  function Fill(l: Link, t: real): (v: real) {
    if l.owd < t then Times(l.bdw, t - l.owd) else 0.0
  }

  // the volumes that make every link reach time t
  function Level(links: seq<Link>, t: real): (v: seq<real>) {
    seq(|links|, k requires 0 <= k < |links| => Fill(links[k], t))
  }

  // how much volume it takes to keep all links busy up to time t
  function Need(links: seq<Link>, t: real): (total: real) {
    Sum(Level(links, t))
  }

  // Two links share the delay t.
  ghost predicate Shared(links: seq<Link>, t: real) {
    exists i, j :: 0 <= i < j < |links| && links[i].owd == t && links[j].owd == t
  }

  ghost predicate Slowest(links: seq<Link>, t: real) {
    forall k :: 0 <= k < |links| ==> links[k].owd <= t
  }

  // The inputs on which levelling is never cut short: a delay shared by two links does no harm if
  // the volume runs out before that delay is reached, or if no link is slower.
  ghost predicate Levelable(links: seq<Link>, total: real) {
    forall t :: Shared(links, t) ==> total <= Need(links, t) || Slowest(links, t)
  }

  ghost predicate DistinctDelays(links: seq<Link>) {
    forall i, j :: 0 <= i < j < |links| ==> links[i].owd != links[j].owd
  }

  ghost predicate NoSharedBelow(links: seq<Link>, t: real) {
    forall u :: u < t ==> !Shared(links, u)
  }

  // The levelling loop can only stop with volume left at the slowest delay or the least shared one.
  ghost predicate StopDelay(links: seq<Link>, t: real) {
    (Shared(links, t) || Slowest(links, t)) && exists k :: 0 <= k < |links| && links[k].owd == t
  }

  // v keeps all links busy up to t, plus the same extra time on every link
  ghost predicate Shape(links: seq<Link>, v: seq<real>, t: real, extra: real) {
    |v| == |links| && extra >= 0.0 &&
    forall k :: 0 <= k < |v| ==> v[k] == Fill(links[k], t) + Times(extra, links[k].bdw)
  }

  // What the allocator computes: a level below which no delay is shared, and, if volume is left
  // there, a remainder in proportion to bandwidth.
  ghost predicate Allotment(links: seq<Link>, v: seq<real>, t: real, extra: real) {
    Shape(links, v, t, extra) && NoSharedBelow(links, t) && (extra > 0.0 ==> StopDelay(links, t))
  }

  // A delay order: the indices of all links, sorted by delay. Ties may be in any order.
  ghost predicate DelayOrder(links: seq<Link>, order: seq<nat>) {
    |order| == |links| &&
    (forall k :: 0 <= k < |order| ==> order[k] < |links|) &&
    (forall j, k :: 0 <= j < k < |order| ==> order[j] != order[k]) &&
    (forall i :: 0 <= i < |links| ==> i in order) &&
    (forall j, k :: 0 <= j < k < |order| ==> links[order[j]].owd <= links[order[k]].owd)
  }

  lemma Position(links: seq<Link>, order: seq<nat>, i: nat) returns (k: nat)
    requires DelayOrder(links, order) && i < |links|
    ensures k < |order| && order[k] == i
  {
    assert i in order;
    k :| 0 <= k < |order| && order[k] == i;
  }

  // ----- products and quotients

  lemma TimesPositive(x: real, y: real)
    requires x > 0.0
    ensures y > 0.0 ==> Times(x, y) > 0.0
    ensures y >= 0.0 ==> Times(x, y) >= 0.0
  {
  }

  lemma TimesCommutes(x: real, y: real)
    ensures Times(x, y) == Times(y, x)
  {
  }

  lemma TimesShuffles(x: real, y: real, z: real)
    ensures Times(x, Times(y, z)) == Times(y, Times(x, z))
  {
  }

  lemma TimesAdds(x: real, y: real, z: real)
    ensures Times(x, y + z) == Times(x, y) + Times(x, z)
  {
  }

  lemma TimesMonotone(b: real, x: real, y: real)
    requires b > 0.0
    ensures x <= y ==> Times(b, x) <= Times(b, y)
    ensures x < y ==> Times(b, x) < Times(b, y)
  {
    TimesAdds(b, x, y - x);
    assert x + (y - x) == y;
    TimesPositive(b, y - x);
  }

  lemma OverTimes(b: real, x: real)
    requires b > 0.0
    ensures Over(Times(b, x), b) == x
  {
  }

  lemma TimesOver(v: real, b: real)
    requires b > 0.0
    ensures Times(b, Over(v, b)) == v && Times(Over(v, b), b) == v
    ensures v > 0.0 ==> Over(v, b) > 0.0
  {
  }

  lemma Fraction(v: real, s: real) returns (c: real)
    requires 0.0 < v < s
    ensures Times(c, s) == v && 0.0 < c < 1.0
  {
    c := Over(v, s);
    TimesOver(v, s);
    TimesMonotone(s, 1.0, c);
    TimesCommutes(s, c);
    assert Times(s, 1.0) == s;
  }

  lemma ScaleDown(c: real, d: real)
    requires 0.0 < c < 1.0 && d > 0.0
    ensures 0.0 < Times(c, d) < d
  {
    TimesPositive(c, d);
    TimesMonotone(d, c, 1.0);
    TimesCommutes(c, d);
    assert Times(d, 1.0) == d;
  }

  lemma OverBound(v: real, b: real, g: real)
    requires b > 0.0 && 0.0 < v <= Times(g, b)
    ensures 0.0 < Over(v, b) <= g
  {
    TimesOver(v, b);
    TimesCommutes(g, b);
    TimesMonotone(b, g, Over(v, b));
  }

  // ----- sums

  lemma {:induction false} SumUpdate(v: seq<real>, i: nat, x: real)
    requires i < |v|
    ensures Sum(v[i := x]) == Sum(v) - v[i] + x
  {
    if i == 0 {
      assert v[i := x][1..] == v[1..];
    } else {
      assert v[i := x][1..] == v[1..][i - 1 := x];
      SumUpdate(v[1..], i - 1, x);
    }
  }

  lemma {:induction false} SumMonotone(w: seq<real>, v: seq<real>)
    requires |w| == |v| && forall k :: 0 <= k < |v| ==> w[k] <= v[k]
    ensures Sum(w) <= Sum(v)
    ensures (exists k :: 0 <= k < |v| && w[k] < v[k]) ==> Sum(w) < Sum(v)
  {
    if v != [] {
      assert forall k :: 0 <= k < |v[1..]| ==> w[1..][k] == w[k + 1] && v[1..][k] == v[k + 1];
      SumMonotone(w[1..], v[1..]);
      if k :| 0 <= k < |v| && w[k] < v[k] && k > 0 {
        assert w[1..][k - 1] < v[1..][k - 1];
      }
    }
  }

  function Scaled(w: seq<real>, c: real): (u: seq<real>) {
    seq(|w|, k requires 0 <= k < |w| => Times(c, w[k]))
  }

  lemma {:induction false} SumScaled(v: seq<real>, c: real)
    ensures |Scaled(v, c)| == |v| && Sum(Scaled(v, c)) == Times(c, Sum(v))
  {
    if v != [] {
      assert Scaled(v, c)[1..] == Scaled(v[1..], c);
      SumScaled(v[1..], c);
      TimesAdds(c, v[0], Sum(v[1..]));
    }
  }

  lemma {:induction false} SumAdd(u: seq<real>, v: seq<real>, w: seq<real>)
    requires |w| == |v| == |u| && forall k :: 0 <= k < |v| ==> w[k] == u[k] + v[k]
    ensures Sum(w) == Sum(u) + Sum(v)
  {
    if v != [] {
      SumAdd(u[1..], v[1..], w[1..]);
    }
  }

  lemma {:induction false} SumZero(v: seq<real>)
    requires forall k :: 0 <= k < |v| ==> v[k] == 0.0
    ensures Sum(v) == 0.0
  {
    if v != [] { SumZero(v[1..]); }
  }

  lemma {:induction false} SumPositive(v: seq<real>)
    requires forall k :: 0 <= k < |v| ==> v[k] > 0.0
    ensures v != [] ==> Sum(v) > 0.0
  {
    if v != [] { SumPositive(v[1..]); }
  }

  lemma FillMonotone(l: Link, u: real, t: real)
    requires l.bdw > 0.0 && u <= t
    ensures 0.0 <= Fill(l, u) <= Fill(l, t)
    ensures u < t && Fill(l, t) > 0.0 ==> Fill(l, u) < Fill(l, t)
  {
    TimesPositive(l.bdw, u - l.owd);
    TimesPositive(l.bdw, t - l.owd);
    TimesMonotone(l.bdw, u - l.owd, t - l.owd);
  }

  lemma NeedMonotone(links: seq<Link>, t: real, u: real)
    requires Positive(links) && t <= u
    ensures Need(links, t) <= Need(links, u)
  {
    forall k | 0 <= k < |links|
      ensures Level(links, t)[k] <= Level(links, u)[k]
    {
      FillMonotone(links[k], t, u);
    }
    SumMonotone(Level(links, t), Level(links, u));
  }

  // ----- optimality

  // A link that has finished by t carries at most what fills it up to t.
  lemma DoneMeansBelowFill(l: Link, v: real, t: real)
    requires l.bdw > 0.0 && v >= 0.0 && (v > 0.0 ==> Finish(l, v) <= t)
    ensures v <= Fill(l, t)
    ensures v > 0.0 ==> l.owd < t
  {
    TimesOver(v, l.bdw);
    TimesMonotone(l.bdw, Over(v, l.bdw), t - l.owd);
  }

  lemma LevelIsFill(l: Link, v: real, t: real)
    requires l.bdw > 0.0 && v >= 0.0
    requires v > 0.0 ==> Finish(l, v) == t
    requires v <= 0.0 ==> l.owd >= t
    ensures v == Fill(l, t)
  {
    TimesOver(v, l.bdw);
    assert v > 0.0 ==> Over(v, l.bdw) == t - l.owd;
  }

  lemma FillFinish(l: Link, t: real)
    requires l.bdw > 0.0 && l.owd < t
    ensures Fill(l, t) > 0.0 && Finish(l, Fill(l, t)) == t
  {
    TimesPositive(l.bdw, t - l.owd);
    OverTimes(l.bdw, t - l.owd);
  }

  // Water filling: a level split is optimal.
  lemma LevelIsOptimal(links: seq<Link>, v: seq<real>, total: real, t: real)
    requires Positive(links) && IsSplit(links, v, total) && LevelAt(links, v, t)
    ensures Optimal(links, v, total)
  {
    forall w, u | IsSplit(links, w, total) && DoneBy(links, w, u)
      ensures DoneBy(links, v, u)
    {
      if !DoneBy(links, v, u) {
        var k :| 0 <= k < |v| && v[k] > 0.0 && Finish(links[k], v[k]) > u;
        forall j | 0 <= j < |v|
          ensures w[j] <= v[j] && (v[j] > 0.0 ==> w[j] < v[j])
        {
          DoneMeansBelowFill(links[j], w[j], u);
          LevelIsFill(links[j], v[j], t);
          FillMonotone(links[j], u, t);
        }
        SumMonotone(w, v);
      }
    }
  }

  // when a link finishes that carries the fraction c of what fills it up to t
  function EarlyFinish(l: Link, c: real, t: real): (e: real) {
    l.owd + Times(c, t - l.owd)
  }

  // A smaller volume than the one that fills all links up to last can be done before last.
  lemma ScaledSplit(links: seq<Link>, total: real, last: real) returns (w: seq<real>, u: real)
    requires Positive(links) && 0.0 < total < Need(links, last)
    requires forall k :: 0 <= k < |links| ==> links[k].owd < last
    ensures IsSplit(links, w, total) && DoneBy(links, w, u) && u < last
  {
    hide Scaled, Fill, Finish, EarlyFinish, Sum;
    var full := Level(links, last);
    var c := Fraction(total, Sum(full));
    w := Scaled(full, c);
    SumScaled(full, c);
    u := EarlierBound(links, c, last);
    forall j | 0 <= j < |links|
      ensures |w| == |links| && w[j] >= 0.0 && Finish(links[j], w[j]) <= u
    {
      ScaledFinish(links, c, last, j);
    }
  }

  // If every link carries data but they do not all finish together, some split is done earlier.
  lemma UnevenIsNotOptimal(links: seq<Link>, v: seq<real>, total: real, last: real, early: nat)
    requires Positive(links) && IsSplit(links, v, total) && total > 0.0
    requires DoneBy(links, v, last) && early < |v|
    requires forall k :: 0 <= k < |v| ==> v[k] > 0.0
    requires Finish(links[early], v[early]) < last
    requires exists k :: 0 <= k < |v| && Finish(links[k], v[k]) == last
    ensures !Optimal(links, v, total)
  {
    var full := Level(links, last);
    forall k | 0 <= k < |v|
      ensures v[k] <= full[k] && links[k].owd < last
    {
      DoneMeansBelowFill(links[k], v[k], last);
    }
    FillFinish(links[early], last);
    assert v[early] < full[early];
    SumMonotone(v, full);
    var w, u := ScaledSplit(links, total, last);
    assert !DoneBy(links, v, u);
  }

  lemma ScaledFinish(links: seq<Link>, c: real, t: real, j: nat)
    requires j < |links| && links[j].bdw > 0.0 && links[j].owd < t && 0.0 < c < 1.0
    ensures |Scaled(Level(links, t), c)| == |links|
    ensures Scaled(Level(links, t), c)[j] >= 0.0
    ensures Finish(links[j], Scaled(Level(links, t), c)[j]) == EarlyFinish(links[j], c, t)
  {
    var l := links[j];
    var d := t - l.owd;
    TimesShuffles(c, l.bdw, d);
    ScaleDown(c, d);
    TimesPositive(l.bdw, Times(c, d));
    OverTimes(l.bdw, Times(c, d));
  }

  lemma {:induction false} EarlierBound(links: seq<Link>, c: real, t: real) returns (u: real)
    requires 0.0 < c < 1.0 && forall k :: 0 <= k < |links| ==> links[k].owd < t
    ensures u < t && forall k :: 0 <= k < |links| ==> EarlyFinish(links[k], c, t) <= u
  {
    hide EarlyFinish;
    if links == [] {
      u := t - 1.0;
    } else {
      var u' := EarlierBound(links[1..], c, t);
      var x := EarlyFinish(links[0], c, t);
      EarlyIsEarlier(links[0], c, t);
      u := if x <= u' then u' else x;
      forall k | 0 <= k < |links|
        ensures EarlyFinish(links[k], c, t) <= u
      {
        if k > 0 { assert links[k] == links[1..][k - 1]; }
      }
    }
  }

  lemma EarlyIsEarlier(l: Link, c: real, t: real)
    requires 0.0 < c < 1.0 && l.owd < t
    ensures EarlyFinish(l, c, t) < t
  {
    ScaleDown(c, t - l.owd);
  }

  lemma EvenFinish(l: Link, t: real, extra: real)
    requires l.bdw > 0.0 && extra > 0.0
    ensures Fill(l, t) + Times(extra, l.bdw) > Fill(l, t) >= 0.0
    ensures Finish(l, Fill(l, t) + Times(extra, l.bdw)) == (if l.owd < t then t else l.owd) + extra
  {
    var d := if l.owd < t then t - l.owd else 0.0;
    TimesPositive(l.bdw, extra);
    TimesPositive(l.bdw, d);
    TimesCommutes(l.bdw, extra);
    TimesAdds(l.bdw, d, extra);
    assert Times(l.bdw, 0.0) == 0.0;
    OverTimes(l.bdw, d + extra);
  }

  lemma {:induction false} SlowestLink(links: seq<Link>) returns (m: nat)
    requires links != []
    ensures m < |links| && Slowest(links, links[m].owd)
  {
    if |links| == 1 {
      m := 0;
    } else {
      var m' := SlowestLink(links[1..]);
      m := if links[0].owd <= links[m' + 1].owd then m' + 1 else 0;
      forall k | 0 <= k < |links| ensures links[k].owd <= links[m].owd {
        if k > 0 { assert links[k] == links[1..][k - 1]; }
      }
    }
  }

  // Volume left at a shared delay that is not the slowest: the split is uneven.
  lemma CutShort(links: seq<Link>, v: seq<real>, total: real, t: real, extra: real)
    requires Positive(links) && IsSplit(links, v, total) && total > 0.0
    requires Shape(links, v, t, extra) && extra > 0.0 && StopDelay(links, t) && !Slowest(links, t)
    ensures !Optimal(links, v, total) && !Levelable(links, total)
  {
    hide Fill, Finish, Sum;
    var m := SlowestLink(links);
    forall k | 0 <= k < |v|
      ensures v[k] > 0.0 && Finish(links[k], v[k]) == (if links[k].owd < t then t else links[k].owd) + extra
      ensures Level(links, t)[k] < v[k]
    {
      EvenFinish(links[k], t, extra);
    }
    var early :| 0 <= early < |links| && links[early].owd == t;
    UnevenIsNotOptimal(links, v, total, links[m].owd + extra, early);
    SumMonotone(Level(links, t), v);
  }

  lemma EvenIsLevel(links: seq<Link>, v: seq<real>, t: real, extra: real)
    requires Positive(links) && Shape(links, v, t, extra) && (extra > 0.0 ==> Slowest(links, t))
    ensures LevelAt(links, v, t + extra)
  {
    forall k | 0 <= k < |v|
      ensures (v[k] > 0.0 ==> Finish(links[k], v[k]) == t + extra) && (v[k] <= 0.0 ==> links[k].owd >= t + extra)
    {
      if extra > 0.0 { EvenFinish(links[k], t, extra); }
      else if links[k].owd < t { FillFinish(links[k], t); }
    }
  }

  lemma EvenIsLevelable(links: seq<Link>, v: seq<real>, total: real, t: real, extra: real)
    requires Positive(links) && IsSplit(links, v, total)
    requires Allotment(links, v, t, extra) && (extra > 0.0 ==> Slowest(links, t))
    ensures Levelable(links, total)
  {
    forall u | Shared(links, u)
      ensures total <= Need(links, u) || Slowest(links, u)
    {
      if extra == 0.0 {
        NeedMonotone(links, t, u);
        assert v == Level(links, t);
      }
    }
  }

  // Whether an allotment is optimal is decided by the inputs alone.
  lemma AllotmentOptimality(links: seq<Link>, v: seq<real>, total: real, t: real, extra: real)
    requires Positive(links) && IsSplit(links, v, total) && total > 0.0
    requires Allotment(links, v, t, extra)
    ensures Optimal(links, v, total) <==> Levelable(links, total)
    ensures Levelable(links, total) ==> LevelAt(links, v, t + extra)
  {
    if extra > 0.0 && !Slowest(links, t) {
      CutShort(links, v, total, t, extra);
    } else {
      EvenIsLevel(links, v, t, extra);
      LevelIsOptimal(links, v, total, t + extra);
      EvenIsLevelable(links, v, total, t, extra);
    }
  }

  // Three links, two of them with the same delay, and volume left when that delay is reached:
  // the allocator's split is not the fastest one.
  lemma SharedDelayExample()
    ensures
      var links := [Link(1.0, 1.0), Link(1.0, 1.0), Link(2.0, 1.0)];
      Positive(links) && !Levelable(links, 4.0)
  {
    var links := [Link(1.0, 1.0), Link(1.0, 1.0), Link(2.0, 1.0)];
    SumZero(Level(links, 1.0));
    assert links[0].owd == 1.0 && links[1].owd == 1.0;
    assert Shared(links, 1.0);
    assert links[2].owd > 1.0;
  }

  // ----- the allocator

  // order lists each index below n exactly once
  ghost predicate Indices(n: nat, order: seq<nat>) {
    |order| == n &&
    (forall k :: 0 <= k < |order| ==> order[k] < n) &&
    (forall j, k :: 0 <= j < k < |order| ==> order[j] != order[k])
  }

  // the sum of w over the positions lo..hi of the order
  function Part(w: seq<real>, order: seq<nat>, lo: nat, hi: nat): (s: real)
    requires Indices(|w|, order) && hi <= |order|
    decreases hi - lo
  {
    if lo >= hi then 0.0 else w[order[lo]] + Part(w, order, lo + 1, hi)
  }

  lemma {:induction false} PartPositive(w: seq<real>, order: seq<nat>, lo: nat, mid: nat, hi: nat)
    requires Indices(|w|, order) && lo <= mid <= hi <= |order|
    requires forall k :: 0 <= k < |w| ==> w[k] > 0.0
    ensures 0.0 <= Part(w, order, mid, hi) <= Part(w, order, lo, hi)
    ensures lo < hi ==> Part(w, order, lo, hi) > 0.0
    decreases hi - lo
  {
    if lo < mid {
      PartPositive(w, order, lo + 1, mid, hi);
    } else if lo < hi {
      PartPositive(w, order, lo + 1, lo + 1, hi);
    }
  }

  lemma {:induction false} PartScaled(w: seq<real>, c: real, order: seq<nat>, lo: nat, hi: nat)
    requires Indices(|w|, order) && hi <= |order|
    ensures |Scaled(w, c)| == |w| && Part(Scaled(w, c), order, lo, hi) == Times(c, Part(w, order, lo, hi))
    decreases hi - lo
  {
    if lo < hi {
      PartScaled(w, c, order, lo + 1, hi);
      TimesAdds(c, w[order[lo]], Part(w, order, lo + 1, hi));
    }
  }

  // vol is base with inc added at the positions k+1..i of the order
  ghost predicate Added(order: seq<nat>, vol: seq<real>, base: seq<real>, inc: seq<real>, k: int, i: nat) {
    |vol| == |base| == |inc| && Indices(|vol|, order) && -1 <= k <= i < |order| &&
    Sum(vol) == Sum(base) + Part(inc, order, k + 1, i + 1) &&
    forall j :: 0 <= j < |order| ==> vol[order[j]] == base[order[j]] + if k < j <= i then inc[order[j]] else 0.0
  }

  lemma AddOne(order: seq<nat>, vol: seq<real>, base: seq<real>, inc: seq<real>, k: nat, i: nat)
    requires Added(order, vol, base, inc, k, i)
    ensures Added(order, vol[order[k] := vol[order[k]] + inc[order[k]]], base, inc, k - 1, i)
  {
    SumUpdate(vol, order[k], vol[order[k]] + inc[order[k]]);
  }

  function Bandwidths(links: seq<Link>): (b: seq<real>) {
    seq(|links|, k requires 0 <= k < |links| => links[k].bdw)
  }

  // total bandwidth of the first i + 1 links of the order
  function Bandwidth(links: seq<Link>, order: seq<nat>, i: nat): (b: real)
    requires Indices(|links|, order) && i < |order|
  {
    Part(Bandwidths(links), order, 0, i + 1)
  }

  lemma LevelAfter(l: Link, s: real, x: real, raised: bool)
    requires x >= 0.0 && if raised then l.owd <= s else l.owd >= s + x
    ensures Fill(l, s + x) == Fill(l, s) + if raised then Times(x, l.bdw) else 0.0
  {
    if raised { FillStep(l, s, x); }
  }

  // Giving the fastest links x more seconds raises the level by x.
  lemma AddedIsLevel(links: seq<Link>, order: seq<nat>, vol: seq<real>, base: seq<real>, i: nat, x: real)
    requires DelayOrder(links, order) && i < |order| && x >= 0.0
    requires base == Level(links, links[order[i]].owd)
    requires Added(order, vol, base, Scaled(Bandwidths(links), x), -1, i)
    requires forall j :: i < j < |order| ==> links[order[j]].owd >= links[order[i]].owd + x
    ensures vol == Level(links, links[order[i]].owd + x)
  {
    var s := links[order[i]].owd;
    forall k | 0 <= k < |vol| ensures vol[k] == Fill(links[k], s + x) {
      var j := Position(links, order, k);
      LevelAfter(links[k], s, x, j <= i);
      assert vol[order[j]] == base[order[j]] + if j <= i then Times(x, links[k].bdw) else 0.0;
    }
  }

  lemma FillStep(l: Link, s: real, x: real)
    requires l.owd <= s && x >= 0.0
    ensures Fill(l, s) + Times(x, l.bdw) == Fill(l, s + x)
  {
    TimesAdds(l.bdw, s - l.owd, x);
    assert (s - l.owd) + x == (s + x) - l.owd;
    TimesCommutes(l.bdw, x);
    assert Times(l.bdw, 0.0) == 0.0;
  }

  lemma ShareStep(volume: real, b: real, sum: real)
    requires sum > 0.0
    ensures volume * b / sum == Times(Over(volume, sum), b)
  {
  }

  // Give the first i + 1 links of the order time more seconds each.
  method Raise(links: seq<Link>, order: seq<nat>, i: nat, vol: seq<real>, volume: real, time: real,
               ghost inc: seq<real>)
    returns (vol': seq<real>, volume': real)
    requires Positive(links) && Indices(|links|, order) && i < |order| && |vol| == |links|
    requires inc == Scaled(Bandwidths(links), time) && forall k :: 0 <= k < |inc| ==> inc[k] > 0.0
    requires Part(inc, order, 0, i + 1) < volume
    ensures Added(order, vol', vol, inc, -1, i)
    ensures volume' + Sum(vol') == volume + Sum(vol) && volume' > 0.0
  {
    var k: int := i;
    vol', volume' := vol, volume;
    while k >= 0
      invariant Added(order, vol', vol, inc, k, i)
      invariant volume' + Sum(vol') == volume + Sum(vol)
    {
      var step := Times(time, links[order[k]].bdw);
      assert step == inc[order[k]];
      AddOne(order, vol', vol, inc, k, i);
      PartPositive(inc, order, 0, k, i + 1);
      vol' := vol'[order[k] := vol'[order[k]] + step];
      volume' := volume' - step;
      if volume' <= 0.0 {
        break;
      }
      k := k - 1;
    }
  }

  // Spread the volume over the first i + 1 links of the order, in proportion to bandwidth.
  method Spend(links: seq<Link>, order: seq<nat>, i: nat, vol: seq<real>, volume: real, bdwSum: real,
               ghost inc: seq<real>)
    returns (vol': seq<real>, volume': real)
    requires Indices(|links|, order) && i < |order| && |vol| == |links| && bdwSum > 0.0
    requires inc == Scaled(Bandwidths(links), Over(volume, bdwSum))
    ensures Added(order, vol', vol, inc, -1, i)
    ensures volume' + Sum(vol') == volume + Sum(vol)
  {
    var k: int := i;
    var cut := 0.0;
    vol' := vol;
    while k >= 0
      invariant Added(order, vol', vol, inc, k, i)
      invariant Sum(vol') == Sum(vol) + cut
    {
      var step := volume * links[order[k]].bdw / bdwSum;
      assert step == inc[order[k]] by { ShareStep(volume, links[order[k]].bdw, bdwSum); }
      AddOne(order, vol', vol, inc, k, i);
      vol' := vol'[order[k] := vol'[order[k]] + step];
      cut := cut + step;
      k := k - 1;
    }
    volume' := volume - cut;
  }

  method TotalBandwidth(links: seq<Link>) returns (all: real)
    ensures all == Sum(Bandwidths(links))
  {
    all := 0.0;
    ghost var b := Bandwidths(links);
    for k := 0 to |links|
      invariant all + Sum(b[k..]) == Sum(b)
    {
      assert b[k..][1..] == b[k + 1..];
      all := all + links[k].bdw;
    }
  }

  // Share the volume over all links, in proportion to bandwidth.
  method ShareRest(links: seq<Link>, vol: seq<real>, volume: real, all: real, ghost inc: seq<real>)
    returns (vol': seq<real>)
    requires |vol| == |links| && all > 0.0
    requires inc == Scaled(Bandwidths(links), Over(volume, all))
    ensures |vol'| == |vol| && forall k :: 0 <= k < |vol| ==> vol'[k] == vol[k] + inc[k]
  {
    vol' := vol;
    for k := 0 to |links|
      invariant |vol'| == |links|
      invariant forall j :: 0 <= j < |links| ==> vol'[j] == vol[j] + (if j < k then inc[j] else 0.0)
    {
      var step := volume * links[k].bdw / all;
      assert step == inc[k] by { ShareStep(volume, links[k].bdw, all); }
      vol' := vol'[k := vol'[k] + step];
    }
  }

  lemma NextDelayNotShared(links: seq<Link>, order: seq<nat>, i: nat)
    requires DelayOrder(links, order) && i + 1 < |order|
    requires NoSharedBelow(links, links[order[i]].owd)
    requires forall j :: 0 <= j < i ==> links[order[j]].owd < links[order[i]].owd
    requires links[order[i]].owd < links[order[i + 1]].owd
    ensures NoSharedBelow(links, links[order[i + 1]].owd)
  {
    forall u | u < links[order[i + 1]].owd ensures !Shared(links, u) {
      if Shared(links, u) {
        var p, q :| 0 <= p < q < |links| && links[p].owd == u && links[q].owd == u;
        var a := Position(links, order, p);
        var b := Position(links, order, q);
      }
    }
  }

  // The state of the levelling loop when it looks at position i of the order.
  ghost predicate Levelled(links: seq<Link>, order: seq<nat>, i: nat, vol: seq<real>, volume: real, total: real) {
    DelayOrder(links, order) && i < |order| && volume > 0.0 && volume + Sum(vol) == total &&
    vol == Level(links, links[order[i]].owd) && NoSharedBelow(links, links[order[i]].owd) &&
    forall j :: 0 <= j < i ==> links[order[j]].owd < links[order[i]].owd
  }

  lemma StartsLevelled(links: seq<Link>, order: seq<nat>, vol: seq<real>, total: real)
    requires DelayOrder(links, order) && links != [] && total > 0.0
    requires |vol| == |links| && forall k :: 0 <= k < |vol| ==> vol[k] == 0.0
    ensures Levelled(links, order, 0, vol, total, total)
  {
    SumZero(vol);
    forall k | 0 <= k < |links| ensures links[k].owd >= links[order[0]].owd {
      var j := Position(links, order, k);
    }
    assert vol == Level(links, links[order[0]].owd);
  }

  // Close the gap to the next delay, if there is enough volume.
  method CloseGap(links: seq<Link>, order: seq<nat>, i: nat, vol: seq<real>, volume: real, owdGap: real,
                  ghost total: real)
    returns (vol': seq<real>, volume': real)
    requires Positive(links) && Levelled(links, order, i, vol, volume, total) && i + 1 < |order|
    requires owdGap == links[order[i + 1]].owd - links[order[i]].owd > 0.0
    requires volume > Times(owdGap, Bandwidth(links, order, i))
    ensures Levelled(links, order, i + 1, vol', volume', total)
  {
    ghost var inc := Scaled(Bandwidths(links), owdGap);
    PartScaled(Bandwidths(links), owdGap, order, 0, i + 1);
    ScaledPositive(links, owdGap);
    vol', volume' := Raise(links, order, i, vol, volume, owdGap, inc);
    AddedIsLevel(links, order, vol', vol, i, owdGap);
    NextDelayNotShared(links, order, i);
  }

  lemma LevelIsAllotment(links: seq<Link>, v: seq<real>, t: real, u: real)
    requires Positive(links) && v == Level(links, t) && NoSharedBelow(links, u) && t <= u
    ensures IsSplit(links, v, Sum(v)) && Allotment(links, v, t, 0.0)
  {
    FillNonNegative(links, t);
  }

  // Use up a volume that does not close the gap to the next delay.
  method UseUp(links: seq<Link>, order: seq<nat>, i: nat, vol: seq<real>, volume: real, bdwSum: real, owdGap: real,
               ghost total: real)
    returns (vol': seq<real>, volume': real)
    requires Positive(links) && Levelled(links, order, i, vol, volume, total) && i + 1 < |order| && |vol| == |links|
    requires owdGap == links[order[i + 1]].owd - links[order[i]].owd > 0.0
    requires bdwSum == Bandwidth(links, order, i) > 0.0 && volume <= Times(owdGap, bdwSum)
    ensures volume' == 0.0 && IsSplit(links, vol', total)
    ensures Allotment(links, vol', links[order[i]].owd + Over(volume, bdwSum), 0.0)
  {
    hide Fill, Finish, Sum, Scaled, Part, NoSharedBelow, Added, Level;
    ghost var x := Over(volume, bdwSum);
    TimesOver(volume, bdwSum);
    OverBound(volume, bdwSum, owdGap);
    ghost var inc := Scaled(Bandwidths(links), x);
    PartScaled(Bandwidths(links), x, order, 0, i + 1);
    vol', volume' := Spend(links, order, i, vol, volume, bdwSum, inc);
    AddedIsLevel(links, order, vol', vol, i, x);
    NextDelayNotShared(links, order, i);
    LevelIsAllotment(links, vol', links[order[i]].owd + x, links[order[i + 1]].owd);
  }

  // Share a volume left at the end of levelling.
  method ShareLeftover(links: seq<Link>, order: seq<nat>, i: nat, vol: seq<real>, volume: real, ghost total: real)
    returns (vol': seq<real>, ghost extra: real)
    requires Positive(links) && Levelled(links, order, i, vol, volume, total)
    requires StopDelay(links, links[order[i]].owd) && |vol| == |links|
    ensures IsSplit(links, vol', total) && Allotment(links, vol', links[order[i]].owd, extra)
  {
    hide Fill, Finish, Scaled, Part, NoSharedBelow, StopDelay, Level;
    var all := TotalBandwidth(links);
    SumPositive(Bandwidths(links));
    extra := Over(volume, all);
    TimesOver(volume, all);
    ghost var inc := Scaled(Bandwidths(links), extra);
    SumScaled(Bandwidths(links), extra);
    vol' := ShareRest(links, vol, volume, all, inc);
    SumAdd(vol, inc, vol');
    ScaledPositive(links, extra);
    ExtraIsAllotment(links, vol, vol', links[order[i]].owd, extra);
  }

  lemma ScaledPositive(links: seq<Link>, x: real)
    requires Positive(links) && x > 0.0
    ensures |Scaled(Bandwidths(links), x)| == |links|
    ensures forall k :: 0 <= k < |links| ==> Scaled(Bandwidths(links), x)[k] > 0.0
  {
    forall k | 0 <= k < |links| ensures Scaled(Bandwidths(links), x)[k] > 0.0 {
      TimesPositive(x, links[k].bdw);
    }
  }

  lemma ExtraIsAllotment(links: seq<Link>, base: seq<real>, v: seq<real>, t: real, extra: real)
    requires Positive(links) && base == Level(links, t) && NoSharedBelow(links, t) && StopDelay(links, t) && extra > 0.0
    requires |v| == |links| && forall k :: 0 <= k < |v| ==> v[k] == base[k] + Scaled(Bandwidths(links), extra)[k]
    ensures IsSplit(links, v, Sum(v)) && Allotment(links, v, t, extra)
  {
    hide Fill;
    FillNonNegative(links, t);
    ScaledPositive(links, extra);
  }

  // The allocator: level finishing times in delay order, then share the rest proportionally.
  // A delay shared by two neighbours ends the levelling early.
  method Allocate(links: seq<Link>, order: seq<nat>, total: real)
    returns (vol: seq<real>, ghost t: real, ghost extra: real)
    requires Positive(links) && links != [] && DelayOrder(links, order) && total > 0.0
    ensures IsSplit(links, vol, total) && Allotment(links, vol, t, extra)
    ensures Optimal(links, vol, total) <==> Levelable(links, total)
    ensures Levelable(links, total) ==> LevelAt(links, vol, t + extra)
    ensures DistinctDelays(links) ==> Levelable(links, total)
  {
    var volume := total;
    vol := seq(|links|, _ => 0.0);
    StartsLevelled(links, order, vol, total);
    var i := 0;
    while i < |links| - 1
      invariant Levelled(links, order, i, vol, volume, total)
    {
      var k: int := i;
      var bdwSum := 0.0;
      while k >= 0
        invariant -1 <= k <= i && bdwSum == Part(Bandwidths(links), order, k + 1, i + 1)
      {
        bdwSum := bdwSum + links[order[k]].bdw;
        k := k - 1;
      }
      PartPositive(Bandwidths(links), order, 0, 0, i + 1);
      var owdGap := links[order[i + 1]].owd - links[order[i]].owd;
      if owdGap == 0.0 {
        break;
      }
      if volume > Times(owdGap, bdwSum) {
        vol, volume := CloseGap(links, order, i, vol, volume, owdGap, total);
      } else {
        t, extra := links[order[i]].owd + Over(volume, bdwSum), 0.0;
        vol, volume := UseUp(links, order, i, vol, volume, bdwSum, owdGap, total);
        AllotmentOptimality(links, vol, total, t, extra);
        return;
      }
      i := i + 1;
    }
    t := links[order[i]].owd;
    assert StopDelay(links, t) by {
      if i + 1 < |links| { SharedNeighbours(links, order, i); } else { LastIsSlowest(links, order); }
    }
    vol, extra := ShareLeftover(links, order, i, vol, volume, total);
    AllotmentOptimality(links, vol, total, t, extra);
  }

  lemma FillNonNegative(links: seq<Link>, t: real)
    requires Positive(links)
    ensures forall k :: 0 <= k < |links| ==> Fill(links[k], t) >= 0.0
  {
    forall k | 0 <= k < |links| ensures Fill(links[k], t) >= 0.0 {
      if links[k].owd < t { FillFinish(links[k], t); }
    }
  }

  lemma SharedNeighbours(links: seq<Link>, order: seq<nat>, i: nat)
    requires DelayOrder(links, order) && i + 1 < |order| && links[order[i]].owd == links[order[i + 1]].owd
    ensures Shared(links, links[order[i]].owd)
  {
    var p, q := order[i], order[i + 1];
    if p < q {
      assert links[p].owd == links[q].owd;
    } else {
      assert links[q].owd == links[p].owd;
    }
  }

  lemma LastIsSlowest(links: seq<Link>, order: seq<nat>)
    requires DelayOrder(links, order) && links != []
    ensures Slowest(links, links[order[|order| - 1]].owd)
  {
    forall k | 0 <= k < |links| ensures links[k].owd <= links[order[|order| - 1]].owd {
      var j := Position(links, order, k);
    }
  }

  // ----- choosing the paths of a stream

  // load is the sum of the weights of the streams already scheduled on the path
  datatype Path = Path(id: nat, sendingAllowed: bool, potentiallyFailed: bool, owd: real, bandwidth: real, load: nat)

  const INITIAL_PATH_ID := 0
  const BITS_PER_MEGABIT := 1048576.0

  predicate IsUsable(p: Path) {
    p.sendingAllowed && !p.potentiallyFailed && p.id != INITIAL_PATH_ID
  }

  function UsablePaths(paths: seq<Path>): (r: seq<Path>) {
    if paths == [] then []
    else if IsUsable(paths[0]) then [paths[0]] + UsablePaths(paths[1..])
    else UsablePaths(paths[1..])
  }

  // the bandwidth share of a stream of the given priority, in bits per second
  function Share(p: Path, priority: nat): (b: real)
    requires priority > 0
  {
    (priority as real / (priority as real + p.load as real)) * p.bandwidth * BITS_PER_MEGABIT
  }

  function Links(paths: seq<Path>, priority: nat): (links: seq<Link>)
    requires priority > 0
  {
    seq(|paths|, k requires 0 <= k < |paths| => Link(paths[k].owd, Share(paths[k], priority)))
  }

  ghost predicate DistinctIds(paths: seq<Path>) {
    forall i, j :: 0 <= i < j < |paths| ==> paths[i].id != paths[j].id
  }

  lemma SharePositive(p: Path, priority: nat)
    requires priority > 0 && p.bandwidth > 0.0
    ensures Share(p, priority) > 0.0
  {
    var q := priority as real / (priority as real + p.load as real);
    assert q > 0.0;
    assert q * p.bandwidth > 0.0;
  }

  // A path is used if and only if it may send, is not taken to have failed and is not the first path of all.
  lemma {:induction false} UsableIsExact(paths: seq<Path>)
    ensures forall p :: p in UsablePaths(paths) <==>
              p in paths && p.sendingAllowed && !p.potentiallyFailed && p.id != INITIAL_PATH_ID
    ensures DistinctIds(paths) ==> DistinctIds(UsablePaths(paths))
  {
    if paths != [] {
      UsableIsExact(paths[1..]);
      assert paths == [paths[0]] + paths[1..];
      if DistinctIds(paths) { UsableStayDistinct(paths); }
    }
  }

  lemma UsableStayDistinct(paths: seq<Path>)
    requires paths != [] && DistinctIds(paths)
    requires DistinctIds(paths[1..]) ==> DistinctIds(UsablePaths(paths[1..]))
    requires forall p :: p in UsablePaths(paths[1..]) ==> p in paths[1..]
    ensures DistinctIds(UsablePaths(paths))
  {
    var rest := UsablePaths(paths[1..]);
    forall k | 0 <= k < |rest| ensures rest[k].id != paths[0].id {
      assert rest[k] in paths[1..];
    }
  }

  // A stream gets of a path's bandwidth what its priority is of all priorities on the path.
  lemma ShareIsProportional(p: Path, priority: nat)
    requires priority > 0
    ensures Share(p, priority) * (priority + p.load) as real == priority as real * p.bandwidth * BITS_PER_MEGABIT
  {
    var n, all := priority as real, (priority + p.load) as real;
    assert all == n + p.load as real && (n / all) * all == n;
    assert Share(p, priority) * all == ((n / all) * all) * p.bandwidth * BITS_PER_MEGABIT;
  }

  function InsertAt(order: seq<nat>, p: nat, x: nat): (r: seq<nat>)
    requires p <= |order|
    ensures |r| == |order| + 1
    ensures forall k :: 0 <= k < |r| ==> r[k] == (if k < p then order[k] else if k == p then x else order[k - 1])
  {
    order[..p] + [x] + order[p..]
  }

  lemma InsertKeepsOrder(links: seq<Link>, l: Link, order: seq<nat>, p: nat)
    requires DelayOrder(links, order) && p <= |order|
    requires forall k :: 0 <= k < p ==> links[order[k]].owd <= l.owd
    requires p < |order| ==> l.owd < links[order[p]].owd
    ensures DelayOrder(links + [l], InsertAt(order, p, |links|))
  {
    var more, order' := links + [l], InsertAt(order, p, |links|);
    forall i | 0 <= i < |more| ensures i in order' {
      if i == |links| {
        assert order'[p] == i;
      } else {
        var k := Position(links, order, i);
        assert order'[if k < p then k else k + 1] == i;
      }
    }
    forall k | 0 <= k < |order'| ensures order'[k] < |more| {
      if k != p { assert order[Shifted(k, p)] < |links|; }
    }
    forall j, k | 0 <= j < k < |order'|
      ensures order'[j] != order'[k] && more[order'[j]].owd <= more[order'[k]].owd
    {
      InsertedPair(links, l, order, p, j, k);
    }
  }

  // where the entry at index k of the longer order comes from
  function Shifted(k: nat, p: nat): (i: nat)
    requires k != p
  {
    if k < p then k else k - 1
  }

  lemma InsertedPair(links: seq<Link>, l: Link, order: seq<nat>, p: nat, j: nat, k: nat)
    requires DelayOrder(links, order) && p <= |order| && j < k <= |order|
    requires forall i :: 0 <= i < p ==> links[order[i]].owd <= l.owd
    requires p < |order| ==> l.owd < links[order[p]].owd
    ensures
      var more, order' := links + [l], InsertAt(order, p, |links|);
      order'[j] < |more| && order'[k] < |more| && order'[j] != order'[k] &&
      more[order'[j]].owd <= more[order'[k]].owd
  {
    if j == p {
      assert order[p] < |links| && order[k - 1] < |links|;
      if p < k - 1 { assert links[order[p]].owd <= links[order[k - 1]].owd; }
    } else if k == p {
      assert order[j] < |links|;
    } else {
      var a, b := Shifted(j, p), Shifted(k, p);
      assert order[a] < |links| && order[b] < |links|;
      assert order[a] != order[b] && links[order[a]].owd <= links[order[b]].owd;
    }
  }

  method InsertByDelay(links: seq<Link>, l: Link, order: seq<nat>) returns (order': seq<nat>)
    requires DelayOrder(links, order)
    ensures DelayOrder(links + [l], order')
  {
    var p := 0;
    while p < |order| && links[order[p]].owd <= l.owd
      invariant 0 <= p <= |order|
      invariant forall k :: 0 <= k < p ==> links[order[k]].owd <= l.owd
    {
      p := p + 1;
    }
    InsertKeepsOrder(links, l, order, p);
    order' := InsertAt(order, p, |links|);
  }

  method SortByDelay(links: seq<Link>) returns (order: seq<nat>)
    ensures DelayOrder(links, order)
  {
    order := [];
    for m := 0 to |links|
      invariant DelayOrder(links[..m], order)
    {
      order := InsertByDelay(links[..m], links[m], order);
      assert links[..m] + [links[m]] == links[..m + 1];
    }
    assert links[..|links|] == links;
  }

  // v is in bits what is selected in bytes
  ghost predicate AreBits(usable: seq<Path>, selected: map<nat, real>, v: seq<real>) {
    |v| == |usable| && (forall k :: 0 <= k < |usable| ==>
      v[k] == if usable[k].id in selected then 8.0 * selected[usable[k].id] else 0.0) &&
    forall id :: id in selected ==> selected[id] > 0.0 && exists p :: p in usable && p.id == id
  }

  // the paths that carry data, with the bytes they carry
  method Selection(paths: seq<Path>, vol: seq<real>) returns (selected: map<nat, real>)
    requires |vol| == |paths| && DistinctIds(paths)
    requires forall k :: 0 <= k < |vol| ==> vol[k] >= 0.0
    ensures AreBits(paths, selected, vol)
  {
    selected := map[];
    for k := 0 to |paths|
      invariant forall j :: 0 <= j < k ==>
        (paths[j].id in selected <==> vol[j] > 0.0) && (vol[j] > 0.0 ==> selected[paths[j].id] == vol[j] / 8.0)
      invariant forall id :: id in selected ==> selected[id] > 0.0 && exists j :: 0 <= j < k && paths[j].id == id
    {
      if vol[k] > 0.0 {
        selected := selected[paths[k].id := vol[k] / 8.0];
      }
    }
    forall id | id in selected ensures exists p :: p in paths && p.id == id {
      var j :| 0 <= j < |paths| && paths[j].id == id;
      assert paths[j] in paths;
    }
  }

  // the links are those of the paths, each with the share of a stream in its bandwidth
  ghost predicate AreLinks(usable: seq<Path>, priority: nat, links: seq<Link>) {
    |links| == |usable| && forall k :: 0 <= k < |usable| ==>
      links[k].owd == usable[k].owd && links[k].bdw > 0.0 &&
      links[k].bdw * (priority + usable[k].load) as real == priority as real * usable[k].bandwidth * BITS_PER_MEGABIT
  }

  lemma LinksAre(paths: seq<Path>, priority: nat)
    requires priority > 0 && forall p :: p in paths ==> p.bandwidth > 0.0
    ensures AreLinks(paths, priority, Links(paths, priority)) && Positive(Links(paths, priority))
  {
    hide Share;
    forall k | 0 <= k < |paths|
      ensures Share(paths[k], priority) > 0.0 && Share(paths[k], priority) * (priority + paths[k].load) as real ==
              priority as real * paths[k].bandwidth * BITS_PER_MEGABIT
    {
      SharePositive(paths[k], priority);
      ShareIsProportional(paths[k], priority);
    }
  }

  lemma SameLength(paths: seq<Path>, priority: nat)
    requires priority > 0
    ensures |Links(paths, priority)| == |paths| && (paths == [] ==> AreBits(paths, map[], []))
  {
  }

  // Choose paths for a stream of size bytes, or nothing when no size is known or the only path
  // may not send. paths is listed in any order. The split is over all paths that may be used.
  method ChoosePaths(paths: seq<Path>, size: nat, priority: nat)
    returns (selected: Option<map<nat, real>>, ghost usable: seq<Path>, ghost links: seq<Link>, ghost v: seq<real>)
    requires DistinctIds(paths) && priority > 0
    requires |paths| <= 1 ==> |paths| == 1 && paths[0].id == INITIAL_PATH_ID
    requires forall p :: p in paths ==> p.bandwidth > 0.0
    ensures selected.None? <==> size == 0 || (|paths| == 1 && !paths[0].sendingAllowed)
    ensures selected.Some? && |paths| == 1 ==> selected.value == map[INITIAL_PATH_ID := size as real]
    ensures forall p :: p in usable <==>
              p in paths && p.sendingAllowed && !p.potentiallyFailed && p.id != INITIAL_PATH_ID
    ensures DistinctIds(usable) && AreLinks(usable, priority, links) && Positive(links)
    ensures selected.Some? && |paths| > 1 ==> AreBits(usable, selected.value, v)
    ensures selected.Some? && |paths| > 1 && usable != [] ==>
      IsSplit(links, v, 8.0 * size as real) &&
      (Optimal(links, v, 8.0 * size as real) <==> Levelable(links, 8.0 * size as real)) &&
      (Levelable(links, 8.0 * size as real) ==> exists t :: LevelAt(links, v, t)) &&
      (exists t, extra :: Allotment(links, v, t, extra))
  {
    UsableIsExact(paths);
    LinksAre(UsablePaths(paths), priority);
    hide *;
    usable, links, v := UsablePaths(paths), Links(UsablePaths(paths), priority), [];
    if size == 0 {
      return None, usable, links, v;
    }
    if |paths| <= 1 {
      if !paths[0].sendingAllowed {
        return None, usable, links, v;
      }
      return Some(map[INITIAL_PATH_ID := size as real]), usable, links, v;
    }
    var open := UsablePaths(paths);
    var ls := Links(open, priority);
    SameLength(open, priority);
    if ls == [] {
      return Some(map[]), usable, links, v;
    }
    var order := SortByDelay(ls);
    var vol, t, extra := Allocate(ls, order, 8.0 * size as real);
    var m := Selection(open, vol);
    return Some(m), usable, links, vol;
  }
}
