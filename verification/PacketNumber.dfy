/**
  Packet numbers travel truncated to 1, 2, 4 or 6 bytes. The receiver infers the full number from
  the largest one it has seen. Arithmetic is on unsigned 64-bit integers.
 */
module PacketNumber {
  import opened Basics

  function Wrap(x: int): (r: nat)
    ensures r < TWO_64 && (0 <= x < TWO_64 ==> r == x)
  {
    x % TWO_64
  }

  // epochs divide the range of 64 bits, and there are many of them
  predicate IsEpoch(d: nat) {
    d > 0 && d % 2 == 0 && TWO_64 % d == 0 && 4 * d <= TWO_64
  }

  // the number of distinct packet numbers of a length in bytes
  function Epoch(length: nat): (d: nat)
    requires length in {1, 2, 4, 6}
    ensures d > 0 && d % 2 == 0 && IsEpoch(d)
  {
    match length
    case 1 => 0x100
    case 2 => 0x1_0000
    case 4 => 0x1_0000_0000
    case _ => 0x1_0000_0000_0000
  }

  function Distance(a: nat, b: nat): (d: nat) {
    if a < b then b - a else a - b
  }

  function ClosestTo(target: nat, a: nat, b: nat): (c: nat) {
    if Distance(target, a) < Distance(target, b) then a else b
  }

  // the low part of a number, which is sent
  function Low(x: nat, d: nat): (w: nat)
    requires d > 0
  {
    x % d
  }

  // the first number of the epoch that x lies in
  function EpochOf(x: nat, d: nat): (e: nat)
    requires d > 0
    ensures e + Low(x, d) == x && e <= x < e + d && Low(x, d) < d
  {
    x - x % d
  }

  function Candidates(d: nat, last: nat, wire: nat): (c: nat)
    requires d > 0
  {
    var epoch := EpochOf(last, d);
    var prev, next := Wrap(epoch - d), Wrap(epoch + d);
    ClosestTo(Wrap(last + 1), Wrap(epoch + wire), ClosestTo(Wrap(last + 1), Wrap(prev + wire), Wrap(next + wire)))
  }

  // the packet number that a truncated one stands for, given the largest number seen
  function Infer(length: nat, last: nat, wire: nat): (pn: nat)
    requires length in {1, 2, 4, 6}
  {
    Candidates(Epoch(length), last, wire)
  }

  // Exactly which numbers are inferred: those less than half an epoch away from the next expected
  // number; on a tie, the one outside the epoch of the last number; in the first epoch, everything
  // from the next expected number on, because there is nothing before it; and in the last epoch,
  // everything up to it. After the largest number of all, the next expected one is 0.
  ghost predicate Recoverable(d: nat, last: nat, pn: nat)
    requires d > 0
  {
    var target := last + 1;
    if target == TWO_64 then pn < d
    else
      || 2 * Distance(target, pn) < d
      || (2 * (pn - target) == d && EpochOf(pn, d) > EpochOf(last, d))
      || (2 * (target - pn) == d && EpochOf(pn, d) < EpochOf(last, d))
      || (target <= pn < d)
      || (TWO_64 - d <= pn <= target && TWO_64 - d <= last)
  }

  lemma EpochIsMultiple(x: nat, d: nat) returns (m: nat)
    requires d > 0
    ensures EpochOf(x, d) == m * d
  {
    m := x / d;
  }

  lemma MultiplesApart(m: nat, n: nat, d: nat)
    ensures m == n ==> m * d == n * d
    ensures m == n + 1 ==> m * d == n * d + d
    ensures m >= n + 2 ==> m * d >= n * d + 2 * d
  {
    if m >= n + 2 {
      var k := m - n - 2;
      assert m * d == n * d + 2 * d + k * d;
    }
  }

  // two epochs that differ, differ by at least d
  lemma EpochsApart(d: nat, x: nat, y: nat)
    requires d > 0
    ensures
      var u, v := EpochOf(x, d), EpochOf(y, d);
      u == v || u == v + d || u + d == v || u >= v + 2 * d || u + 2 * d <= v
    ensures EpochOf(x, d) == 0 || EpochOf(x, d) >= d
  {
    hide EpochOf;
    var m := EpochIsMultiple(x, d);
    var n := EpochIsMultiple(y, d);
    MultiplesApart(m, n, d);
    MultiplesApart(n, m, d);
    MultiplesApart(m, 0, d);
  }

  lemma EpochFits(d: nat, x: nat)
    requires IsEpoch(d) && x < TWO_64
    ensures EpochOf(x, d) + d <= TWO_64
    ensures EpochOf(x, d) + d == TWO_64 || EpochOf(x, d) + 2 * d <= TWO_64
    ensures EpochOf(x, d) + d == TWO_64 <==> TWO_64 - d <= x
  {
    var m := EpochIsMultiple(x, d);
    var k := TWO_64 / d;
    assert TWO_64 == k * d;
    hide EpochOf, IsEpoch;
    MultiplesApart(m, k, d);
    MultiplesApart(k, m, d);
  }

  // The choice among the three candidates, in terms of the epoch (a multiple of d that last lies in)
  // and the block (the multiple of d that pn lies in). First, if there is a next epoch.
  lemma NearestOfThree(d: nat, epoch: nat, target: nat, block: nat, w: nat, before: nat)
    requires d % 2 == 0 && w < d && epoch < target <= epoch + d && epoch + 2 * d <= TWO_64 && 4 * d <= TWO_64
    requires before == if epoch == 0 then TWO_64 - d + w else epoch - d + w
    requires epoch == 0 || epoch >= d
    requires block == epoch || block == epoch + d || block + d == epoch || block >= epoch + 2 * d ||
             block + 2 * d <= epoch
    requires block + w < TWO_64
    ensures ClosestTo(target, epoch + w, ClosestTo(target, before, epoch + d + w)) == block + w <==>
      || 2 * Distance(target, block + w) < d
      || (2 * (block + w - target) == d && block > epoch)
      || (2 * (target - (block + w)) == d && block < epoch)
      || (target <= block + w < d)
  {
  }

  // In the last epoch, the third candidate is far away.
  lemma NearestOfTwo(d: nat, epoch: nat, target: nat, block: nat, w: nat)
    requires d % 2 == 0 && w < d && epoch < target < epoch + d && epoch + d == TWO_64 && 4 * d <= TWO_64
    requires block == epoch || block + d == epoch || block + 2 * d <= epoch
    ensures ClosestTo(target, epoch + w, ClosestTo(target, epoch - d + w, w)) == block + w <==>
      || 2 * Distance(target, block + w) < d
      || (2 * (target - (block + w)) == d && block < epoch)
      || (epoch <= block + w <= target)
  {
  }

  // After the last number of all, the third candidate is the closest.
  lemma NearestToZero(d: nat, w: nat)
    requires w < d && 4 * d <= TWO_64
    ensures ClosestTo(0, TWO_64 - d + w, ClosestTo(0, TWO_64 - 2 * d + w, w)) == w
  {
  }

  lemma WrappedCandidates(d: nat, epoch: nat, w: nat)
    requires 0 < d && w < d && epoch + d <= TWO_64 && (epoch == 0 || epoch >= d) && 4 * d <= TWO_64
    requires epoch + d == TWO_64 || epoch + 2 * d <= TWO_64
    ensures Wrap(epoch + w) == epoch + w
    ensures Wrap(Wrap(epoch + d) + w) == if epoch + d == TWO_64 then w else epoch + d + w
    ensures Wrap(Wrap(epoch - d) + w) == if epoch == 0 then TWO_64 - d + w else epoch - d + w
  {
    if epoch == 0 { assert Wrap(0 - d) == TWO_64 - d; }
    if epoch + d == TWO_64 { assert Wrap(TWO_64) == 0; }
  }

  // the parts of the number and of the last one
  lemma Parts(d: nat, last: nat, pn: nat)
    requires IsEpoch(d) && last < TWO_64 && pn < TWO_64
    ensures d > 0 && d % 2 == 0 && 4 * d <= TWO_64 && Low(pn, d) < d
    ensures EpochOf(pn, d) + Low(pn, d) == pn && EpochOf(last, d) <= last < EpochOf(last, d) + d
  {
  }

  lemma InferIsExact(d: nat, last: nat, pn: nat)
    requires IsEpoch(d) && last < TWO_64 && pn < TWO_64
    ensures Candidates(d, last, Low(pn, d)) == pn <==> Recoverable(d, last, pn)
  {
    hide *;
    Parts(d, last, pn);
    var epoch, block, w := EpochOf(last, d), EpochOf(pn, d), Low(pn, d);
    EpochsApart(d, pn, last);
    EpochsApart(d, last, pn);
    EpochFits(d, last);
    EpochFits(d, pn);
    CandidatesAre(d, last, epoch, w);
    RecoverableIs(d, last, pn);
    if last + 1 == TWO_64 {
      NearestToZero(d, w);
    } else if epoch + d == TWO_64 {
      NearestOfTwo(d, epoch, last + 1, block, w);
    } else {
      NearestOfThree(d, epoch, last + 1, block, w, if epoch == 0 then TWO_64 - d + w else epoch - d + w);
    }
  }

  lemma CandidatesAre(d: nat, last: nat, epoch: nat, w: nat)
    requires 0 < d && last < TWO_64 && w < d && epoch == EpochOf(last, d) && 4 * d <= TWO_64
    requires epoch + d <= TWO_64 && (epoch == 0 || epoch >= d) && (epoch + d == TWO_64 || epoch + 2 * d <= TWO_64)
    ensures
      var target := if last + 1 == TWO_64 then 0 else last + 1;
      Candidates(d, last, w) ==
      ClosestTo(target, epoch + w,
        ClosestTo(target, if epoch == 0 then TWO_64 - d + w else epoch - d + w,
          if epoch + d == TWO_64 then w else epoch + d + w))
  {
    hide ClosestTo, EpochOf, Wrap;
    WrappedCandidates(d, epoch, w);
    WrapsToZero();
    if last + 1 < TWO_64 { WrapsNot(last + 1); }
  }

  lemma RecoverableIs(d: nat, last: nat, pn: nat)
    requires d > 0
    ensures Recoverable(d, last, pn) <==>
      var target, epoch, block := last + 1, EpochOf(last, d), EpochOf(pn, d);
      if target == TWO_64 then pn < d
      else
        || 2 * Distance(target, pn) < d
        || (2 * (pn - target) == d && block > epoch)
        || (2 * (target - pn) == d && block < epoch)
        || (target <= pn < d)
        || (TWO_64 - d <= pn <= target && TWO_64 - d <= last)
  {
    hide EpochOf, Distance;
  }

  lemma WrapsNot(x: nat)
    requires x < TWO_64
    ensures Wrap(x) == x
  {
  }

  lemma WrapsToZero()
    ensures Wrap(TWO_64) == 0
  {
  }

  // the length that the sender chooses; it is never a single byte
  function LengthForHeader(pn: nat, leastUnacked: nat): (length: nat)
    ensures length in {1, 2, 4, 6}
    ensures
      var diff := Wrap(pn - leastUnacked);
      length > 1 && (length < 6 ==> 2 * diff < Epoch(length)) &&
      forall shorter :: shorter in {2, 4} && shorter < length ==> 2 * diff >= Epoch(shorter)
  {
    var diff := Wrap(pn - leastUnacked);
    if diff < 0x8000 then 2 else if diff < 0x8000_0000 then 4 else 6
  }

  // the shortest length that holds a packet number
  function LengthFor(pn: nat): (length: nat)
    ensures length in {1, 2, 4, 6}
    ensures pn < 0x1_0000_0000_0000 ==> pn < Epoch(length)
    ensures forall shorter :: shorter in {1, 2, 4} && shorter < length ==> pn >= Epoch(shorter)
  {
    if pn < 0x100 then 1 else if pn < 0x1_0000 then 2 else if pn < 0x1_0000_0000 then 4 else 6
  }

  // A number sent with the chosen length is inferred by a receiver that has seen everything below
  // leastUnacked, unless the receiver is already half an epoch ahead.
  lemma TruncationIsInvertible(pn: nat, leastUnacked: nat, last: nat)
    requires leastUnacked <= pn < leastUnacked + 0x8000_0000_0000
    requires leastUnacked <= last + 1
    requires last + 1 < TWO_64 && pn < TWO_64
    requires 2 * (last + 1 - pn) < Epoch(LengthForHeader(pn, leastUnacked))
    ensures
      var length := LengthForHeader(pn, leastUnacked);
      Infer(length, last, Low(pn, Epoch(length))) == pn
  {
    var length := LengthForHeader(pn, leastUnacked);
    assert Wrap(pn - leastUnacked) == pn - leastUnacked;
    InferIsExact(Epoch(length), last, pn);
  }
}
