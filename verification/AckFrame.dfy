/**
  The ACK frame on the wire. Ranges are sent from the highest down, as blocks of a one-byte gap and
  a length. A gap of more than 255 is spread over blocks of length zero, and a frame holds at most
  255 blocks, so that the lowest ranges may be left out.
 */
module AckWire {
  import opened Basics
  import opened ByteOrder
  import Float16
  import opened PacketNumber

  const TWO_48: nat := 0x1_0000_0000_0000

  datatype AckRange = AckRange(first: nat, last: nat)

  // ranges is empty if nothing is missing; otherwise it goes from the highest range to the lowest
  datatype AckFrame = AckFrame(pathID: Byte, largestAcked: nat, lowestAcked: nat, ranges: seq<AckRange>)

  predicate ValidateAckRanges(f: AckFrame) {
    f.ranges == [] ||
    (|f.ranges| != 1 && f.ranges[0].last == f.largestAcked &&
     (forall i :: 0 <= i < |f.ranges| ==> f.ranges[i].first <= f.ranges[i].last) &&
     (forall i :: 1 <= i < |f.ranges| ==>
       f.ranges[i - 1].first > f.ranges[i].first && f.ranges[i - 1].first > Wrap(f.ranges[i].last + 1)))
  }

  predicate AcksPacket(f: AckFrame, p: nat) {
    f.lowestAcked <= p <= f.largestAcked &&
    (f.ranges == [] || exists i :: 0 <= i < |f.ranges| && f.ranges[i].first <= p <= f.ranges[i].last)
  }

  // ----- ranges as blocks

  datatype Block = Block(gap: Byte, length: nat)

  function Length(r: AckRange): (n: nat)
    requires r.first <= r.last
  {
    r.last - r.first + 1
  }

  // ranges in descending order, with at least one packet missing between neighbours
  predicate Descending(ranges: seq<AckRange>) {
    (forall i :: 0 <= i < |ranges| ==> ranges[i].first <= ranges[i].last) &&
    (forall i :: 1 <= i < |ranges| ==> ranges[i - 1].first > ranges[i].last + 1)
  }

  // a frame as the receiver of packets builds it
  predicate WellFormed(f: AckFrame) {
    f.lowestAcked <= f.largestAcked < TWO_48 &&
    (f.ranges != [] ==>
      |f.ranges| != 1 && Descending(f.ranges) && f.ranges[0].last == f.largestAcked &&
      f.lowestAcked == f.ranges[|f.ranges| - 1].first)
  }

  function Gap(ranges: seq<AckRange>, i: nat): (g: nat)
    requires Descending(ranges) && 1 <= i < |ranges|
    ensures g > 0
  {
    ranges[i - 1].first - ranges[i].last - 1
  }

  function NumBlocks(gap: nat): (n: nat)
    ensures n > 0 <==> gap > 0
  {
    if gap % 255 == 0 then gap / 255 else gap / 255 + 1
  }

  // the blocks of one range
  function LongBlocks(gap: nat, length: nat): (blocks: seq<Block>)
    requires gap > 0
  {
    if gap <= 255 then [Block(gap, length)] else [Block(255, 0)] + LongBlocks(gap - 255, length)
  }

  // the blocks of the ranges from index 1 up to k
  function BlocksOf(ranges: seq<AckRange>, k: nat): (blocks: seq<Block>)
    requires Descending(ranges) && k <= |ranges|
  {
    if k <= 1 then [] else BlocksOf(ranges, k - 1) + LongBlocks(Gap(ranges, k - 1), Length(ranges[k - 1]))
  }

  lemma {:induction false} LongBlocksCount(gap: nat, length: nat)
    requires gap > 0
    ensures |LongBlocks(gap, length)| == NumBlocks(gap)
  {
    if gap > 255 {
      LongBlocksCount(gap - 255, length);
      assert gap / 255 == (gap - 255) / 255 + 1;
    }
  }

  // how many ranges are written, when the first i take up used blocks
  function WritableFrom(ranges: seq<AckRange>, i: nat, used: nat): (k: nat)
    requires Descending(ranges) && 1 <= i <= |ranges|
    ensures i <= k <= |ranges|
    decreases |ranges| - i
  {
    if i < |ranges| && used + NumBlocks(Gap(ranges, i)) < 255
    then WritableFrom(ranges, i + 1, used + NumBlocks(Gap(ranges, i)))
    else i
  }

  function Writable(ranges: seq<AckRange>): (k: nat)
    requires Descending(ranges) && ranges != []
    ensures 1 <= k <= |ranges|
  {
    WritableFrom(ranges, 1, 0)
  }

  lemma {:induction false} WritableFromIsLongest(ranges: seq<AckRange>, i: nat, used: nat)
    requires Descending(ranges) && 1 <= i <= |ranges| && used == |BlocksOf(ranges, i)| <= 254
    ensures
      var k := WritableFrom(ranges, i, used);
      |BlocksOf(ranges, k)| <= 254 && (k < |ranges| ==> |BlocksOf(ranges, k + 1)| > 254)
    decreases |ranges| - i
  {
    hide NumBlocks, LongBlocks, BlocksOf, Gap, Length;
    if i < |ranges| {
      BlocksStep(ranges, i);
      if used + NumBlocks(Gap(ranges, i)) < 255 {
        WritableFromIsLongest(ranges, i + 1, used + NumBlocks(Gap(ranges, i)));
      }
    }
  }

  lemma BlocksStep(ranges: seq<AckRange>, i: nat)
    requires Descending(ranges) && 1 <= i < |ranges|
    ensures |BlocksOf(ranges, i + 1)| == |BlocksOf(ranges, i)| + NumBlocks(Gap(ranges, i))
  {
    LongBlocksCount(Gap(ranges, i), Length(ranges[i]));
  }

  // The written ranges are the longest prefix whose blocks fit.
  lemma WritableIsLongest(ranges: seq<AckRange>)
    requires Descending(ranges) && ranges != []
    ensures
      var k := Writable(ranges);
      |BlocksOf(ranges, k)| <= 254 && (k < |ranges| ==> |BlocksOf(ranges, k + 1)| > 254)
  {
    WritableFromIsLongest(ranges, 1, 0);
  }

  // ----- assembling ranges from blocks

  // what the parser knows after some blocks; the last range is being built while inLongBlock
  datatype Assembly = Assembly(ranges: seq<AckRange>, inLongBlock: bool, lastRangeComplete: bool)

  function Assemble(a: Assembly, b: Block): (a': Assembly)
    requires a.ranges != []
    ensures a'.ranges != []
  {
    var n := |a.ranges| - 1;
    var last := a.ranges[n];
    var ranges :=
      if a.inLongBlock then
        a.ranges[n := AckRange(Wrap(last.first - (b.gap + b.length)), Wrap(last.last - b.gap))]
      else
        var top := Wrap(last.first - b.gap - 1);
        a.ranges + [AckRange(Wrap(top - b.length + 1), top)];
    Assembly(ranges, b.length == 0, b.length > 0 || (a.inLongBlock && a.lastRangeComplete))
  }

  function AssembleAll(a: Assembly, blocks: seq<Block>): (a': Assembly)
    requires a.ranges != []
    ensures a'.ranges != []
    decreases |blocks|
  {
    if blocks == [] then a else AssembleAll(Assemble(a, blocks[0]), blocks[1..])
  }

  lemma {:induction false} AssembleConcat(a: Assembly, x: seq<Block>, y: seq<Block>)
    requires a.ranges != []
    ensures AssembleAll(a, x + y) == AssembleAll(AssembleAll(a, x), y)
    decreases |x|
  {
    if x == [] {
      assert x + y == y;
    } else {
      assert (x + y)[1..] == x[1..] + y;
      AssembleConcat(Assemble(a, x[0]), x[1..], y);
    }
  }

  // The rest of a long gap, when a range that ends at t is being built.
  lemma {:induction false} AssembleTail(done: seq<AckRange>, t: nat, gap: nat, length: nat)
    requires 0 < gap && 0 < length && gap + length <= t + 1 < TWO_64
    ensures
      AssembleAll(Assembly(done + [AckRange(t + 1, t)], true, false), LongBlocks(gap, length)) ==
      Assembly(done + [AckRange(t - gap - length + 1, t - gap)], false, true)
    decreases gap
  {
    hide Wrap;
    var a := Assembly(done + [AckRange(t + 1, t)], true, false);
    var bs := LongBlocks(gap, length);
    if gap <= 255 {
      var r := AckRange(t - gap - length + 1, t - gap);
      assert a.ranges[|done| := r] == done + [r];
      assert AssembleAll(Assemble(a, bs[0]), bs[1..]) == Assemble(a, bs[0]);
    } else {
      assert bs[1..] == LongBlocks(gap - 255, length);
      var r := AckRange(t - 254, t - 255);
      assert a.ranges[|done| := r] == done + [r];
      AssembleTail(done, t - 255, gap - 255, length);
    }
  }

  // The blocks of a range give back the range, however long the gap is.
  lemma AssembleLong(done: seq<AckRange>, complete: bool, gap: nat, length: nat)
    requires done != [] && 0 < gap && 0 < length && gap + length <= done[|done| - 1].first < TWO_64
    ensures
      var first := done[|done| - 1].first;
      AssembleAll(Assembly(done, false, complete), LongBlocks(gap, length)) ==
      Assembly(done + [AckRange(first - gap - length, first - gap - 1)], false, true)
  {
    hide Wrap;
    var a, first := Assembly(done, false, complete), done[|done| - 1].first;
    var bs := LongBlocks(gap, length);
    if gap <= 255 {
      assert AssembleAll(Assemble(a, bs[0]), bs[1..]) == Assemble(a, bs[0]);
    } else {
      assert bs[1..] == LongBlocks(gap - 255, length);
      assert Assemble(a, bs[0]) == Assembly(done + [AckRange(first - 255, first - 256)], true, false);
      AssembleTail(done, first - 256, gap - 255, length);
    }
  }

  lemma {:induction false} AssembleRanges(ranges: seq<AckRange>, k: nat)
    requires Descending(ranges) && 1 <= k <= |ranges| && ranges[0].last < TWO_64
    ensures AssembleAll(Assembly([ranges[0]], false, false), BlocksOf(ranges, k)) == Assembly(ranges[..k], false, k > 1)
  {
    hide Wrap, LongBlocks, Assemble;
    var a := Assembly([ranges[0]], false, false);
    if k == 1 {
      assert ranges[..1] == [ranges[0]];
    } else {
      AssembleRanges(ranges, k - 1);
      FirstBelow(ranges, k - 2);
      var gap, length := Gap(ranges, k - 1), Length(ranges[k - 1]);
      AssembleConcat(a, BlocksOf(ranges, k - 1), LongBlocks(gap, length));
      AssembleLong(ranges[..k - 1], k - 1 > 1, gap, length);
      assert ranges[..k] == ranges[..k - 1] + [ranges[k - 1]];
    }
  }

  lemma {:induction false} FirstBelow(ranges: seq<AckRange>, i: nat)
    requires Descending(ranges) && i < |ranges|
    ensures ranges[i].last <= ranges[0].last
  {
    if i > 0 { FirstBelow(ranges, i - 1); }
  }

  // ----- bytes

  // 1, 2, 4 or 6 bytes are coded in two bits
  function LengthCode(length: nat): (c: nat)
    requires length in {1, 2, 4, 6}
    ensures c < 4 && CodedLength(c) == length
  {
    length / 2
  }

  function CodedLength(code: nat): (length: nat)
    requires code < 4
    ensures length in {1, 2, 4, 6}
  {
    if code == 0 then 1 else 2 * code
  }

  function MaxLength(ranges: seq<AckRange>): (n: nat)
    requires forall i :: 0 <= i < |ranges| ==> ranges[i].first <= ranges[i].last
    ensures forall i :: 0 <= i < |ranges| ==> Length(ranges[i]) <= n
  {
    if ranges == [] then 0
    else
      var m, l := MaxLength(ranges[..|ranges| - 1]), Length(ranges[|ranges| - 1]);
      if l > m then l else m
  }

  // the bytes of a block length: enough for the longest range
  function DeltaLength(f: AckFrame): (n: nat)
    requires WellFormed(f)
    ensures n in {1, 2, 4, 6}
  {
    var m := if f.ranges != [] then MaxLength(f.ranges) else f.largestAcked - f.lowestAcked + 1;
    if m <= 0xFF then 1 else if m <= 0xFFFF then 2 else if m <= 0xFFFF_FFFF then 4 else 6
  }

  // No fewer bytes would do for the longest range.
  lemma DeltaLengthIsLeast(f: AckFrame, fewer: nat)
    requires WellFormed(f) && fewer in {1, 2, 4} && fewer < DeltaLength(f)
    ensures if f.ranges == [] then f.largestAcked - f.lowestAcked + 1 >= Epoch(fewer)
            else exists i :: 0 <= i < |f.ranges| && Length(f.ranges[i]) >= Epoch(fewer)
  {
    if f.ranges != [] { var i := LongestRange(f.ranges); }
  }

  lemma {:induction false} LongestRange(ranges: seq<AckRange>) returns (i: nat)
    requires ranges != [] && forall i :: 0 <= i < |ranges| ==> ranges[i].first <= ranges[i].last
    ensures i < |ranges| && Length(ranges[i]) == MaxLength(ranges)
  {
    var k := |ranges| - 1;
    if k > 0 && MaxLength(ranges[..k]) >= Length(ranges[k]) { i := LongestRange(ranges[..k]); } else { i := k; }
  }

  function TypeByte(missing: bool, withPath: bool, largestLength: nat, deltaLength: nat): (t: Byte)
    requires largestLength in {1, 2, 4, 6} && deltaLength in {1, 2, 4, 6}
  {
    0x40 + (if missing then 0x20 else 0) + (if withPath then 0x10 else 0) +
    4 * LengthCode(largestLength) + LengthCode(deltaLength)
  }

  function EncodeBlocks(o: Order, n: nat, blocks: seq<Block>): (bytes: seq<Byte>) {
    if blocks == [] then [] else [blocks[0].gap] + Write(o, blocks[0].length, n) + EncodeBlocks(o, n, blocks[1..])
  }

  // everything before the blocks
  datatype Prefix = Prefix(pathID: Byte, largestAcked: nat, delay: nat, missing: bool, deltaLength: nat,
                           numBlocks: Byte, firstLength: nat)

  function EncodePrefix(o: Order, p: Prefix): (bytes: seq<Byte>)
    requires p.deltaLength in {1, 2, 4, 6}
  {
    [TypeByte(p.missing, p.pathID != 0, LengthFor(p.largestAcked), p.deltaLength)] + Given(p.pathID != 0, p.pathID) +
    Write(o, p.largestAcked, LengthFor(p.largestAcked)) + Write(o, p.delay, 2) +
    Given(p.missing, p.numBlocks) + Write(o, p.firstLength, p.deltaLength)
  }

  // a byte that may be left out
  function Given(given: bool, b: Byte): (bytes: seq<Byte>) {
    if given then [b] else []
  }

  function ReadGiven(given: bool, input: seq<Byte>): (r: Result<(Byte, seq<Byte>)>) {
    if given then ReadByte(input) else Ok((0, input))
  }

  lemma GivenThenRead(given: bool, b: Byte, rest: seq<Byte>)
    ensures ReadGiven(given, Given(given, b) + rest) == Ok((if given then b else 0, rest))
  {
    if given { WriteThenReadByte(b, rest); } else { assert Given(given, b) + rest == rest; }
  }

  lemma Regroup(a: seq<Byte>, b: seq<Byte>, c: seq<Byte>, d: seq<Byte>, e: seq<Byte>, f: seq<Byte>, rest: seq<Byte>)
    ensures a + b + c + d + e + f + rest == a + (b + (c + (d + (e + (f + rest)))))
  {
  }

  function ParsePrefix(o: Order, input: seq<Byte>): (r: Result<(Prefix, seq<Byte>)>)
    ensures r.Ok? ==>
            |r.value.1| < |input| && r.value.0.delay < 0x1_0000 && (r.value.0.missing ==> r.value.0.numBlocks > 0)
  {
    Powers();
    var (t, i1) :- ReadByte(input);
    var missing := t / 0x20 % 2 == 1;
    var largestLength, deltaLength := CodedLength(t / 4 % 4), CodedLength(t % 4);
    var (pathID, i2) :- ReadGiven(t / 0x10 % 2 == 1, i1);
    var (largest, i3) :- Read(o, i2, largestLength);
    var (delay, i4) :- Read(o, i3, 2);
    var (numBlocks, i5) :- ReadGiven(missing, i4);
    if missing && numBlocks == 0 then Err(InvalidAckRanges) else
    var (first, i6) :- Read(o, i5, deltaLength);
    Ok((Prefix(pathID, largest, delay, missing, deltaLength, numBlocks, first), i6))
  }

  ghost predicate Writes(p: Prefix) {
    p.deltaLength in {1, 2, 4, 6} && p.largestAcked < TWO_48 && p.delay < 0x1_0000 &&
    p.firstLength < Epoch(p.deltaLength) && (p.missing <==> p.numBlocks > 0)
  }

  lemma BitFields(m: nat, p: nat, l: nat, d: nat)
    requires m < 2 && p < 2 && l < 4 && d < 4
    ensures
      var t := 0x40 + 0x20 * m + 0x10 * p + 4 * l + d;
      t / 0x20 % 2 == m && t / 0x10 % 2 == p && t / 4 % 4 == l && t % 4 == d
  {
    var t := 0x40 + 0x20 * m + 0x10 * p + 4 * l + d;
    assert t / 0x20 == 2 + m && t / 0x10 == 4 + 2 * m + p && t / 4 == 16 + 8 * m + 4 * p + l;
  }

  lemma TypeByteFields(missing: bool, withPath: bool, largestLength: nat, deltaLength: nat)
    requires largestLength in {1, 2, 4, 6} && deltaLength in {1, 2, 4, 6}
    ensures
      var t := TypeByte(missing, withPath, largestLength, deltaLength);
      t / 0x20 % 2 == (if missing then 1 else 0) && t / 0x10 % 2 == (if withPath then 1 else 0) &&
      t / 4 % 4 == LengthCode(largestLength) && t % 4 == LengthCode(deltaLength) && 0x40 <= t < 0x80
  {
    hide *;
    var m, p, l, d := if missing then 1 else 0, if withPath then 1 else 0, LengthCode(largestLength),
      LengthCode(deltaLength);
    TypeByteIs(missing, withPath, largestLength, deltaLength);
    BitFields(m, p, l, d);
  }

  lemma TypeByteIs(missing: bool, withPath: bool, largestLength: nat, deltaLength: nat)
    requires largestLength in {1, 2, 4, 6} && deltaLength in {1, 2, 4, 6}
    ensures LengthCode(largestLength) < 4 && LengthCode(deltaLength) < 4
    ensures TypeByte(missing, withPath, largestLength, deltaLength) ==
            0x40 + 0x20 * (if missing then 1 else 0) + 0x10 * (if withPath then 1 else 0) +
            4 * LengthCode(largestLength) + LengthCode(deltaLength)
  {
    hide LengthCode;
  }

  // the fields of a prefix, read one after the other
  lemma PrefixSteps(o: Order, p: Prefix, largestLength: nat, i0: seq<Byte>, t: Byte, i1: seq<Byte>, i2: seq<Byte>,
                    i3: seq<Byte>, i4: seq<Byte>, i5: seq<Byte>, i6: seq<Byte>)
    requires ReadByte(i0) == Ok((t, i1))
    requires t / 0x20 % 2 == (if p.missing then 1 else 0) && t / 0x10 % 2 == (if p.pathID != 0 then 1 else 0)
    requires CodedLength(t / 4 % 4) == largestLength && CodedLength(t % 4) == p.deltaLength
    requires ReadGiven(p.pathID != 0, i1) == Ok((p.pathID, i2)) &&
             Read(o, i2, largestLength) == Ok((p.largestAcked, i3))
    requires Read(o, i3, 2) == Ok((p.delay, i4)) && ReadGiven(p.missing, i4) == Ok((p.numBlocks, i5))
    requires p.missing <==> p.numBlocks > 0
    requires Read(o, i5, p.deltaLength) == Ok((p.firstLength, i6))
    ensures ParsePrefix(o, i0) == Ok((p, i6))
  {
    hide Read, ReadByte, ReadGiven, CodedLength;
  }

  lemma PrefixBytes(o: Order, p: Prefix, rest: seq<Byte>)
    requires p.deltaLength in {1, 2, 4, 6}
    ensures
      var ll := LengthFor(p.largestAcked);
      EncodePrefix(o, p) + rest ==
      [TypeByte(p.missing, p.pathID != 0, ll, p.deltaLength)] + (Given(p.pathID != 0, p.pathID) +
      (Write(o, p.largestAcked, ll) + (Write(o, p.delay, 2) + (Given(p.missing, p.numBlocks) +
      (Write(o, p.firstLength, p.deltaLength) + rest)))))
  {
    hide Given, Write, TypeByte, LengthFor;
    var ll := LengthFor(p.largestAcked);
    Regroup([TypeByte(p.missing, p.pathID != 0, ll, p.deltaLength)], Given(p.pathID != 0, p.pathID),
            Write(o, p.largestAcked, ll), Write(o, p.delay, 2), Given(p.missing, p.numBlocks),
            Write(o, p.firstLength, p.deltaLength), rest);
  }

  // how much room the fields have
  lemma FieldsFit(p: Prefix)
    requires Writes(p)
    ensures LengthFor(p.largestAcked) in {1, 2, 4, 6} && p.largestAcked < Pow256(LengthFor(p.largestAcked))
    ensures p.delay < Pow256(2) && p.firstLength < Pow256(p.deltaLength)
  {
    EpochIsPower(LengthFor(p.largestAcked));
    EpochIsPower(p.deltaLength);
    EpochIsPower(2);
  }

  lemma CodesBack(length: nat)
    requires length in {1, 2, 4, 6}
    ensures LengthCode(length) < 4 && CodedLength(LengthCode(length)) == length
  {
  }

  lemma PrefixRoundTrip(o: Order, p: Prefix, rest: seq<Byte>)
    requires Writes(p)
    ensures ParsePrefix(o, EncodePrefix(o, p) + rest) == Ok((p, rest))
  {
    hide Read, ReadByte, ReadGiven, Given, Write, TypeByte, LengthCode, CodedLength, LengthFor, ParsePrefix,
         EncodePrefix, Pow256, Epoch;
    var ll := LengthFor(p.largestAcked);
    FieldsFit(p);
    CodesBack(ll);
    CodesBack(p.deltaLength);
    var t := TypeByte(p.missing, p.pathID != 0, ll, p.deltaLength);
    TypeByteFields(p.missing, p.pathID != 0, ll, p.deltaLength);
    var i5 := Write(o, p.firstLength, p.deltaLength) + rest;
    var i4 := Given(p.missing, p.numBlocks) + i5;
    var i3 := Write(o, p.delay, 2) + i4;
    var i2 := Write(o, p.largestAcked, ll) + i3;
    var i1 := Given(p.pathID != 0, p.pathID) + i2;
    PrefixBytes(o, p, rest);
    WriteThenReadByte(t, i1);
    GivenThenRead(p.pathID != 0, p.pathID, i2);
    WriteThenRead(o, p.largestAcked, ll, i3);
    WriteThenRead(o, p.delay, 2, i4);
    GivenThenRead(p.missing, p.numBlocks, i5);
    WriteThenRead(o, p.firstLength, p.deltaLength, rest);
    PrefixSteps(o, p, ll, [t] + i1, t, i1, i2, i3, i4, i5, rest);
  }

  lemma EpochIsPower(length: nat)
    requires length in {1, 2, 4, 6}
    ensures Epoch(length) == Pow256(length)
  {
    Powers();
  }

  // ----- the frame

  // the ranges that are written
  function Sent(f: AckFrame): (s: AckFrame)
    requires WellFormed(f)
  {
    if f.ranges == [] then f else
    var k := Writable(f.ranges);
    f.(ranges := f.ranges[..k], lowestAcked := f.ranges[k - 1].first)
  }

  function SentBlocks(f: AckFrame): (blocks: seq<Block>)
    requires WellFormed(f)
    ensures |blocks| <= 254
  {
    if f.ranges == [] then [] else WritableIsLongest(f.ranges); BlocksOf(f.ranges, Writable(f.ranges))
  }

  // the gap below the highest range leaves room for at least one more range
  predicate FirstGapFits(f: AckFrame)
    requires WellFormed(f)
  {
    f.ranges == [] || Gap(f.ranges, 1) <= 254 * 255
  }

  lemma FirstGapDecides(f: AckFrame)
    requires WellFormed(f) && f.ranges != []
    ensures FirstGapFits(f) <==> Writable(f.ranges) >= 2
    ensures FirstGapFits(f) <==> SentBlocks(f) != []
  {
    WritableIsLongest(f.ranges);
    LongBlocksCount(Gap(f.ranges, 1), Length(f.ranges[1]));
    BlocksGrow(f.ranges, 2, Writable(f.ranges));
    assert BlocksOf(f.ranges, 2) == LongBlocks(Gap(f.ranges, 1), Length(f.ranges[1]));
  }

  lemma {:induction false} BlocksGrow(ranges: seq<AckRange>, j: nat, k: nat)
    requires Descending(ranges) && j <= |ranges| && k <= |ranges|
    ensures j <= k ==> |BlocksOf(ranges, j)| <= |BlocksOf(ranges, k)|
    decreases k
  {
    if j < k { BlocksGrow(ranges, j, k - 1); }
  }

  function FirstLength(f: AckFrame): (n: nat)
    requires WellFormed(f)
  {
    f.largestAcked - (if f.ranges == [] then f.lowestAcked else f.ranges[0].first) + 1
  }

  function PrefixOf(f: AckFrame, delay: nat): (p: Prefix)
    requires WellFormed(f)
  {
    Prefix(f.pathID, f.largestAcked, Float16.Representation(delay), f.ranges != [], DeltaLength(f), |SentBlocks(f)|,
      FirstLength(f))
  }

  // delay in microseconds
  function Encode(o: Order, f: AckFrame, delay: nat): (bytes: seq<Byte>)
    requires WellFormed(f)
  {
    EncodePrefix(o, PrefixOf(f, delay)) + EncodeBlocks(o, DeltaLength(f), SentBlocks(f)) + [0]
  }

  // Where the fields are: type, path, largest acknowledged, delay, number of blocks and the first of them.
  lemma PrefixLayout(o: Order, p: Prefix)
    requires p.deltaLength in {1, 2, 4, 6}
    ensures
      var b, l := EncodePrefix(o, p), LengthFor(p.largestAcked);
      var i := if p.pathID != 0 then 2 else 1;
      var j := i + l + 2;
      var k := if p.missing then j + 1 else j;
      |b| == k + p.deltaLength && (p.pathID != 0 ==> b[1] == p.pathID) && b[i..i + l] == Write(o, p.largestAcked, l) &&
      b[i + l..j] == Write(o, p.delay, 2) && (p.missing ==> b[j] == p.numBlocks) &&
      b[k..] == Write(o, p.firstLength, p.deltaLength) && 0x40 <= b[0] < 0x80 &&
      b[0] / 0x20 % 2 == (if p.missing then 1 else 0) && b[0] / 0x10 % 2 == (if p.pathID != 0 then 1 else 0) &&
      CodedLength(b[0] / 4 % 4) == l && CodedLength(b[0] % 4) == p.deltaLength
  {
    hide Write, TypeByte, LengthFor, LengthCode, CodedLength;
    var l := LengthFor(p.largestAcked);
    TypeByteFields(p.missing, p.pathID != 0, l, p.deltaLength);
    var t := TypeByte(p.missing, p.pathID != 0, l, p.deltaLength);
    var path, num := Given(p.pathID != 0, p.pathID), Given(p.missing, p.numBlocks);
    Slices([t], path, Write(o, p.largestAcked, l), Write(o, p.delay, 2), num, Write(o, p.firstLength, p.deltaLength));
  }

  // the bytes of blocks with lengths of n bytes
  function BlocksLength(n: nat, count: nat): (length: nat) {
    (1 + n) * count
  }

  function MinLength(f: AckFrame): (n: nat)
    requires WellFormed(f)
  {
    1 + 2 + 1 + LengthFor(f.largestAcked) +
    (if f.ranges != [] then BlocksLength(DeltaLength(f), |SentBlocks(f)| + 1) else DeltaLength(f)) +
    (if f.pathID != 0 then 1 else 0)
  }

  lemma OneMoreBlock(n: nat, count: nat)
    ensures BlocksLength(n, count + 1) == BlocksLength(n, count) + 1 + n && BlocksLength(n, 0) == 0
  {
    assert (1 + n) * (count + 1) == (1 + n) * count + (1 + n);
  }

  lemma {:induction false} BlockBytes(o: Order, n: nat, blocks: seq<Block>)
    ensures |EncodeBlocks(o, n, blocks)| == BlocksLength(n, |blocks|)
  {
    hide BlocksLength;
    OneMoreBlock(n, if blocks == [] then 0 else |blocks| - 1);
    if blocks != [] { BlockBytes(o, n, blocks[1..]); }
  }

  lemma PrefixLength(o: Order, p: Prefix)
    requires p.deltaLength in {1, 2, 4, 6}
    ensures |EncodePrefix(o, p)| == 3 + LengthFor(p.largestAcked) + (if p.pathID != 0 then 1 else 0) +
            (if p.missing then 1 else 0) + p.deltaLength
  {
    hide Write, TypeByte, LengthFor;
  }

  // The length that is announced before writing is the length that is written.
  lemma EncodedLength(o: Order, f: AckFrame, delay: nat)
    requires WellFormed(f)
    ensures |Encode(o, f, delay)| == MinLength(f)
  {
    hide EncodePrefix, EncodeBlocks, LengthFor, DeltaLength, SentBlocks, BlocksLength, WellFormed, PrefixOf;
    PrefixFields(f, delay);
    PrefixLength(o, PrefixOf(f, delay));
    BlockBytes(o, DeltaLength(f), SentBlocks(f));
    OneMoreBlock(DeltaLength(f), |SentBlocks(f)|);
    if f.ranges == [] { NoBlocks(f); }
  }

  // An ACK frame leaves room in a packet, unless it acknowledges more than 2^32 packets in a row.
  lemma AckFits(f: AckFrame)
    requires WellFormed(f) && DeltaLength(f) <= 4
    ensures MinLength(f) <= 1286
  {
    hide DeltaLength, SentBlocks, LengthFor;
    var n, m := DeltaLength(f), |SentBlocks(f)| + 1;
    assert (1 + n) * m <= 5 * 255 by { Monotone(1 + n, m); }
  }

  lemma Monotone(a: nat, b: nat)
    requires a <= 5 && b <= 255
    ensures a * b <= 5 * 255
  {
    assert a * b <= 5 * b;
  }

  // a long range, and below it k single packets with one missing before each
  function Comb(k: nat): (f: AckFrame)
    requires 0 < k < 500
  {
    AckFrame(0, 0x2_0000_0000, 1000 - 2 * k,
             seq(k + 1, i requires 0 <= i <= k => if i == 0 then AckRange(1000, 0x2_0000_0000)
               else AckRange(1000 - 2 * i, 1000 - 2 * i)))
  }

  lemma {:induction false} CombBlocks(ranges: seq<AckRange>, k: nat)
    requires Descending(ranges) && 1 <= k <= |ranges| && forall i :: 1 <= i < |ranges| ==> Gap(ranges, i) == 1
    ensures |BlocksOf(ranges, k)| == k - 1
  {
    if k > 1 { CombBlocks(ranges, k - 1); }
  }

  lemma CombIsWellFormed(k: nat)
    requires 0 < k < 500
    ensures var f := Comb(k);
      WellFormed(f) && f.pathID == 0 && f.largestAcked == 0x2_0000_0000 && |f.ranges| == k + 1 &&
      f.ranges[0] == AckRange(1000, 0x2_0000_0000) && forall i :: 1 <= i < |f.ranges| ==> Gap(f.ranges, i) == 1
  {
  }

  lemma CombIsSent(f: AckFrame)
    requires WellFormed(f) && |f.ranges| == 255 && forall i :: 1 <= i < |f.ranges| ==> Gap(f.ranges, i) == 1
    ensures |SentBlocks(f)| == 254
  {
    hide BlocksOf, Writable, WellFormed, Descending, Gap;
    SentBlocksOf(f);
    WritableIsLongest(f.ranges);
    CombBlocks(f.ranges, Writable(f.ranges));
    if Writable(f.ranges) < |f.ranges| { CombBlocks(f.ranges, Writable(f.ranges) + 1); }
  }

  // It is not true that an ACK frame always fits into a packet.
  lemma AckMayNotFit()
    ensures var f := Comb(254); WellFormed(f) && Receivable(f) && FirstGapFits(f) && MinLength(f) == 1795
  {
    CombIsWellFormed(254);
    hide Comb, SentBlocks, MaxLength, Descending;
    var f := Comb(254);
    CombIsSent(f);
    assert Length(f.ranges[0]) <= MaxLength(f.ranges);
  }

  lemma NoBlocks(f: AckFrame)
    requires WellFormed(f) && f.ranges == []
    ensures SentBlocks(f) == []
  {
  }

  // ----- parsing

  function ParseBlocks(o: Order, n: nat, input: seq<Byte>, count: nat, a: Assembly): (r: Result<(Assembly, seq<Byte>)>)
    requires a.ranges != []
    ensures r.Ok? ==> r.value.0.ranges != [] && |r.value.1| <= |input|
    decreases count
  {
    if count == 0 then Ok((a, input)) else
    var (gap, i1) :- ReadByte(input);
    var (length, i2) :- Read(o, i1, n);
    ParseBlocks(o, n, i2, count - 1, Assemble(a, Block(gap, length)))
  }

  function SkipTimes(o: Order, input: seq<Byte>, count: nat): (r: Result<seq<Byte>>)
    ensures r.Ok? ==> |r.value| <= |input|
  {
    if count == 0 then Ok(input) else
    var (_, i1) :- ReadByte(input);
    var (_, i2) :- Read(o, i1, 2);
    SkipTimes(o, i2, count - 1)
  }

  function SkipTimestamps(o: Order, input: seq<Byte>): (r: Result<seq<Byte>>)
    ensures r.Ok? ==> |r.value| <= |input|
  {
    var (count, i1) :- ReadByte(input);
    if count == 0 then Ok(i1) else
    var (_, i2) :- ReadByte(i1);
    var (_, i3) :- Read(o, i2, 4);
    SkipTimes(o, i3, count - 1)
  }

  lemma {:induction false} TimesAreSkipped(o: Order, input: seq<Byte>, count: nat)
    ensures SkipTimes(o, input, count) ==
            if |input| < 3 * count then Err(EndOfInput) else Ok(input[3 * count..])
    decreases count
  {
    hide Value;
    if count > 0 && |input| >= 3 {
      TimesAreSkipped(o, input[3..], count - 1);
      assert input[1..][2..] == input[3..];
      if |input| >= 3 * count { assert input[3..][3 * (count - 1)..] == input[3 * count..]; }
    }
  }

  // The timestamps take two bytes and three for each of them, after their number; without any, only that.
  lemma TimestampsAreSkipped(o: Order, count: Byte, input: seq<Byte>)
    ensures
      var length := if count == 0 then 0 else 2 + 3 * count;
      SkipTimestamps(o, [count] + input) == if |input| < length then Err(EndOfInput) else Ok(input[length..])
  {
    hide Value, SkipTimes;
    assert ([count] + input)[1..] == input;
    if count > 0 && |input| >= 5 {
      TimesAreSkipped(o, input[5..], count - 1);
      assert input[1..][4..] == input[5..];
      if |input| >= 2 + 3 * count { assert input[5..][3 * (count - 1)..] == input[2 + 3 * count..]; }
    }
  }

  // the ranges of an assembly; a last range that was never completed is dropped
  function Complete(a: Assembly): (ranges: seq<AckRange>) {
    if a.lastRangeComplete || a.ranges == [] then a.ranges else a.ranges[..|a.ranges| - 1]
  }

  function ParseRanges(o: Order, p: Prefix, input: seq<Byte>): (r: Result<(AckFrame, seq<Byte>)>)
    requires p.firstLength <= p.largestAcked
    ensures r.Ok? ==> |r.value.1| <= |input|
  {
    if p.missing then
      var first := AckRange(p.largestAcked - p.firstLength + 1, p.largestAcked);
      var (a, rest) :- ParseBlocks(o, p.deltaLength, input, p.numBlocks, Assembly([first], false, false));
      var ranges := Complete(a);
      if ranges == [] then Err(InvalidAckRanges) else
      Ok((AckFrame(p.pathID, p.largestAcked, ranges[|ranges| - 1].first, ranges), rest))
    else
      var lowest := if p.largestAcked == 0 then 0 else p.largestAcked + 1 - p.firstLength;
      Ok((AckFrame(p.pathID, p.largestAcked, lowest, []), input))
  }

  // the frame, the delay in microseconds, and the input after the frame
  function Parse(o: Order, input: seq<Byte>): (r: Result<(AckFrame, nat, seq<Byte>)>)
    ensures r.Ok? ==> ValidateAckRanges(r.value.0) && |r.value.2| < |input|
  {
    var (p, i1) :- ParsePrefix(o, input);
    if p.largestAcked > 0 && p.firstLength < 1 then Err(InvalidFirstAckRange)
    else if p.firstLength > p.largestAcked then Err(InvalidAckRanges)
    else
      var (f, i2) :- ParseRanges(o, p, i1);
      if !ValidateAckRanges(f) then Err(InvalidAckRanges) else
      var rest :- SkipTimestamps(o, i2);
      Ok((f, Float16.Decode(p.delay), rest))
  }

  // Blocks without a length leave the last range unfinished, and it is dropped: the ranges are those from before.
  lemma UnfinishedIsDropped(a: Assembly, blocks: seq<Block>)
    requires a.ranges != [] && !a.inLongBlock && blocks != []
    requires forall i :: 0 <= i < |blocks| ==> blocks[i].length == 0
    ensures Complete(AssembleAll(a, blocks)) == a.ranges
  {
    hide Wrap;
    UnfinishedStays(Assemble(a, blocks[0]), blocks[1..]);
  }

  lemma {:induction false} UnfinishedStays(a: Assembly, blocks: seq<Block>)
    requires a.ranges != [] && a.inLongBlock && !a.lastRangeComplete
    requires forall i :: 0 <= i < |blocks| ==> blocks[i].length == 0
    ensures Complete(AssembleAll(a, blocks)) == a.ranges[..|a.ranges| - 1]
    decreases |blocks|
  {
    hide Wrap;
    if blocks != [] { UnfinishedStays(Assemble(a, blocks[0]), blocks[1..]); }
  }

  lemma {:induction false} LowestIsLast(f: AckFrame, i: nat)
    requires ValidateAckRanges(f) && i < |f.ranges|
    ensures f.ranges[|f.ranges| - 1].first <= f.ranges[i].first
    decreases |f.ranges| - i
  {
    hide Wrap;
    if i + 1 < |f.ranges| { LowestIsLast(f, i + 1); }
  }

  // what an accepted frame says of the packets at both ends
  ghost predicate IsSensible(f: AckFrame) {
    AcksPacket(f, f.largestAcked) && (forall i :: 0 <= i < |f.ranges| ==> f.lowestAcked <= f.ranges[i].first) &&
    (f.ranges == [] && f.lowestAcked == 0 ==> f.largestAcked == 0)
  }

  lemma RangesAreSensible(f: AckFrame)
    requires ValidateAckRanges(f) && f.ranges != [] && f.lowestAcked == f.ranges[|f.ranges| - 1].first
    ensures IsSensible(f)
  {
    forall i | 0 <= i < |f.ranges| ensures f.lowestAcked <= f.ranges[i].first { LowestIsLast(f, i); }
    assert f.ranges[0].first <= f.largestAcked <= f.ranges[0].last;
  }

  lemma WholeIsSensible(f: AckFrame)
    requires f.ranges == [] && f.lowestAcked <= f.largestAcked && (f.lowestAcked == 0 ==> f.largestAcked == 0)
    ensures IsSensible(f)
  {
  }

  // Every frame that is accepted acknowledges its largest packet, none of its ranges begins below the lowest, and
  // only a frame for packet 0 alone claims packet 0 without naming ranges.
  lemma ParsedIsSensible(o: Order, input: seq<Byte>)
    requires Parse(o, input).Ok?
    ensures IsSensible(Parse(o, input).value.0)
  {
    hide ParsePrefix, ParseBlocks, Complete, SkipTimestamps, Float16.Decode, ValidateAckRanges, IsSensible;
    var f := Parse(o, input).value.0;
    if f.ranges == [] { WholeIsSensible(f); } else { RangesAreSensible(f); }
  }

  // ----- the round trip

  lemma {:induction false} ParseBlocksBack(o: Order, n: nat, blocks: seq<Block>, a: Assembly, rest: seq<Byte>)
    requires a.ranges != [] && forall i :: 0 <= i < |blocks| ==> blocks[i].length < Pow256(n)
    ensures ParseBlocks(o, n, EncodeBlocks(o, n, blocks) + rest, |blocks|, a) == Ok((AssembleAll(a, blocks), rest))
    decreases |blocks|
  {
    hide Assemble, Read, ReadByte, Write;
    if blocks == [] {
      assert EncodeBlocks(o, n, blocks) + rest == rest;
    } else {
      var b, tail := blocks[0], EncodeBlocks(o, n, blocks[1..]) + rest;
      assert EncodeBlocks(o, n, blocks) + rest == [b.gap] + (Write(o, b.length, n) + tail);
      WriteThenReadByte(b.gap, Write(o, b.length, n) + tail);
      WriteThenRead(o, b.length, n, tail);
      ParseBlocksBack(o, n, blocks[1..], Assemble(a, b), rest);
    }
  }

  // Packet number 0 does not exist: a frame without missing packets that reaches down to 0 is rejected.
  predicate Receivable(f: AckFrame) {
    f.ranges != [] || f.lowestAcked > 0
  }

  lemma RangesFit(f: AckFrame, i: nat)
    requires WellFormed(f) && i < |f.ranges|
    ensures Length(f.ranges[i]) <= f.largestAcked
  {
    FirstBelow(f.ranges, i);
    if i > 0 {
      assert f.ranges[i - 1].first > f.ranges[i].last + 1;
      FirstBelow(f.ranges, i - 1);
    } else {
      assert f.ranges[0].first > f.ranges[1].last + 1;
    }
  }

  lemma LengthsFit(f: AckFrame)
    requires WellFormed(f) && Receivable(f)
    ensures FirstLength(f) < Epoch(DeltaLength(f)) && 1 <= FirstLength(f) <= f.largestAcked
    ensures forall i :: 0 <= i < |f.ranges| ==> Length(f.ranges[i]) < Epoch(DeltaLength(f))
  {
    if f.ranges != [] {
      forall i | 0 <= i < |f.ranges| ensures Length(f.ranges[i]) < Epoch(DeltaLength(f)) {
        RangesFit(f, i);
        assert Length(f.ranges[i]) <= MaxLength(f.ranges);
      }
      RangesFit(f, 0);
      assert Length(f.ranges[0]) == FirstLength(f);
    }
  }

  lemma {:induction false} LongBlockLengths(gap: nat, length: nat, bound: nat)
    requires gap > 0 && length < bound
    ensures forall i :: 0 <= i < |LongBlocks(gap, length)| ==> LongBlocks(gap, length)[i].length < bound
  {
    if gap > 255 { LongBlockLengths(gap - 255, length, bound); }
  }

  lemma {:induction false} BlockLengths(ranges: seq<AckRange>, k: nat, bound: nat)
    requires Descending(ranges) && k <= |ranges| && forall i :: 0 <= i < |ranges| ==> Length(ranges[i]) < bound
    ensures forall i :: 0 <= i < |BlocksOf(ranges, k)| ==> BlocksOf(ranges, k)[i].length < bound
  {
    if k > 1 {
      BlockLengths(ranges, k - 1, bound);
      LongBlockLengths(Gap(ranges, k - 1), Length(ranges[k - 1]), bound);
    }
  }

  lemma PrefixOfWrites(f: AckFrame, delay: nat)
    requires WellFormed(f) && Receivable(f) && FirstGapFits(f)
    ensures Writes(PrefixOf(f, delay))
  {
    hide SentBlocks, DeltaLength, FirstLength, Epoch;
    LengthsFit(f);
    if f.ranges != [] { FirstGapDecides(f); } else { NoBlocks(f); }
  }

  lemma DescendingIsValid(f: AckFrame)
    requires WellFormed(f)
    ensures ValidateAckRanges(f)
  {
    forall i | 0 <= i < |f.ranges| ensures f.ranges[i].last <= f.largestAcked {
      FirstBelow(f.ranges, i);
    }
  }

  lemma SentIsValid(f: AckFrame)
    requires WellFormed(f) && FirstGapFits(f)
    ensures WellFormed(Sent(f)) && ValidateAckRanges(Sent(f))
  {
    hide ValidateAckRanges;
    if f.ranges != [] {
      FirstGapDecides(f);
      hide Writable, SentBlocks, FirstGapFits;
      FirstBelow(f.ranges, Writable(f.ranges) - 1);
    }
    DescendingIsValid(Sent(f));
  }

  lemma FirstRange(f: AckFrame)
    requires WellFormed(f) && f.ranges != []
    ensures f.ranges[0] == AckRange(f.largestAcked - FirstLength(f) + 1, f.largestAcked)
  {
  }

  lemma ParseMissingBack(o: Order, f: AckFrame, rest: seq<Byte>)
    requires WellFormed(f) && f.ranges != [] && FirstGapFits(f)
    ensures
      ParseBlocks(o, DeltaLength(f), EncodeBlocks(o, DeltaLength(f), SentBlocks(f)) + rest, |SentBlocks(f)|,
                  Assembly([f.ranges[0]], false, false)) ==
      Ok((Assembly(Sent(f).ranges, false, true), rest))
  {
    var k := Writable(f.ranges);
    FirstGapDecides(f);
    LengthsFit(f);
    AssembleRanges(f.ranges, k);
    hide DeltaLength, EncodeBlocks, BlocksOf, AssembleAll, Writable, ParseBlocks, Epoch, WellFormed, FirstGapFits,
         FirstLength;
    EpochIsPower(DeltaLength(f));
    BlockLengths(f.ranges, k, Epoch(DeltaLength(f)));
    ParseBlocksBack(o, DeltaLength(f), SentBlocks(f), Assembly([f.ranges[0]], false, false), rest);
  }

  lemma ParseRangesOf(o: Order, p: Prefix, input: seq<Byte>, ranges: seq<AckRange>, rest: seq<Byte>)
    requires p.missing && p.firstLength <= p.largestAcked && ranges != []
    requires ParseBlocks(o, p.deltaLength, input, p.numBlocks,
                         Assembly([AckRange(p.largestAcked - p.firstLength + 1, p.largestAcked)], false, false)) ==
             Ok((Assembly(ranges, false, true), rest))
    ensures ParseRanges(o, p, input) ==
            Ok((AckFrame(p.pathID, p.largestAcked, ranges[|ranges| - 1].first, ranges), rest))
  {
    hide ParseBlocks;
  }

  lemma ParseRangesBack(o: Order, f: AckFrame, delay: nat, rest: seq<Byte>)
    requires WellFormed(f) && Receivable(f) && FirstGapFits(f)
    ensures FirstLength(f) <= f.largestAcked
    ensures ParseRanges(o, PrefixOf(f, delay), EncodeBlocks(o, DeltaLength(f), SentBlocks(f)) + rest) ==
            Ok((Sent(f), rest))
  {
    hide *;
    LengthsFit(f);
    PrefixFields(f, delay);
    var p, bytes := PrefixOf(f, delay), EncodeBlocks(o, DeltaLength(f), SentBlocks(f));
    if f.ranges == [] {
      NoBlocks(f);
      NoBlockBytes(o, DeltaLength(f));
      assert bytes + rest == rest;
      ParseAllOf(o, f, p, rest);
    } else {
      FirstRange(f);
      ParseMissingBack(o, f, rest);
      SentRanges(f);
      ParseRangesOf(o, p, bytes + rest, Sent(f).ranges, rest);
    }
  }

  lemma ParseAllOf(o: Order, f: AckFrame, p: Prefix, rest: seq<Byte>)
    requires WellFormed(f) && f.ranges == [] && f.lowestAcked > 0
    requires !p.missing && p.pathID == f.pathID && p.largestAcked == f.largestAcked && p.firstLength == FirstLength(f)
    ensures p.firstLength <= p.largestAcked && ParseRanges(o, p, rest) == Ok((Sent(f), rest))
  {
  }

  lemma SentRanges(f: AckFrame)
    requires WellFormed(f) && f.ranges != []
    ensures var s := Sent(f);
      s.ranges != [] && s == AckFrame(f.pathID, f.largestAcked, s.ranges[|s.ranges| - 1].first, s.ranges)
  {
  }

  lemma PrefixFields(f: AckFrame, delay: nat)
    requires WellFormed(f)
    ensures var p := PrefixOf(f, delay);
      (p.missing <==> f.ranges != []) && (Receivable(f) <==> p.missing || f.lowestAcked > 0) &&
      p.pathID == f.pathID && p.largestAcked == f.largestAcked && p.firstLength == FirstLength(f) &&
      p.deltaLength == DeltaLength(f) && p.numBlocks == |SentBlocks(f)|
  {
  }

  lemma NoBlockBytes(o: Order, n: nat)
    ensures EncodeBlocks(o, n, []) == []
  {
  }

  // Parsing what was written gives back the frame, up to the lowest ranges that did not fit, and the
  // delay rounded down; the input after the frame is left alone.
  lemma RoundTrip(o: Order, f: AckFrame, delay: nat, rest: seq<Byte>)
    requires WellFormed(f) && Receivable(f) && FirstGapFits(f)
    ensures Parse(o, Encode(o, f, delay) + rest) ==
            Ok((Sent(f), Float16.Decode(Float16.Representation(delay)), rest))
  {
    hide EncodePrefix, ParsePrefix, EncodeBlocks, ParseRanges, DeltaLength, SentBlocks, Sent, Float16.Decode,
         Float16.Representation, ValidateAckRanges;
    var p, blocks := PrefixOf(f, delay), EncodeBlocks(o, DeltaLength(f), SentBlocks(f));
    var i2 := [0] + rest;
    var i1 := blocks + i2;
    assert Encode(o, f, delay) + rest == EncodePrefix(o, p) + i1;
    PrefixOfWrites(f, delay);
    PrefixRoundTrip(o, p, i1);
    LengthsFit(f);
    ParseRangesBack(o, f, delay, i2);
    SentIsValid(f);
    WriteThenReadByte(0, rest);
  }

  // Without missing packets, a frame that claims packet number 0 cannot be received.
  lemma PacketZeroIsRejected(o: Order, f: AckFrame, delay: nat, rest: seq<Byte>)
    requires WellFormed(f) && !Receivable(f) && f.largestAcked < TWO_48 - 1
    ensures Parse(o, Encode(o, f, delay) + rest) == Err(InvalidAckRanges)
  {
    hide *;
    var p, i1 := PrefixOf(f, delay), EncodeBlocks(o, DeltaLength(f), SentBlocks(f)) + ([0] + rest);
    PrefixFields(f, delay);
    LengthsOverrun(f, delay);
    EncodeSplits(o, f, delay, rest);
    PrefixRoundTrip(o, p, i1);
    TooLong(o, EncodePrefix(o, p) + i1, p, i1);
  }

  lemma EncodeSplits(o: Order, f: AckFrame, delay: nat, rest: seq<Byte>)
    requires WellFormed(f)
    ensures Encode(o, f, delay) + rest ==
            EncodePrefix(o, PrefixOf(f, delay)) + (EncodeBlocks(o, DeltaLength(f), SentBlocks(f)) + ([0] + rest))
  {
    hide EncodePrefix, PrefixOf, EncodeBlocks, DeltaLength, SentBlocks;
  }

  lemma LengthsOverrun(f: AckFrame, delay: nat)
    requires WellFormed(f) && !Receivable(f) && f.largestAcked < TWO_48 - 1
    ensures Writes(PrefixOf(f, delay)) && FirstLength(f) > f.largestAcked
  {
    NoBlocks(f);
  }

  lemma TooLong(o: Order, input: seq<Byte>, p: Prefix, rest: seq<Byte>)
    requires ParsePrefix(o, input) == Ok((p, rest)) && p.firstLength > p.largestAcked
    ensures Parse(o, input) == Err(InvalidAckRanges)
  {
    hide ParsePrefix, ParseRanges;
  }

  // ----- writing and parsing, step by step

  lemma {:induction false} EncodeConcat(o: Order, n: nat, x: seq<Block>, y: seq<Block>)
    ensures EncodeBlocks(o, n, x + y) == EncodeBlocks(o, n, x) + EncodeBlocks(o, n, y)
  {
    hide Write;
    if x == [] {
      assert x + y == y;
    } else {
      assert (x + y)[1..] == x[1..] + y;
      EncodeConcat(o, n, x[1..], y);
    }
  }

  lemma EncodeLongStep(o: Order, n: nat, gap: nat, length: nat)
    requires gap > 0
    ensures EncodeBlocks(o, n, LongBlocks(gap, length)) ==
            if gap <= 255 then [gap] + Write(o, length, n)
            else [255] + Write(o, 0, n) + EncodeBlocks(o, n, LongBlocks(gap - 255, length))
  {
    hide Write;
    var bs := LongBlocks(gap, length);
    if gap <= 255 {
      assert bs[1..] == [] && EncodeBlocks(o, n, bs[1..]) == [];
    } else {
      assert bs[1..] == LongBlocks(gap - 255, length);
    }
  }

  lemma LastGap(gap: nat, i: nat)
    requires gap > 0 && i < NumBlocks(gap)
    ensures gap > 255 * i
    ensures i == NumBlocks(gap) - 1 ==> gap - 255 * i == 1 + (gap - 1) % 255 && gap - 255 * i <= 255
    ensures i < NumBlocks(gap) - 1 ==> gap - 255 * i > 255
  {
  }

  lemma OneBlockMore(bytes: seq<Byte>, o: Order, n: nat, left: nat, length: nat)
    requires left > 255
    ensures bytes + EncodeBlocks(o, n, LongBlocks(left, length)) ==
            bytes + ([255] + Write(o, 0, n)) + EncodeBlocks(o, n, LongBlocks(left - 255, length))
  {
    hide LongBlocks, EncodeBlocks, Write;
    EncodeLongStep(o, n, left, length);
  }

  lemma LastBlock(bytes: seq<Byte>, o: Order, n: nat, left: nat, length: nat)
    requires 0 < left <= 255
    ensures bytes + EncodeBlocks(o, n, LongBlocks(left, length)) == bytes + ([left] + Write(o, length, n))
  {
    hide LongBlocks, EncodeBlocks, Write;
    EncodeLongStep(o, n, left, length);
  }

  method WriteRange(o: Order, n: nat, gap: nat, length: nat) returns (bytes: seq<Byte>, written: nat)
    requires gap > 0
    ensures bytes == EncodeBlocks(o, n, LongBlocks(gap, length))
    ensures written == |LongBlocks(gap, length)|
  {
    hide LongBlocks, EncodeBlocks, Write, NumBlocks;
    var num := NumBlocks(gap);
    LongBlocksCount(gap, length);
    bytes, written := [], 0;
    LastGap(gap, 0);
    if num == 1 {
      EncodeLongStep(o, n, gap, length);
      return [gap] + Write(o, length, n), 1;
    }
    while written < num
      invariant written <= num && (written < num ==> gap > 255 * written)
      invariant written < num ==>
        bytes + EncodeBlocks(o, n, LongBlocks(gap - 255 * written, length)) ==
        EncodeBlocks(o, n, LongBlocks(gap, length))
      invariant written == num ==> bytes == EncodeBlocks(o, n, LongBlocks(gap, length))
    {
      LastGap(gap, written);
      var left := gap - 255 * written;
      if written == num - 1 {
        LastBlock(bytes, o, n, left, length);
        bytes := bytes + ([1 + (gap - 1) % 255] + Write(o, length, n));
      } else {
        LastGap(gap, written + 1);
        OneBlockMore(bytes, o, n, left, length);
        assert left - 255 == gap - 255 * (written + 1);
        bytes := bytes + ([255] + Write(o, 0, n));
      }
      written := written + 1;
    }
  }

  // one more than the number of blocks that will be written
  method NumWritableRanges(f: AckFrame) returns (n: nat)
    requires WellFormed(f)
    ensures n == if f.ranges == [] then 0 else |SentBlocks(f)| + 1
  {
    if f.ranges == [] { return 0; }
    hide NumBlocks, BlocksOf, Gap;
    var numRanges, i := 0, 1;
    OneRange(f.ranges);
    while i < |f.ranges|
      invariant 1 <= i <= |f.ranges| && numRanges == |BlocksOf(f.ranges, i)|
      invariant WritableFrom(f.ranges, i, numRanges) == Writable(f.ranges)
    {
      BlocksStep(f.ranges, i);
      var rangeLength := NumBlocks(Gap(f.ranges, i));
      if numRanges + rangeLength >= 255 { break; }
      numRanges := numRanges + rangeLength;
      i := i + 1;
    }
    return numRanges + 1;
  }

  lemma OneRange(ranges: seq<AckRange>)
    requires Descending(ranges) && ranges != []
    ensures BlocksOf(ranges, 1) == []
  {
  }

  method MissingDeltaLength(f: AckFrame) returns (n: nat)
    requires WellFormed(f)
    ensures n == DeltaLength(f)
  {
    var m := 0;
    if f.ranges != [] {
      var i := 0;
      while i < |f.ranges|
        invariant i <= |f.ranges| && m == MaxLength(f.ranges[..i])
      {
        var prefix := f.ranges[..i + 1];
        assert prefix[..i] == f.ranges[..i];
        if Length(f.ranges[i]) > m { m := Length(f.ranges[i]); }
        i := i + 1;
      }
      assert f.ranges[..i] == f.ranges;
    } else {
      m := f.largestAcked - f.lowestAcked + 1;
    }
    return if m <= 0xFF then 1 else if m <= 0xFFFF then 2 else if m <= 0xFFFF_FFFF then 4 else 6;
  }

  datatype WriteResult = Written(bytes: seq<Byte>) | InconsistentLargest | InconsistentLowest | InconsistentCount

  lemma {:induction false} BlocksGrowStrictly(ranges: seq<AckRange>, j: nat, k: nat)
    requires Descending(ranges) && 1 <= j < k <= |ranges|
    ensures |BlocksOf(ranges, j)| < |BlocksOf(ranges, k)|
    decreases k
  {
    hide NumBlocks, BlocksOf, LongBlocks, Gap;
    BlocksStep(ranges, k - 1);
    LastGap(Gap(ranges, k - 1), 0);
    if j < k - 1 { BlocksGrowStrictly(ranges, j, k - 1); }
  }

  // The blocks of the ranges, until as many blocks are written as were announced.
  method WriteRanges(o: Order, n: nat, f: AckFrame, numRanges: nat) returns (bytes: seq<Byte>, written: nat)
    requires WellFormed(f) && f.ranges != [] && numRanges == |SentBlocks(f)| + 1
    ensures FirstGapFits(f) <==> written == numRanges
    ensures FirstGapFits(f) ==> bytes == EncodeBlocks(o, n, SentBlocks(f))
  {
    hide *;
    SentBlocksOf(f);
    ghost var k := Writable(f.ranges);
    FirstGapDecides(f);
    OneRange(f.ranges);
    NoBlockBytes(o, n);
    bytes, written := [], 1;
    var i := 1;
    while i < |f.ranges|
      invariant 1 <= i <= |f.ranges| && (i <= k || (k == 1 && i == 2))
      invariant written == 1 + |BlocksOf(f.ranges, i)| && bytes == EncodeBlocks(o, n, BlocksOf(f.ranges, i))
      invariant i > 1 ==> written < numRanges
    {
      RangeStep(f, i);
      var gap, length := Gap(f.ranges, i), Length(f.ranges[i]);
      EncodeConcat(o, n, BlocksOf(f.ranges, i), LongBlocks(gap, length));
      var range, blocks := WriteRange(o, n, gap, length);
      bytes, written, i := bytes + range, written + blocks, i + 1;
      if i < k { BlocksGrowStrictly(f.ranges, i, k); }
      if k == 1 { BlocksGrowStrictly(f.ranges, 1, 2); }
      if written >= numRanges { break; }
    }
  }

  lemma SentBlocksOf(f: AckFrame)
    requires WellFormed(f) && f.ranges != []
    ensures SentBlocks(f) == BlocksOf(f.ranges, Writable(f.ranges)) && |f.ranges| >= 2 && Descending(f.ranges)
  {
  }

  lemma RangeStep(f: AckFrame, i: nat)
    requires WellFormed(f) && 1 <= i < |f.ranges|
    ensures f.ranges[i].first <= f.ranges[i].last && Descending(f.ranges)
    ensures BlocksOf(f.ranges, i + 1) == BlocksOf(f.ranges, i) + LongBlocks(Gap(f.ranges, i), Length(f.ranges[i]))
  {
  }

  method WriteAckFrame(o: Order, f: AckFrame, delay: nat) returns (r: WriteResult)
    requires f.lowestAcked <= f.largestAcked < TWO_48 && |f.ranges| != 1 && Descending(f.ranges)
    ensures r.InconsistentLargest? <==> f.ranges != [] && f.ranges[0].last != f.largestAcked
    ensures r.InconsistentLowest? <==>
            f.ranges != [] && f.ranges[0].last == f.largestAcked && f.ranges[|f.ranges| - 1].first != f.lowestAcked
    ensures r.InconsistentCount? <==> WellFormed(f) && !FirstGapFits(f)
    ensures r.Written? ==> WellFormed(f) && r.bytes == Encode(o, f, delay)
  {
    if f.ranges != [] && f.largestAcked != f.ranges[0].last { return InconsistentLargest; }
    if f.ranges != [] && f.lowestAcked != f.ranges[|f.ranges| - 1].first { return InconsistentLowest; }
    var bytes := WriteConsistent(o, f, delay);
    return if bytes.Some? then Written(bytes.value) else InconsistentCount;
  }

  method WriteConsistent(o: Order, f: AckFrame, delay: nat) returns (r: Option<seq<Byte>>)
    requires WellFormed(f)
    ensures r.Some? <==> FirstGapFits(f)
    ensures r.Some? ==> r.value == Encode(o, f, delay)
  {
    hide EncodePrefix, EncodeBlocks, SentBlocks, FirstLength, DeltaLength, Float16.Representation, FirstGapFits,
         WellFormed;
    var n := MissingDeltaLength(f);
    var representation := Float16.Encode(delay);
    var numRanges := NumWritableRanges(f);
    var ranges := [];
    if f.ranges != [] {
      var written;
      ranges, written := WriteRanges(o, n, f, numRanges);
      if numRanges != written { return None; }
    } else {
      NothingMissing(o, f);
    }
    return Some(EncodePrefix(o, Prefix(f.pathID, f.largestAcked, representation, f.ranges != [], n,
                                       if f.ranges != [] then numRanges - 1 else 0, FirstLength(f))) + ranges + [0]);
  }

  lemma NothingMissing(o: Order, f: AckFrame)
    requires WellFormed(f) && f.ranges == []
    ensures FirstGapFits(f) && EncodeBlocks(o, DeltaLength(f), SentBlocks(f)) == [] && SentBlocks(f) == []
  {
  }

  method ParseBlockList(o: Order, n: nat, input: seq<Byte>, count: nat, first: AckRange)
    returns (r: Result<(seq<AckRange>, seq<Byte>)>)
    ensures
      var parsed := ParseBlocks(o, n, input, count, Assembly([first], false, false));
      r == if parsed.Ok? then Ok((Complete(parsed.value.0), parsed.value.1)) else Err(parsed.error)
  {
    hide Read, ReadByte, Wrap;
    var ranges, inLongBlock, lastRangeComplete, rest, i := [first], false, false, input, 0;
    while i < count
      invariant i <= count && ranges != []
      invariant ParseBlocks(o, n, input, count, Assembly([first], false, false)) ==
                ParseBlocks(o, n, rest, count - i, Assembly(ranges, inLongBlock, lastRangeComplete))
    {
      var gap := ReadByte(rest);
      if gap.Err? { return Err(gap.error); }
      var length := Read(o, gap.value.1, n);
      if length.Err? { return Err(length.error); }
      ranges, inLongBlock, lastRangeComplete :=
        AddBlock(ranges, inLongBlock, lastRangeComplete, gap.value.0, length.value.0);
      rest, i := length.value.1, i + 1;
    }
    if !lastRangeComplete { ranges := ranges[..|ranges| - 1]; }
    return Ok((ranges, rest));
  }

  method AddBlock(before: seq<AckRange>, inLong: bool, complete: bool, gap: Byte, length: nat)
    returns (ranges: seq<AckRange>, inLongBlock: bool, lastRangeComplete: bool)
    requires before != []
    ensures Assembly(ranges, inLongBlock, lastRangeComplete) ==
            Assemble(Assembly(before, inLong, complete), Block(gap, length))
  {
    hide Wrap;
    ranges, lastRangeComplete := before, complete;
    var last := ranges[|ranges| - 1];
    if inLong {
      last := last.(first := Wrap(last.first - (gap + length)));
      last := last.(last := Wrap(last.last - gap));
      ranges := ranges[|ranges| - 1 := last];
    } else {
      lastRangeComplete := false;
      var top := Wrap(last.first - gap - 1);
      ranges := ranges + [AckRange(Wrap(top - length + 1), top)];
    }
    if length > 0 { lastRangeComplete := true; }
    inLongBlock := length == 0;
  }

  method SkipTimestampSection(o: Order, input: seq<Byte>) returns (r: Result<seq<Byte>>)
    ensures r == SkipTimestamps(o, input)
  {
    hide Read, ReadByte;
    var count := ReadByte(input);
    if count.Err? { return Err(count.error); }
    var rest, n := count.value.1, count.value.0;
    if n > 0 {
      var delta := ReadByte(rest);
      if delta.Err? { return Err(delta.error); }
      var time := Read(o, delta.value.1, 4);
      if time.Err? { return Err(time.error); }
      rest := time.value.1;
      var i := 0;
      while i < n - 1
        invariant i <= n - 1 && SkipTimestamps(o, input) == SkipTimes(o, rest, n - 1 - i)
      {
        delta := ReadByte(rest);
        if delta.Err? { return Err(delta.error); }
        time := Read(o, delta.value.1, 2);
        if time.Err? { return Err(time.error); }
        rest, i := time.value.1, i + 1;
      }
    }
    return Ok(rest);
  }

  method ParseAckFrame(o: Order, input: seq<Byte>) returns (r: Result<(AckFrame, nat, seq<Byte>)>)
    ensures r == Parse(o, input)
  {
    hide ParsePrefix, ParseBlocks, ValidateAckRanges, SkipTimestamps, Float16.Decode;
    var prefix := ParsePrefix(o, input);
    if prefix.Err? { return Err(prefix.error); }
    var p, rest := prefix.value.0, prefix.value.1;
    if p.largestAcked > 0 && p.firstLength < 1 { return Err(InvalidFirstAckRange); }
    if p.firstLength > p.largestAcked { return Err(InvalidAckRanges); }
    var ranges, lowest := [], 0;
    if p.missing {
      var first := AckRange(p.largestAcked - p.firstLength + 1, p.largestAcked);
      var blocks := ParseBlockList(o, p.deltaLength, rest, p.numBlocks, first);
      if blocks.Err? { return Err(blocks.error); }
      ranges, rest := blocks.value.0, blocks.value.1;
      if ranges == [] { return Err(InvalidAckRanges); }
      lowest := ranges[|ranges| - 1].first;
    } else if p.largestAcked != 0 {
      lowest := p.largestAcked + 1 - p.firstLength;
    }
    var f := AckFrame(p.pathID, p.largestAcked, lowest, ranges);
    if !ValidateAckRanges(f) { return Err(InvalidAckRanges); }
    var skipped := SkipTimestampSection(o, rest);
    if skipped.Err? { return Err(skipped.error); }
    return Ok((f, Float16.Decode(p.delay), skipped.value));
  }
}
