/**
  Unsigned integers on the wire: little endian before QUIC version 39, big endian from then on.
 */
module ByteOrder {
  import opened Basics

  type Byte = b: nat | b < 256

  datatype Order = LittleEndian | BigEndian

  // why a frame or a packet is rejected
  datatype ParseError =
    | EndOfInput
    | InvalidAckRanges
    | InvalidFirstAckRange
    | InvalidStreamData
    | EmptyStreamFrame
    | InvalidStopWaitingData
    | UnencryptedStreamData
    | MissingPayload
    | Unsupported
    | UnknownType

  datatype Result<T> = Ok(value: T) | Err(error: ParseError) {
    predicate IsFailure() {
      Err?
    }

    function PropagateFailure<U>(): Result<U>
      requires Err?
    {
      Err(error)
    }

    function Extract(): T
      requires Ok?
    {
      value
    }
  }

  function Pow256(n: nat): (p: nat)
    ensures p > 0
  {
    if n == 0 then 1 else 256 * Pow256(n - 1)
  }

  // the low n bytes of v
  function Write(o: Order, v: nat, n: nat): (bytes: seq<Byte>)
    ensures |bytes| == n
    decreases n
  {
    if n == 0 then []
    else if o == LittleEndian then [v % 256] + Write(o, v / 256, n - 1)
    else Write(o, v / 256, n - 1) + [v % 256]
  }

  function Value(o: Order, bytes: seq<Byte>): (v: nat)
    ensures v < Pow256(|bytes|)
    decreases |bytes|
  {
    if bytes == [] then 0
    else if o == LittleEndian then bytes[0] + 256 * Value(o, bytes[1..])
    else bytes[|bytes| - 1] + 256 * Value(o, bytes[..|bytes| - 1])
  }

  // read n bytes from the front of the input
  function Read(o: Order, input: seq<Byte>, n: nat): (r: Result<(nat, seq<Byte>)>)
    ensures r.Ok? ==> r.value.0 < Pow256(n) && |input| == n + |r.value.1|
  {
    if |input| < n then Err(EndOfInput) else Ok((Value(o, input[..n]), input[n..]))
  }

  // Which byte goes where: the lowest first, or the highest first.
  lemma {:induction false} WriteAt(o: Order, v: nat, n: nat, i: nat)
    requires i < n
    ensures Write(o, v, n)[i] == v / Pow256(if o == LittleEndian then i else n - 1 - i) % 256
    decreases n
  {
    var place := if o == LittleEndian then i else n - 1 - i;
    if place > 0 {
      WriteAt(o, v / 256, n - 1, if o == LittleEndian then i - 1 else i);
      DivideTwice(v, Pow256(place - 1));
    }
  }

  lemma DivideTwice(v: nat, p: nat)
    requires p > 0
    ensures v / 256 / p == v / (256 * p)
  {
    var q := v / 256 / p;
    var r := v / 256 % p;
    assert v / 256 == p * q + r;
    assert v == q * (256 * p) + (256 * r + v % 256);
    QuotientIs(v, 256 * p, q, 256 * r + v % 256);
  }

  lemma QuotientIs(x: nat, n: nat, q: nat, r: nat)
    requires n > 0 && x == q * n + r && r < n
    ensures x / n == q
  {
    var d := q - x / n;
    assert d * n == q * n - (x / n) * n;
    AtLeastOnce(d, n);
  }

  function ReadByte(input: seq<Byte>): (r: Result<(Byte, seq<Byte>)>) {
    if input == [] then Err(EndOfInput) else Ok((input[0], input[1..]))
  }

  lemma LowByteFirst(v: nat, p: nat)
    requires p > 0
    ensures v % (256 * p) == v % 256 + 256 * (v / 256 % p)
  {
    var high := v / 256;
    var k, m := high / p, high % p;
    assert high == p * k + m;
    assert v == k * (256 * p) + (v % 256 + 256 * m);
    Remainder(v, 256 * p, k, v % 256 + 256 * m);
  }

  // Only the low n bytes arrive.
  lemma {:induction false} WriteThenValue(o: Order, v: nat, n: nat)
    ensures Value(o, Write(o, v, n)) == v % Pow256(n)
  {
    if n > 0 {
      WriteThenValue(o, v / 256, n - 1);
      LowByteFirst(v, Pow256(n - 1));
      var low, high := [v % 256], Write(o, v / 256, n - 1);
      if o == LittleEndian {
        assert (low + high)[1..] == high;
      } else {
        assert (high + low)[..n - 1] == high;
      }
    }
  }

  lemma WriteThenReadLow(o: Order, v: nat, n: nat, rest: seq<Byte>)
    ensures Read(o, Write(o, v, n) + rest, n) == Ok((v % Pow256(n), rest))
  {
    hide Pow256, Write, Value;
    WriteThenValue(o, v, n);
    assert (Write(o, v, n) + rest)[..n] == Write(o, v, n);
    assert (Write(o, v, n) + rest)[n..] == rest;
  }

  // What is written is read back, whatever follows it.
  lemma WriteThenRead(o: Order, v: nat, n: nat, rest: seq<Byte>)
    requires v < Pow256(n)
    ensures Read(o, Write(o, v, n) + rest, n) == Ok((v, rest))
  {
    hide Pow256, Write, Read;
    Remainder(v, Pow256(n), 0, v);
    WriteThenReadLow(o, v, n, rest);
  }

  lemma LowAndHigh(low: Byte, high: nat)
    ensures (low + 256 * high) % 256 == low && (low + 256 * high) / 256 == high
  {
    Remainder(low + 256 * high, 256, high, low);
  }

  // Bytes are the only way to write their value.
  lemma {:induction false} ValueThenWrite(o: Order, bytes: seq<Byte>)
    ensures Write(o, Value(o, bytes), |bytes|) == bytes
    decreases |bytes|
  {
    hide Pow256;
    if bytes == [] {
    } else if o == LittleEndian {
      ValueThenWrite(o, bytes[1..]);
      LowAndHigh(bytes[0], Value(o, bytes[1..]));
    } else {
      var n := |bytes| - 1;
      ValueThenWrite(o, bytes[..n]);
      LowAndHigh(bytes[n], Value(o, bytes[..n]));
    }
  }

  // What is read is what was written.
  lemma ReadThenWrite(o: Order, input: seq<Byte>, n: nat)
    requires Read(o, input, n).Ok?
    ensures input == Write(o, Read(o, input, n).value.0, n) + Read(o, input, n).value.1
  {
    hide Value, Write;
    ValueThenWrite(o, input[..n]);
  }

  lemma WriteThenReadByte(b: Byte, rest: seq<Byte>)
    ensures ReadByte([b] + rest) == Ok((b, rest))
  {
  }

  // what comes after a place does not change what is before it
  lemma Before(x: seq<Byte>, y: seq<Byte>, i: nat, j: nat)
    requires i <= j <= |x|
    ensures (x + y)[i..j] == x[i..j] && (x + y)[|x|..] == y
  {
  }

  // where parts are in the whole
  lemma Slices(a: seq<Byte>, b: seq<Byte>, c: seq<Byte>, d: seq<Byte>, e: seq<Byte>, f: seq<Byte>)
    ensures
      var s := a + b + c + d + e + f;
      var i, j := |a|, |a| + |b|;
      var k := j + |c|;
      var l := k + |d|;
      s[i..j] == b && s[j..k] == c && s[k..l] == d && s[l..l + |e|] == e && s[l + |e|..] == f && s[..i] == a
  {
    var two, three := a + b, a + b + c;
    var four, five := three + d, three + d + e;
    var i, j, k := |a|, |two|, |three|;
    Before(a, b, 0, i);
    Before(two, c, 0, i);
    Before(two, c, i, j);
    Before(three, d, 0, i);
    Before(three, d, i, j);
    Before(three, d, j, k);
    Before(four, e, 0, i);
    Before(four, e, i, j);
    Before(four, e, j, k);
    Before(four, e, k, |four|);
    Before(five, f, 0, i);
    Before(five, f, i, j);
    Before(five, f, j, k);
    Before(five, f, k, |four|);
    Before(five, f, |four|, |five|);
  }

  lemma Powers()
    ensures Pow256(1) == 0x100 && Pow256(2) == 0x1_0000 && Pow256(3) == 0x100_0000 && Pow256(4) == 0x1_0000_0000
    ensures Pow256(5) == 0x100_0000_0000 && Pow256(6) == 0x1_0000_0000_0000
    ensures Pow256(7) == 0x100_0000_0000_0000 && Pow256(8) == 0x1_0000_0000_0000_0000
  {
    assert Pow256(2) == 0x1_0000;
    assert Pow256(4) == 0x1_0000_0000;
    assert Pow256(6) == 0x1_0000_0000_0000;
  }
}
