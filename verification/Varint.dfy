/** Base 128 varints of the Protocol Buffers encoding: the writer, its size formula, and the reader. */
module Varint {

  type byte = x: int | 0 <= x < 256

  const TWO_63 := 0x8000_0000_0000_0000
  const TWO_64 := 0x1_0000_0000_0000_0000

  /** Result of reading from the front of a byte string: a value and the number of bytes read. */
  datatype Parsed<+T> = Ok(value: T, len: nat) | Bad

  // ---------------------------------------------------------------- writing

  function Encode(v: nat): (s: seq<byte>)
    ensures |s| > 0
  {
    if v < 128 then [v] else [v % 128 + 128] + Encode(v / 128)
  }

  /** Number of bits needed for x, as bits.Len64. */
  function BitLength(x: nat): nat {
    if x == 0 then 0 else 1 + BitLength(x / 2)
  }

  /** x with its lowest bit set. */
  function SetLowBit(x: nat): nat {
    if x % 2 == 0 then x + 1 else x
  }

  function Sov(v: nat): nat {
    (BitLength(SetLowBit(v)) + 6) / 7
  }

  lemma BitLength7(x: nat)
    requires x >= 128
    ensures BitLength(x) == 7 + BitLength(x / 128)
  {
    var a := x / 2; var b := a / 2; var c := b / 2; var d := c / 2; var e := d / 2; var f := e / 2;
    assert f / 2 == x / 128;
    assert BitLength(x) == 1 + BitLength(a) && BitLength(a) == 1 + BitLength(b) && BitLength(b) == 1 + BitLength(c);
    assert BitLength(c) == 1 + BitLength(d) && BitLength(d) == 1 + BitLength(e) && BitLength(e) == 1 + BitLength(f);
  }

  lemma BitLengthSmall(x: nat)
    requires 0 < x < 128
    ensures 1 <= BitLength(x) <= 7
  {
    var a := x / 2; var b := a / 2; var c := b / 2; var d := c / 2; var e := d / 2; var f := e / 2;
    assert f < 2 && f / 2 == 0;
    assert BitLength(f) <= 1 && BitLength(e) <= 2 && BitLength(d) <= 3 && BitLength(c) <= 4 && BitLength(b) <= 5;
    assert BitLength(a) <= 6;
  }

  lemma LowBitOnly(v: nat)
    requires v >= 128
    ensures SetLowBit(v) / 128 == v / 128 && BitLength(SetLowBit(v / 128)) == BitLength(v / 128)
  {
    var w := v / 128;
    assert w > 0 && SetLowBit(w) / 2 == w / 2;
  }

  lemma SovStep(v: nat)
    requires v >= 128
    ensures Sov(v) == 1 + Sov(v / 128)
  {
    LowBitOnly(v);
    BitLength7(SetLowBit(v));
  }

  /** The size formula counts exactly the bytes the writer emits. */
  lemma {:induction false} SovIsSize(v: nat)
    ensures Sov(v) == |Encode(v)|
  {
    if v < 128 {
      BitLengthSmall(SetLowBit(v));
    } else {
      SovIsSize(v / 128);
      SovStep(v);
    }
  }

  /** `part` holds the first bytes of v's encoding, and `rest` is what is left to encode. */
  ghost predicate Partial(part: seq<byte>, rest: nat, v: nat) {
    part + Encode(rest) == Encode(v)
  }

  lemma PartialStep(part: seq<byte>, rest: nat, v: nat)
    requires Partial(part, rest, v)
    ensures rest >= 128 ==> Partial(part + [rest % 128 + 128], rest / 128, v)
    ensures rest < 128 ==> part + [rest] == Encode(v)
  {
    if rest >= 128 {
      var b: byte := rest % 128 + 128;
      assert (part + [b]) + Encode(rest / 128) == part + ([b] + Encode(rest / 128));
    }
  }

  /** Writes v so that it ends just before `offset`; bytes outside that stretch keep their value. */
  method EncodeInto(buf: array<byte>, offset: nat, v: nat) returns (base: nat)
    requires v < TWO_64 && Sov(v) <= offset <= buf.Length
    modifies buf
    ensures base == offset - Sov(v)
    ensures buf[base..offset] == Encode(v)
    ensures buf[..base] == old(buf[..base]) && buf[offset..] == old(buf[offset..])
  {
    SovIsSize(v);
    base := offset - Sov(v);
    var at, rest := base, v;
    ghost var part := [];
    while rest >= 128
      invariant base <= at && at + |Encode(rest)| == offset
      invariant buf[base..at] == part && Partial(part, rest, v)
      invariant buf[..base] == old(buf[..base]) && buf[offset..] == old(buf[offset..])
      decreases rest
    {
      PartialStep(part, rest, v);
      buf[at] := rest % 128 + 128;
      part := part + [rest % 128 + 128];
      assert buf[base..at + 1] == part;
      rest := rest / 128;
      at := at + 1;
    }
    PartialStep(part, rest, v);
    buf[at] := rest;
    assert buf[base..offset] == part + [rest];
  }

  /** The example of the specification: 150 is 96 01. */
  lemma ExampleOfSpecification()
    ensures Encode(150) == [0x96, 0x01] && Number([0x96, 0x01], 0) == Ok(150, 2)
  {}

  // ---------------------------------------------------------------- 64-bit arithmetic

  /** x modulo 2^64, by repeated subtraction. */
  function Trunc(x: nat): (r: nat)
    ensures r < TWO_64
  {
    if x < TWO_64 then x else Trunc(x - TWO_64)
  }

  lemma {:induction false} TruncAdd(a: nat, b: nat)
    ensures Trunc(Trunc(a) + b) == Trunc(a + b)
  {
    if a >= TWO_64 {
      TruncAdd(a - TWO_64, b);
    }
  }

  lemma AddTruncated(wire: nat, a: nat, b: nat)
    ensures Trunc(Trunc(wire + Trunc(a)) + b) == Trunc(wire + (a + b))
  {
    TruncAdd(a, wire);
    TruncAdd(wire + a, b);
  }

  /** x shifted left. */
  function Shl(x: nat, bits: nat): nat {
    if bits == 0 then x else 2 * Shl(x, bits - 1)
  }

  lemma {:induction false} ShlAdd(a: nat, b: nat, bits: nat)
    ensures Shl(a + b, bits) == Shl(a, bits) + Shl(b, bits)
  {
    if bits > 0 {
      ShlAdd(a, b, bits - 1);
    }
  }

  lemma {:induction false} ShlDouble(x: nat, bits: nat)
    ensures Shl(2 * x, bits) == Shl(x, bits + 1)
  {
    if bits > 0 {
      ShlDouble(x, bits - 1);
    }
  }

  lemma Shl7(x: nat, bits: nat)
    ensures Shl(128 * x, bits) == Shl(x, bits + 7)
  {
    ShlDouble(64 * x, bits);
    ShlDouble(32 * x, bits + 1);
    ShlDouble(16 * x, bits + 2);
    ShlDouble(8 * x, bits + 3);
    ShlDouble(4 * x, bits + 4);
    ShlDouble(2 * x, bits + 5);
    ShlDouble(x, bits + 6);
  }

  lemma {:induction false} ShlLess(a: nat, b: nat, bits: nat)
    requires a < b
    ensures Shl(a, bits) + Shl(1, bits) <= Shl(b, bits)
  {
    if bits > 0 {
      ShlLess(a, b, bits - 1);
    }
  }

  lemma {:induction false} ShlGrows(x: nat, bits: nat, more: nat)
    requires bits <= more
    ensures Shl(x, bits) <= Shl(x, more)
  {
    if bits < more {
      ShlGrows(x, bits, more - 1);
    }
  }

  lemma WordSize()
    ensures Shl(1, 63) == TWO_63 && Shl(1, 64) == TWO_64
  {
    Shl7(1, 0); Shl7(1, 7); Shl7(1, 14); Shl7(1, 21); Shl7(1, 28); Shl7(1, 35); Shl7(1, 42); Shl7(1, 49); Shl7(1, 56);
    Scale(128, 7); Scale(128, 14); Scale(128, 21); Scale(128, 28);
    Scale(128, 35); Scale(128, 42); Scale(128, 49); Scale(128, 56);
  }

  lemma {:induction false} Scale(x: nat, bits: nat)
    ensures Shl(x, bits) == x * Shl(1, bits)
  {
    if bits > 0 {
      Scale(x, bits - 1);
    }
  }

  /** Bitwise or, bit by bit. */
  function Or(x: nat, y: nat): nat {
    if x == 0 then y
    else if y == 0 then x
    else (if x % 2 == 1 || y % 2 == 1 then 1 else 0) + 2 * Or(x / 2, y / 2)
  }

  /** Bits shifted past those of x do not meet them, so their or is their sum. */
  lemma {:induction false} OrShifted(x: nat, y: nat, bits: nat)
    requires x < Shl(1, bits)
    ensures Or(x, Shl(y, bits)) == x + Shl(y, bits)
  {
    if bits > 0 {
      OrShifted(x / 2, y, bits - 1);
    }
  }

  // ---------------------------------------------------------------- reading

  /** The number a varint denotes; a reader accepts at most ten bytes. */
  function Number(s: seq<byte>, k: nat): (r: Parsed<nat>)
    ensures r.Ok? ==> 1 <= r.len <= |s|
    decreases |s|
  {
    if k >= 10 || s == [] then Bad
    else if s[0] < 128 then Ok(s[0], 1)
    else
      match Number(s[1..], k + 1)
      case Ok(v, n) => Ok(Low(s[0]) + 128 * v, n + 1)
      case Bad => Bad
  }

  /** What the reader yields: that number in a 64-bit word. */
  function Read(s: seq<byte>): (r: Parsed<nat>)
    ensures r.Ok? ==> 1 <= r.len <= |s| && r.value < TWO_64
  {
    match Number(s, 0) case Ok(v, n) => Ok(Trunc(v), n) case Bad => Bad
  }

  /** The low seven bits of a byte. */
  function Low(b: byte): nat {
    if b < 128 then b else b - 128
  }

  /** The low bits of byte k, shifted in a 64-bit word. */
  function Chunk(b: byte, k: nat): nat {
    Trunc(Shl(Low(b), 7 * k))
  }

  /** The accumulator after byte k. */
  function Push(wire: nat, b: byte, k: nat): nat {
    Or(wire, Chunk(b, k))
  }

  /** The accumulator holds only bits of the k bytes read so far. */
  predicate Within(wire: nat, k: nat) {
    k <= 10 && wire < Shl(1, 7 * k)
  }

  lemma {:induction false} TruncWords(x: nat, words: nat)
    ensures Trunc(x + Shl(words, 64)) == Trunc(x)
  {
    WordSize();
    if words == 0 {
      Scale(0, 64);
    } else {
      ShlAdd(words - 1, 1, 64);
      TruncWords(x, words - 1);
    }
  }

  /** Of the tenth byte only the lowest bit survives; no other byte loses any. */
  lemma ChunkIsShifted(b: byte, k: nat) returns (y: nat)
    requires k < 10
    ensures Chunk(b, k) == Shl(y, 7 * k) && Shl(y + 1, 7 * k) <= TWO_64 && y < 128
  {
    WordSize();
    if k < 9 {
      y := Low(b);
      if y < 127 {
        ShlLess(y + 1, 128, 7 * k);
      }
      Shl7(1, 7 * k);
      ShlGrows(1, 7 * k + 7, 63);
      ShlLess(y, y + 1, 7 * k);
      assert Shl(1, 7 * k) > 0 by { ShlGrows(1, 0, 7 * k); }
    } else {
      y := Low(b) % 2;
      var words := Low(b) / 2;
      ShlAdd(2 * words, y, 63);
      ShlDouble(words, 63);
      TruncWords(Shl(y, 63), words);
      ShlDouble(1, 63);
      if y == 0 {
        Scale(0, 63);
      }
    }
  }

  /** So the or never meets a set bit: it is an addition, stays in 64 bits, and leaves room for the next byte. */
  lemma PushAdds(wire: nat, b: byte, k: nat)
    requires k < 10 && Within(wire, k)
    ensures Push(wire, b, k) == wire + Chunk(b, k) < TWO_64
    ensures Push(wire, b, k) == Trunc(wire + Chunk(b, k))
    ensures Within(Push(wire, b, k), k + 1)
  {
    var y := ChunkIsShifted(b, k);
    OrShifted(wire, y, 7 * k);
    ShlAdd(y, 1, 7 * k);
    if y < 127 {
      ShlLess(y + 1, 128, 7 * k);
    }
    Shl7(1, 7 * k);
    assert 7 * (k + 1) == 7 * k + 7;
  }

  lemma PushLast(wire: nat, b: byte, k: nat)
    requires k < 10 && Within(wire, k)
    ensures Push(wire, b, k) == Trunc(wire + Shl(Low(b), 7 * k))
  {
    PushAdds(wire, b, k);
    TruncAdd(Shl(Low(b), 7 * k), wire);
  }

  lemma PushMore(wire: nat, b: byte, k: nat, v: nat)
    requires k < 10 && Within(wire, k)
    ensures Trunc(Push(wire, b, k) + Shl(v, 7 * (k + 1))) == Trunc(wire + Shl(Low(b) + 128 * v, 7 * k))
  {
    assert 7 * (k + 1) == 7 * k + 7;
    PushAdds(wire, b, k);
    AddTruncated(wire, Shl(Low(b), 7 * k), Shl(v, 7 * k + 7));
    Shl7(v, 7 * k);
    ShlAdd(Low(b), 128 * v, 7 * k);
  }

  /** The reader as the program computes it: the low bits of byte k are or-ed into a 64-bit accumulator. */
  function Gather(s: seq<byte>, k: nat, wire: nat): (r: Parsed<nat>)
    requires Within(wire, k)
    ensures r.Ok? ==> 1 <= r.len <= |s| && r.value < TWO_64
    decreases |s|
  {
    if k >= 10 || s == [] then Bad
    else
      var w := Push(wire, s[0], k);
      PushAdds(wire, s[0], k);
      if s[0] < 128 then Ok(w, 1)
      else match Gather(s[1..], k + 1, w) case Ok(v, n) => Ok(v, n + 1) case Bad => Bad
  }

  /** A number read from byte k on, added to the accumulator in 64 bits. */
  function Truncated(r: Parsed<nat>, k: nat, wire: nat): Parsed<nat> {
    match r case Bad => Bad case Ok(v, n) => Ok(Trunc(wire + Shl(v, 7 * k)), n)
  }

  lemma TruncatedMore(rest: Parsed<nat>, b: byte, k: nat, wire: nat)
    requires k < 10 && Within(wire, k) && rest.Ok?
    ensures Truncated(Ok(Low(b) + 128 * rest.value, rest.len + 1), k, wire)
            == Ok(Truncated(rest, k + 1, Push(wire, b, k)).value, rest.len + 1)
  {
    PushMore(wire, b, k, rest.value);
  }

  /** Accumulating in 64 bits is reading the number and truncating it. */
  lemma {:induction false} GatherTruncates(s: seq<byte>, k: nat, wire: nat)
    requires Within(wire, k)
    ensures Gather(s, k, wire) == Truncated(Number(s, k), k, wire)
    decreases |s|
  {
    if k < 10 && s != [] {
      if s[0] < 128 {
        PushLast(wire, s[0], k);
      } else {
        PushAdds(wire, s[0], k);
        var rest := Number(s[1..], k + 1);
        GatherTruncates(s[1..], k + 1, Push(wire, s[0], k));
        if rest.Ok? {
          TruncatedMore(rest, s[0], k, wire);
        }
      }
    }
  }

  /** The program's reader is that specification. */
  lemma GatherReads(s: seq<byte>)
    ensures Within(0, 0) && Gather(s, 0, 0) == Read(s)
  {
    GatherTruncates(s, 0, 0);
  }

  /** What is left of 128^10 after k bytes. */
  function Room(k: nat): nat
    requires k <= 10
    decreases 10 - k
  {
    if k == 10 then 1 else 128 * Room(k + 1)
  }

  lemma RoomForUint64()
    ensures TWO_64 <= Room(0)
  {
    assert Room(9) == 128 && Room(8) == 0x4000 && Room(7) == 0x20_0000 && Room(6) == 0x1000_0000;
    assert Room(5) == 0x8_0000_0000 && Room(4) == 0x400_0000_0000 && Room(3) == 0x2_0000_0000_0000;
    assert Room(2) == 0x100_0000_0000_0000 && Room(1) == 0x8000_0000_0000_0000;
  }

  lemma {:induction false} NumberEncoded(v: nat, k: nat, rest: seq<byte>)
    requires k < 10 && v < Room(k)
    ensures Number(Encode(v) + rest, k) == Ok(v, |Encode(v)|)
    decreases v
  {
    var s := Encode(v) + rest;
    assert k == 9 ==> Room(k) == 128 * Room(10);
    if v >= 128 {
      assert s[1..] == Encode(v / 128) + rest;
      NumberEncoded(v / 128, k + 1, rest);
    }
  }

  /** Reading what was written gives every 64-bit value back, whatever follows. */
  lemma ReadBack(v: nat, rest: seq<byte>)
    requires v < TWO_64
    ensures Read(Encode(v) + rest) == Ok(v, |Encode(v)|)
  {
    RoomForUint64();
    NumberEncoded(v, 0, rest);
  }

  lemma {:induction false} NumberPrefix(s: seq<byte>, k: nat, t: seq<byte>)
    requires Number(s, k).Ok?
    ensures Number(s + t, k) == Number(s, k)
    decreases |s|
  {
    assert (s + t)[0] == s[0];
    if s[0] >= 128 {
      assert (s + t)[1..] == s[1..] + t;
      NumberPrefix(s[1..], k + 1, t);
    }
  }

  /** A successful read does not look past its end. */
  lemma ReadPrefix(s: seq<byte>, t: seq<byte>)
    requires Read(s).Ok?
    ensures Read(s + t) == Read(s)
  {
    NumberPrefix(s, 0, t);
  }

  lemma {:induction false} NumberExact(s: seq<byte>, k: nat, m: nat)
    requires Number(s, k).Ok? && Number(s, k).len <= m <= |s|
    ensures Number(s[..m], k) == Number(s, k)
    decreases |s|
  {
    assert s[..m][0] == s[0];
    if s[0] >= 128 {
      assert s[..m][1..] == s[1..][..m - 1];
      NumberExact(s[1..], k + 1, m - 1);
    }
  }

  /** Nor does it need any byte past its end. */
  lemma ReadExact(s: seq<byte>, m: nat)
    requires Read(s).Ok? && Read(s).len <= m <= |s|
    ensures Read(s[..m]) == Read(s)
  {
    NumberExact(s, 0, m);
  }

  /** Ten bytes that all ask for more are refused, and so is a text that ends before its last byte. */
  lemma {:induction false} UnendedIsBad(s: seq<byte>, k: nat)
    requires k <= 10 && forall i :: 0 <= i < |s| && i < 10 - k ==> s[i] >= 128
    ensures Number(s, k).Bad?
    decreases |s|
  {
    if k < 10 && s != [] {
      UnendedIsBad(s[1..], k + 1);
    }
  }

  /** `here`, continued from byte k with accumulator `wire`, completes what `whole` reads. */
  ghost predicate Completes(whole: Parsed<nat>, here: seq<byte>, k: nat, wire: nat) {
    Within(wire, k) && match Gather(here, k, wire) case Bad => whole.Bad? case Ok(v, n) => whole == Ok(v, k + n)
  }

  lemma CompletesStep(whole: Parsed<nat>, here: seq<byte>, k: nat, wire: nat)
    requires Completes(whole, here, k, wire)
    ensures k >= 10 || here == [] ==> whole.Bad?
    ensures k < 10 && here != [] && here[0] < 128 ==> whole == Ok(Push(wire, here[0], k), k + 1)
    ensures k < 10 && here != [] && here[0] >= 128 ==> Completes(whole, here[1..], k + 1, Push(wire, here[0], k))
  {
    if k < 10 && here != [] {
      PushAdds(wire, here[0], k);
    }
  }

  /** The reading loop, from index i of the buffer. */
  method ReadAt(data: seq<byte>, i: nat) returns (r: Parsed<nat>)
    requires i <= |data|
    ensures r == Read(data[i..])
  {
    var wire: nat, shift, next := 0, 0, i;
    ghost var k: nat, here, whole := 0, data[i..], Read(data[i..]);
    GatherReads(here);
    while true
      invariant shift == 7 * k && k <= 10 && next == i + k <= |data| && here == data[next..]
      invariant Completes(whole, here, k, wire)
      decreases 10 - k
    {
      CompletesStep(whole, here, k, wire);
      if shift >= 64 {
        return Bad;
      }
      if next >= |data| {
        return Bad;
      }
      var b := data[next];
      next := next + 1;
      wire := Or(wire, Trunc(Shl(Low(b), shift)));
      if b < 128 {
        return Ok(wire, next - i);
      }
      shift := shift + 7;
      k, here := k + 1, here[1..];
    }
  }
}
