/** Encoding, round trips and merging of the messages exchanged between controller, repo server and askpass. */
module Codec {
  import opened Wrappers
  import opened Sequences
  import opened Varint
  import opened Wire

  const MAX_FIELDS := 15

  // ---------------------------------------------------------------- what is written

  function EncodeField(num: nat, payload: bytes): (s: bytes)
    requires 1 <= num <= MAX_FIELDS
    ensures |s| > 0
  {
    [num * 8 + 2] + (Encode(|payload|) + payload)
  }

  function EncodeTexts(num: nat, texts: seq<bytes>): bytes
    requires 1 <= num <= MAX_FIELDS
  {
    if texts == [] then [] else EncodeField(num, texts[0]) + EncodeTexts(num, texts[1..])
  }

  /** Empty strings and absent messages are not written. */
  function EncodeValue(num: nat, v: Value): bytes
    requires 1 <= num <= MAX_FIELDS
  {
    match v
    case Text(text) => if text == [] then [] else EncodeField(num, text)
    case Texts(texts) => EncodeTexts(num, texts)
    case Nested(nested) => if nested.None? then [] else EncodeField(num, nested.value)
  }

  /** Fields from index k on, in order. */
  function EncodeFrom(values: seq<Value>, k: nat): bytes
    requires k <= |values| <= MAX_FIELDS
    decreases |values| - k
  {
    if k == |values| then [] else EncodeValue(k + 1, values[k]) + EncodeFrom(values, k + 1)
  }

  function EncodeMessage(m: Message): bytes
    requires |m.values| <= MAX_FIELDS
  {
    EncodeFrom(m.values, 0) + m.unrecognized
  }

  // ---------------------------------------------------------------- sizes

  function FieldSize(payload: bytes): nat {
    1 + |payload| + Sov(|payload|)
  }

  function TextsSize(texts: seq<bytes>): nat {
    if texts == [] then 0 else FieldSize(texts[0]) + TextsSize(texts[1..])
  }

  function ValueSize(v: Value): nat {
    match v
    case Text(text) => if text == [] then 0 else FieldSize(text)
    case Texts(texts) => TextsSize(texts)
    case Nested(nested) => if nested.None? then 0 else FieldSize(nested.value)
  }

  function SizeFrom(values: seq<Value>, k: nat): nat
    requires k <= |values|
    decreases |values| - k
  {
    if k == |values| then 0 else ValueSize(values[k]) + SizeFrom(values, k + 1)
  }

  function Size(m: Message): nat {
    SizeFrom(m.values, 0) + |m.unrecognized|
  }

  lemma FieldSizeIs(num: nat, payload: bytes)
    requires 1 <= num <= MAX_FIELDS
    ensures FieldSize(payload) == |EncodeField(num, payload)|
  {
    SovIsSize(|payload|);
  }

  lemma {:induction false} TextsSizeIs(num: nat, texts: seq<bytes>)
    requires 1 <= num <= MAX_FIELDS
    ensures TextsSize(texts) == |EncodeTexts(num, texts)|
  {
    if texts != [] {
      FieldSizeIs(num, texts[0]);
      TextsSizeIs(num, texts[1..]);
    }
  }

  lemma ValueSizeIs(num: nat, v: Value)
    requires 1 <= num <= MAX_FIELDS
    ensures ValueSize(v) == |EncodeValue(num, v)|
  {
    match v
    case Text(text) => FieldSizeIs(num, text);
    case Texts(texts) => TextsSizeIs(num, texts);
    case Nested(nested) => if nested.Some? { FieldSizeIs(num, nested.value); }
  }

  lemma {:induction false} SizeFromIs(values: seq<Value>, k: nat)
    requires k <= |values| <= MAX_FIELDS
    ensures SizeFrom(values, k) == |EncodeFrom(values, k)|
    decreases |values| - k
  {
    if k < |values| {
      ValueSizeIs(k + 1, values[k]);
      SizeFromIs(values, k + 1);
    }
  }

  /** The size a message declares is the size of its encoding. */
  lemma SizeIs(m: Message)
    requires |m.values| <= MAX_FIELDS
    ensures Size(m) == |EncodeMessage(m)|
  {
    SizeFromIs(m.values, 0);
  }

  // ---------------------------------------------------------------- writing backwards

  /** The buffer `was`, filled from i on, after `more` was written in front of that, down to index `at`. */
  ghost predicate Prepended(now: bytes, was: bytes, at: nat, i: nat, more: bytes) {
    && at + |more| == i <= |was| == |now|
    && now[at..] == more + was[i..]
    && forall j :: 0 <= j < at ==> now[j] == was[j]
  }

  lemma PrependNothing(s: bytes, i: nat)
    requires i <= |s|
    ensures Prepended(s, s, i, i, [])
  {
    assert s[i..] == [] + s[i..];
  }

  /** Writing twice in front is writing the second text followed by the first. */
  lemma PrependTwice(s0: bytes, s1: bytes, s2: bytes, i: nat, at1: nat, at2: nat, first: bytes, second: bytes)
    requires Prepended(s1, s0, at1, i, first) && Prepended(s2, s1, at2, at1, second)
    ensures Prepended(s2, s0, at2, i, second + first)
  {
    Assoc(second, first, s0[i..]);
  }

  method CopyBefore(buf: array<byte>, i: nat, payload: bytes) returns (at: nat)
    requires |payload| <= i <= buf.Length
    modifies buf
    ensures Prepended(buf[..], old(buf[..]), at, i, payload)
  {
    at := i - |payload|;
    forall k | 0 <= k < |payload| {
      buf[at + k] := payload[k];
    }
    assert buf[..][at..] == payload + old(buf[..])[i..];
  }

  method VarintBefore(buf: array<byte>, i: nat, v: nat) returns (at: nat)
    requires v < TWO_64 && Sov(v) <= i <= buf.Length
    modifies buf
    ensures Prepended(buf[..], old(buf[..]), at, i, Encode(v))
  {
    SovIsSize(v);
    at := EncodeInto(buf, i, v);
    assert buf[..][at..] == buf[at..i] + buf[i..];
    assert forall j :: 0 <= j < at ==> buf[j] == buf[..at][j] == old(buf[..at])[j];
  }

  method ByteBefore(buf: array<byte>, i: nat, b: byte) returns (at: nat)
    requires 1 <= i <= buf.Length
    modifies buf
    ensures Prepended(buf[..], old(buf[..]), at, i, [b])
  {
    at := i - 1;
    buf[at] := b;
    assert buf[..][at..] == [b] + old(buf[..])[i..];
  }

  /** Prepends a field to what is already at the end of the buffer: payload, then its length, then the tag. */
  method WriteField(buf: array<byte>, i: nat, num: nat, payload: bytes) returns (at: nat)
    requires 1 <= num <= MAX_FIELDS && FieldSize(payload) <= i <= buf.Length && |payload| < TWO_63
    modifies buf
    ensures Prepended(buf[..], old(buf[..]), at, i, EncodeField(num, payload))
  {
    SovIsSize(|payload|);
    ghost var s0 := buf[..];
    var at1 := CopyBefore(buf, i, payload);
    ghost var s1 := buf[..];
    var at2 := VarintBefore(buf, at1, |payload|);
    ghost var s2, size := buf[..], Encode(|payload|);
    PrependTwice(s0, s1, s2, i, at1, at2, payload, size);
    at := ByteBefore(buf, at2, num * 8 + 2);
    PrependTwice(s0, s2, buf[..], i, at2, at, size + payload, [num * 8 + 2]);
  }

  /** The texts from index j on. */
  lemma TextsFrom(num: nat, texts: seq<bytes>, j: nat)
    requires 1 <= num <= MAX_FIELDS && j < |texts|
    ensures EncodeTexts(num, texts[j..]) == EncodeField(num, texts[j]) + EncodeTexts(num, texts[j + 1..])
    ensures TextsSize(texts[j..]) == FieldSize(texts[j]) + TextsSize(texts[j + 1..])
    ensures |EncodeTexts(num, texts[j + 1..])| == TextsSize(texts[j + 1..])
    ensures TextsSize(texts[j..]) <= TextsSize(texts)
  {
    assert texts[j..][1..] == texts[j + 1..];
    TextsSizeSuffix(texts, j);
    TextsSizeIs(num, texts[j + 1..]);
  }

  lemma {:induction false} TextsSizeSuffix(texts: seq<bytes>, j: nat)
    requires j <= |texts|
    ensures TextsSize(texts[j..]) <= TextsSize(texts)
  {
    if j > 0 {
      assert texts[1..][j - 1..] == texts[j..];
      TextsSizeSuffix(texts[1..], j - 1);
    } else {
      assert texts[0..] == texts;
    }
  }

  method WriteTexts(buf: array<byte>, i: nat, num: nat, texts: seq<bytes>) returns (at: nat)
    requires 1 <= num <= MAX_FIELDS && TextsSize(texts) <= i <= buf.Length < TWO_63
    modifies buf
    ensures Prepended(buf[..], old(buf[..]), at, i, EncodeTexts(num, texts))
  {
    at := i;
    var j := |texts|;
    ghost var s, written: bytes := buf[..], [];
    PrependNothing(s, i);
    while j > 0
      invariant 0 <= j <= |texts| && written == EncodeTexts(num, texts[j..])
      invariant Prepended(buf[..], s, at, i, written)
    {
      ghost var s1, at1 := buf[..], at;
      j := j - 1;
      TextsFrom(num, texts, j);
      at := WriteField(buf, at, num, texts[j]);
      PrependTwice(s, s1, buf[..], i, at1, at, written, EncodeField(num, texts[j]));
      written := EncodeField(num, texts[j]) + written;
    }
    assert texts[0..] == texts;
  }

  method WriteValue(buf: array<byte>, i: nat, num: nat, v: Value) returns (at: nat)
    requires 1 <= num <= MAX_FIELDS && ValueSize(v) <= i <= buf.Length < TWO_63
    modifies buf
    ensures Prepended(buf[..], old(buf[..]), at, i, EncodeValue(num, v))
  {
    at := i;
    PrependNothing(buf[..], i);
    match v {
      case Text(text) =>
        if |text| > 0 {
          at := WriteField(buf, i, num, text);
        }
      case Texts(texts) =>
        at := WriteTexts(buf, i, num, texts);
      case Nested(nested) =>
        if nested.Some? {
          at := WriteField(buf, i, num, nested.value);
        }
    }
  }

  lemma EncodeFromStep(values: seq<Value>, k: nat)
    requires k < |values| <= MAX_FIELDS
    ensures EncodeFrom(values, k) == EncodeValue(k + 1, values[k]) + EncodeFrom(values, k + 1)
  {}

  lemma SizeFromStep(values: seq<Value>, k: nat)
    requires k < |values|
    ensures ValueSize(values[k]) + SizeFrom(values, k + 1) == SizeFrom(values, k) <= SizeFrom(values, 0)
  {
    SizeFromShrinks(values, k);
  }

  lemma {:induction false} SizeFromShrinks(values: seq<Value>, k: nat)
    requires k <= |values|
    ensures SizeFrom(values, k) <= SizeFrom(values, 0)
    decreases k
  {
    if k > 0 {
      SizeFromShrinks(values, k - 1);
    }
  }

  method WriteFields(buf: array<byte>, i: nat, values: seq<Value>) returns (at: nat)
    requires |values| <= MAX_FIELDS && SizeFrom(values, 0) <= i <= buf.Length < TWO_63
    modifies buf
    ensures Prepended(buf[..], old(buf[..]), at, i, EncodeFrom(values, 0))
  {
    at := i;
    var k := |values|;
    ghost var s, written: bytes := buf[..], [];
    PrependNothing(s, i);
    while k > 0
      invariant 0 <= k <= |values| && written == EncodeFrom(values, k) && at + SizeFrom(values, k) == i
      invariant Prepended(buf[..], s, at, i, written)
    {
      ghost var s1, at1 := buf[..], at;
      k := k - 1;
      EncodeFromStep(values, k);
      SizeFromStep(values, k);
      ValueSizeIs(k + 1, values[k]);
      ghost var field := EncodeValue(k + 1, values[k]);
      at := WriteValue(buf, at, k + 1, values[k]);
      PrependTwice(s, s1, buf[..], i, at1, at, written, field);
      written := field + written;
    }
  }

  /** Unrecognised bytes first, then the fields last to first; the encoding ends up in order at the buffer's end. */
  method MarshalToSizedBuffer(m: Message, buf: array<byte>) returns (n: nat)
    requires |m.values| <= MAX_FIELDS && Size(m) <= buf.Length < TWO_63
    modifies buf
    ensures n == Size(m) <= buf.Length
    ensures buf[..] == old(buf[..])[..buf.Length - n] + EncodeMessage(m)
  {
    ghost var s0 := buf[..];
    var at := CopyBefore(buf, buf.Length, m.unrecognized);
    ghost var s1, at1 := buf[..], at;
    at := WriteFields(buf, at, m.values);
    SizeIs(m);
    n := buf.Length - at;
    PrependTwice(s0, s1, buf[..], buf.Length, at1, at, m.unrecognized, EncodeFrom(m.values, 0));
    PrependedToEnd(buf[..], s0, at, EncodeMessage(m));
  }

  lemma PrependedToEnd(now: bytes, was: bytes, at: nat, all: bytes)
    requires Prepended(now, was, at, |was|, all)
    ensures now == was[..at] + all
  {
    assert now == now[..at] + now[at..];
    assert all + was[|was|..] == all;
  }

  /** A buffer of the declared size is filled exactly. */
  method Marshal(m: Message) returns (data: array<byte>)
    requires |m.values| <= MAX_FIELDS && Size(m) < TWO_63
    ensures fresh(data) && data[..] == EncodeMessage(m)
  {
    data := new byte[Size(m)](_ => 0);
    var n := MarshalToSizedBuffer(m, data);
  }

  // ---------------------------------------------------------------- reading back

  /** v2 decoded on top of v1: a later string wins, lists are joined, nested messages merged. */
  function MergeValue(v1: Value, v2: Value): Value {
    match v2
    case Text(text) => if text == [] then v1 else v2
    case Texts(texts) => if v1.Texts? then Texts(v1.texts + texts) else v1
    case Nested(nested) =>
      if nested.None? || !v1.Nested? then v1
      else if v1.nested.None? then v2
      else Nested(Some(v1.nested.value + nested.value))
  }

  function MergeFrom(a: seq<Value>, b: seq<Value>, k: nat): (r: seq<Value>)
    requires k <= |b| == |a|
    ensures |r| == |a|
    decreases |b| - k
  {
    if k == |b| then a else MergeFrom(a[k := MergeValue(a[k], b[k])], b, k + 1)
  }

  function Merge(m1: Message, m2: Message): Message
    requires |m1.values| == |m2.values|
  {
    Message(MergeFrom(m1.values, m2.values, 0), m1.unrecognized + m2.unrecognized)
  }

  predicate SameKind(a: Value, b: Value) {
    a.Text? == b.Text? && a.Texts? == b.Texts?
  }

  predicate SameShape(a: seq<Value>, b: seq<Value>) {
    |a| == |b| && forall i :: 0 <= i < |a| ==> SameKind(a[i], b[i])
  }

  /** Lengths fit a Go slice, and the nested message is one its own reader accepts. */
  predicate Fits(v: Value, accepts: bytes -> bool) {
    match v
    case Text(text) => |text| < TWO_63
    case Texts(texts) => forall i :: 0 <= i < |texts| ==> |texts[i]| < TWO_63
    case Nested(nested) => nested.Some? ==> |nested.value| < TWO_63 && accepts(nested.value)
  }

  /** A complete field at the front of u whose number is not among 1..n. */
  function UnknownField(n: nat, u: bytes): (r: Parsed<()>)
    ensures r.Ok? ==> 1 <= r.len <= |u|
  {
    match Read(u)
    case Bad => Bad
    case Ok(wire, _) => if wire % 8 == 4 || FieldNumber(wire) <= n then Bad else Skip(u, 0)
  }

  /** A string of such fields. */
  predicate UnknownFields(n: nat, u: bytes)
    decreases |u|
  {
    u == [] || (UnknownField(n, u).Ok? && UnknownFields(n, u[UnknownField(n, u).len..]))
  }

  predicate WellFormed(m: Message, accepts: bytes -> bool) {
    && |m.values| <= MAX_FIELDS
    && (forall i :: 0 <= i < |m.values| ==> Fits(m.values[i], accepts))
    && UnknownFields(|m.values|, m.unrecognized)
  }

  lemma PayloadReadsBack(payload: bytes)
    requires |payload| < TWO_63
    ensures Payload(Encode(|payload|) + payload) == Ok(payload, |Encode(|payload|)| + |payload|)
  {
    var n := |Encode(|payload|)|;
    ReadBack(|payload|, payload);
    assert (Encode(|payload|) + payload)[n..n + |payload|] == payload;
  }

  lemma RecordOfParts(values: seq<Value>, accepts: bytes -> bool, num: nat, payload: bytes, s: bytes, k: nat)
    requires 1 <= num <= |values| <= MAX_FIELDS && (values[num - 1].Nested? ==> accepts(payload))
    requires Read(s) == Ok(num * 8 + 2, 1) && Payload(s[1..]) == Ok(payload, k)
    ensures ReadRecord(values, accepts, s) == Ok(Field(num, payload), 1 + k)
  {
    assert FieldNumber(num * 8 + 2) == num;
  }

  lemma FieldReadsBack(values: seq<Value>, accepts: bytes -> bool, num: nat, payload: bytes)
    requires 1 <= num <= |values| <= MAX_FIELDS && |payload| < TWO_63
    requires values[num - 1].Nested? ==> accepts(payload)
    ensures ReadRecord(values, accepts, EncodeField(num, payload))
            == Ok(Field(num, payload), |EncodeField(num, payload)|)
  {
    var tail := Encode(|payload|) + payload;
    assert Encode(num * 8 + 2) == [num * 8 + 2];
    ReadBack(num * 8 + 2, tail);
    PayloadReadsBack(payload);
    assert EncodeField(num, payload)[1..] == tail;
    RecordOfParts(values, accepts, num, payload, EncodeField(num, payload), |tail|);
  }

  lemma DecodeField(m: Message, accepts: bytes -> bool, num: nat, payload: bytes)
    requires 1 <= num <= |m.values| <= MAX_FIELDS && |payload| < TWO_63
    requires m.values[num - 1].Nested? ==> accepts(payload)
    ensures Decode(m, accepts, EncodeField(num, payload)) == Done(Absorb(m, Field(num, payload)))
  {
    var field := EncodeField(num, payload);
    FieldReadsBack(m.values, accepts, num, payload);
    DecodeOne(m, accepts, field, Field(num, payload), |field|);
    assert field[|field|..] == [];
  }

  /** Decoding one text and then another, as outcomes only. */
  lemma DecodeThen(m: Message, accepts: bytes -> bool, a: bytes, middle: Message, b: bytes, end: Message, s: bytes)
    requires Decode(m, accepts, a) == Done(middle) && Decode(middle, accepts, b) == Done(end) && s == a + b
    ensures Decode(m, accepts, s) == Done(end)
  {
    DecodeConcat(m, accepts, a, b);
  }

  /** m with texts appended to field num. */
  function Appended(m: Message, num: nat, texts: seq<bytes>): Message
    requires 1 <= num <= |m.values| && m.values[num - 1].Texts?
  {
    m.(values := m.values[num - 1 := Texts(m.values[num - 1].texts + texts)])
  }

  lemma AppendedParts(m: Message, num: nat, texts: seq<bytes>)
    requires 1 <= num <= |m.values| && m.values[num - 1].Texts?
    ensures texts == [] ==> Appended(m, num, texts) == m
    ensures texts != [] ==>
              var next := Absorb(m, Field(num, texts[0]));
              next.values[num - 1].Texts? && Appended(next, num, texts[1..]) == Appended(m, num, texts)
  {
    var before := m.values[num - 1].texts;
    if texts == [] {
      assert before + texts == before && m.values[num - 1 := Texts(before)] == m.values;
    } else {
      assert (before + [texts[0]]) + texts[1..] == before + texts;
    }
  }

  lemma {:induction false} DecodeTexts(m: Message, accepts: bytes -> bool, num: nat, texts: seq<bytes>)
    requires 1 <= num <= |m.values| <= MAX_FIELDS && m.values[num - 1].Texts?
    requires forall i :: 0 <= i < |texts| ==> |texts[i]| < TWO_63
    ensures Decode(m, accepts, EncodeTexts(num, texts)) == Done(Appended(m, num, texts))
    decreases |texts|
  {
    AppendedParts(m, num, texts);
    if texts != [] {
      var next := Absorb(m, Field(num, texts[0]));
      var field, more := EncodeField(num, texts[0]), EncodeTexts(num, texts[1..]);
      DecodeField(m, accepts, num, texts[0]);
      DecodeTexts(next, accepts, num, texts[1..]);
      DecodeThen(m, accepts, field, next, more, Appended(m, num, texts), EncodeTexts(num, texts));
    }
  }

  /** m with v merged into field num. */
  function Merged(m: Message, num: nat, v: Value): Message
    requires 1 <= num <= |m.values|
  {
    m.(values := m.values[num - 1 := MergeValue(m.values[num - 1], v)])
  }

  /** The one payload written for a value that is not a list, if any. */
  function PayloadOf(v: Value): Option<bytes>
    requires !v.Texts?
  {
    if v.Nested? then v.nested else if v.text == [] then None else Some(v.text)
  }

  /** Merging a single value is absorbing its payload, or nothing when nothing is written. */
  lemma MergedOne(m: Message, num: nat, v: Value)
    requires 1 <= num <= |m.values| <= MAX_FIELDS && !v.Texts? && SameKind(m.values[num - 1], v)
    ensures PayloadOf(v) == None ==> EncodeValue(num, v) == [] && Merged(m, num, v) == m
    ensures PayloadOf(v).Some? ==>
              && EncodeValue(num, v) == EncodeField(num, PayloadOf(v).value)
              && Merged(m, num, v) == Absorb(m, Field(num, PayloadOf(v).value))
  {
    assert m.values[num - 1 := m.values[num - 1]] == m.values;
  }

  lemma DecodeValue(m: Message, accepts: bytes -> bool, num: nat, v: Value)
    requires 1 <= num <= |m.values| <= MAX_FIELDS && SameKind(m.values[num - 1], v) && Fits(v, accepts)
    ensures Decode(m, accepts, EncodeValue(num, v)) == Done(Merged(m, num, v))
  {
    if v.Texts? {
      DecodeTexts(m, accepts, num, v.texts);
    } else {
      MergedOne(m, num, v);
      if PayloadOf(v).Some? {
        DecodeField(m, accepts, num, PayloadOf(v).value);
      }
    }
  }

  /** What the fields from k on add to a message. */
  function MergedFrom(m: Message, values: seq<Value>, k: nat): Message
    requires k <= |values| == |m.values|
  {
    Message(MergeFrom(m.values, values, k), m.unrecognized)
  }

  lemma MergedStep(m: Message, values: seq<Value>, k: nat)
    requires k < |values| && SameShape(m.values, values)
    ensures var next := Merged(m, k + 1, values[k]);
            && |values| == |m.values| == |next.values| && SameKind(m.values[k], values[k])
            && SameShape(next.values, values) && MergedFrom(next, values, k + 1) == MergedFrom(m, values, k)
  {}

  /** Field k + 1 and then the later ones. */
  lemma DecodeValueThen(m: Message, accepts: bytes -> bool, values: seq<Value>, k: nat, end: Message)
    requires k < |values| == |m.values| <= MAX_FIELDS && SameKind(m.values[k], values[k]) && Fits(values[k], accepts)
    requires Decode(Merged(m, k + 1, values[k]), accepts, EncodeFrom(values, k + 1)) == Done(end)
    ensures Decode(m, accepts, EncodeFrom(values, k)) == Done(end)
  {
    var next, first, later := Merged(m, k + 1, values[k]), EncodeValue(k + 1, values[k]), EncodeFrom(values, k + 1);
    EncodeFromStep(values, k);
    DecodeValue(m, accepts, k + 1, values[k]);
    DecodeThen(m, accepts, first, next, later, end, EncodeFrom(values, k));
  }

  lemma DecodeNoField(m: Message, accepts: bytes -> bool, values: seq<Value>)
    requires SameShape(m.values, values) && |values| <= MAX_FIELDS
    ensures Decode(m, accepts, EncodeFrom(values, |values|)) == Done(MergedFrom(m, values, |values|))
  {}

  lemma {:induction false} DecodeFields(m: Message, accepts: bytes -> bool, values: seq<Value>, k: nat)
    requires k <= |values| <= MAX_FIELDS && SameShape(m.values, values)
    requires forall i :: 0 <= i < |values| ==> Fits(values[i], accepts)
    ensures Decode(m, accepts, EncodeFrom(values, k)) == Done(MergedFrom(m, values, k))
    decreases |values| - k
  {
    hide *;
    if k == |values| {
      DecodeNoField(m, accepts, values);
    } else {
      MergedStep(m, values, k);
      DecodeFields(Merged(m, k + 1, values[k]), accepts, values, k + 1);
      DecodeValueThen(m, accepts, values, k, MergedFrom(m, values, k));
    }
  }

  lemma UnknownRecord(values: seq<Value>, accepts: bytes -> bool, u: bytes)
    requires UnknownField(|values|, u).Ok?
    ensures var n := UnknownField(|values|, u).len; ReadRecord(values, accepts, u) == Ok(Unknown(u[..n]), n)
  {}

  lemma DecodeOne(m: Message, accepts: bytes -> bool, s: bytes, record: Record, n: nat)
    requires ReadRecord(m.values, accepts, s) == Ok(record, n)
    ensures 1 <= n <= |s| && (record.Field? ==> 1 <= record.num <= |m.values|)
    ensures Decode(m, accepts, s) == Decode(Absorb(m, record), accepts, s[n..])
  {}

  lemma {:induction false} DecodeUnknown(m: Message, accepts: bytes -> bool, u: bytes)
    requires UnknownFields(|m.values|, u)
    ensures Decode(m, accepts, u) == Done(m.(unrecognized := m.unrecognized + u))
    decreases |u|
  {
    if u == [] {
      assert m.unrecognized + u == m.unrecognized;
    } else {
      var n := UnknownField(|m.values|, u).len;
      UnknownRecord(m.values, accepts, u);
      DecodeOne(m, accepts, u, Unknown(u[..n]), n);
      DecodeUnknown(Absorb(m, Unknown(u[..n])), accepts, u[n..]);
      Assoc(m.unrecognized, u[..n], u[n..]);
      assert u[..n] + u[n..] == u;
    }
  }

  /** Decoding an encoding on top of a message merges the two, field by field. */
  lemma DecodeMerges(m1: Message, m2: Message, accepts: bytes -> bool)
    requires WellFormed(m2, accepts) && SameShape(m1.values, m2.values)
    ensures Decode(m1, accepts, EncodeMessage(m2)) == Done(Merge(m1, m2))
  {
    var middle := m1.(values := MergeFrom(m1.values, m2.values, 0));
    DecodeFields(m1, accepts, m2.values, 0);
    DecodeUnknown(middle, accepts, m2.unrecognized);
    DecodeThen(m1, accepts, EncodeFrom(m2.values, 0), middle, m2.unrecognized, Merge(m1, m2), EncodeMessage(m2));
  }

  function BlankValue(v: Value): Value {
    match v case Text(_) => Text([]) case Texts(_) => Texts([]) case Nested(_) => Nested(None)
  }

  /** The message a reader starts from. */
  function Blank(m: Message): Message {
    Message(seq(|m.values|, i requires 0 <= i < |m.values| => BlankValue(m.values[i])), [])
  }

  lemma {:induction false} MergeFromAt(a: seq<Value>, b: seq<Value>, k: nat, i: nat)
    requires k <= |b| == |a| && i < |a|
    ensures MergeFrom(a, b, k)[i] == if i < k then a[i] else MergeValue(a[i], b[i])
    decreases |b| - k
  {
    if k < |b| {
      MergeFromAt(a[k := MergeValue(a[k], b[k])], b, k + 1, i);
    }
  }

  /** Merging is field by field. */
  lemma MergeAt(m1: Message, m2: Message, i: nat)
    requires |m1.values| == |m2.values| && i < |m1.values|
    ensures Merge(m1, m2).values[i] == MergeValue(m1.values[i], m2.values[i])
  {
    MergeFromAt(m1.values, m2.values, 0, i);
  }

  lemma MergeBlank(m: Message)
    ensures Merge(Blank(m), m) == m
  {
    forall i | 0 <= i < |m.values|
      ensures Merge(Blank(m), m).values[i] == m.values[i]
    {
      MergeAt(Blank(m), m, i);
    }
    assert Merge(Blank(m), m).values == m.values;
  }

  /** What is marshalled is unmarshalled unchanged. */
  lemma RoundTrip(m: Message, accepts: bytes -> bool)
    requires WellFormed(m, accepts)
    ensures Decode(Blank(m), accepts, EncodeMessage(m)) == Done(m)
  {
    DecodeMerges(Blank(m), m, accepts);
    MergeBlank(m);
  }

  /** One encoding after another decodes to the field-wise merge. */
  lemma ConcatenationMerges(m1: Message, m2: Message, accepts: bytes -> bool)
    requires WellFormed(m1, accepts) && WellFormed(m2, accepts) && SameShape(m1.values, m2.values)
    ensures Decode(Blank(m1), accepts, EncodeMessage(m1) + EncodeMessage(m2)) == Done(Merge(m1, m2))
  {
    RoundTrip(m1, accepts);
    DecodeConcat(Blank(m1), accepts, EncodeMessage(m1), EncodeMessage(m2));
    DecodeMerges(m1, m2, accepts);
  }

  // ---------------------------------------------------------------- the four messages

  datatype ChangeRevisionRequest = ChangeRevisionRequest(
    appName: bytes, namespace: bytes, currentRevision: bytes, previousRevision: bytes,
    paths: seq<bytes>, repo: Option<bytes>, unrecognized: bytes)

  datatype ChangeRevisionResponse = ChangeRevisionResponse(revision: bytes, unrecognized: bytes)

  datatype CredentialsRequest = CredentialsRequest(nonce: bytes, unrecognized: bytes)

  datatype CredentialsResponse = CredentialsResponse(username: bytes, password: bytes, unrecognized: bytes)

  function FromRequest(r: ChangeRevisionRequest): Message {
    Message([Text(r.appName), Text(r.namespace), Text(r.currentRevision), Text(r.previousRevision),
             Texts(r.paths), Nested(r.repo)], r.unrecognized)
  }

  const NEW_REQUEST := FromRequest(ChangeRevisionRequest([], [], [], [], [], None, []))

  function FromResponse(r: ChangeRevisionResponse): Message {
    Message([Text(r.revision)], r.unrecognized)
  }

  function FromNonce(r: CredentialsRequest): Message {
    Message([Text(r.nonce)], r.unrecognized)
  }

  function FromCredentials(r: CredentialsResponse): Message {
    Message([Text(r.username), Text(r.password)], r.unrecognized)
  }

  function Tagged(tag: byte, payload: bytes): bytes {
    [tag] + (Encode(|payload|) + payload)
  }

  function Optional(tag: byte, text: bytes): bytes {
    if text == [] then [] else Tagged(tag, text)
  }

  function Repeated(tag: byte, texts: seq<bytes>): bytes {
    if texts == [] then [] else Tagged(tag, texts[0]) + Repeated(tag, texts[1..])
  }

  lemma {:induction false} RepeatedIs(num: nat, texts: seq<bytes>)
    requires 1 <= num <= MAX_FIELDS
    ensures EncodeTexts(num, texts) == Repeated(num * 8 + 2, texts)
  {
    if texts != [] {
      RepeatedIs(num, texts[1..]);
    }
  }

  /** One field in front of the later ones. */
  lemma LayoutStep(values: seq<Value>, k: nat)
    requires k < |values| <= MAX_FIELDS
    ensures EncodeFrom(values, k) ==
            (match values[k]
             case Text(text) => Optional((k + 1) * 8 + 2, text)
             case Texts(texts) => Repeated((k + 1) * 8 + 2, texts)
             case Nested(nested) => if nested.None? then [] else Tagged((k + 1) * 8 + 2, nested.value))
            + EncodeFrom(values, k + 1)
  {
    if values[k].Texts? {
      RepeatedIs(k + 1, values[k].texts);
    }
  }

  /** The request on the wire, tag by tag. */
  lemma RequestLayout(r: ChangeRevisionRequest)
    ensures EncodeMessage(FromRequest(r)) ==
            (Optional(0x0a, r.appName) + (Optional(0x12, r.namespace) + (Optional(0x1a, r.currentRevision)
             + (Optional(0x22, r.previousRevision) + (Repeated(0x2a, r.paths)
                + (if r.repo.None? then [] else Tagged(0x32, r.repo.value)))))))
            + r.unrecognized
  {
    var v := FromRequest(r).values;
    var repo := if r.repo.None? then [] else Tagged(0x32, r.repo.value);
    assert repo + [] == repo;
    LayoutStep(v, 5);
    LayoutStep(v, 4);
    LayoutStep(v, 3);
    LayoutStep(v, 2);
    LayoutStep(v, 1);
    LayoutStep(v, 0);
    assert EncodeFrom(v, 6) == [];
  }

  lemma ResponseLayout(r: ChangeRevisionResponse)
    ensures EncodeMessage(FromResponse(r)) == Optional(0x0a, r.revision) + r.unrecognized
  {
    LayoutStep(FromResponse(r).values, 0);
    assert EncodeFrom(FromResponse(r).values, 1) == [] && Optional(0x0a, r.revision) + [] == Optional(0x0a, r.revision);
  }

  lemma NonceLayout(r: CredentialsRequest)
    ensures EncodeMessage(FromNonce(r)) == Optional(0x0a, r.nonce) + r.unrecognized
  {
    LayoutStep(FromNonce(r).values, 0);
    assert EncodeFrom(FromNonce(r).values, 1) == [] && Optional(0x0a, r.nonce) + [] == Optional(0x0a, r.nonce);
  }

  lemma CredentialsLayout(r: CredentialsResponse)
    ensures EncodeMessage(FromCredentials(r)) ==
            (Optional(0x0a, r.username) + Optional(0x12, r.password)) + r.unrecognized
  {
    var v := FromCredentials(r).values;
    LayoutStep(v, 1);
    LayoutStep(v, 0);
    assert EncodeFrom(v, 2) == [] && Optional(0x12, r.password) + [] == Optional(0x12, r.password);
  }

  /** Every request round-trips if lengths fit, the repository is one its reader accepts, and extra bytes are fields. */
  lemma RequestRoundTrip(r: ChangeRevisionRequest, accepts: bytes -> bool)
    requires |r.appName| < TWO_63 && |r.namespace| < TWO_63
    requires |r.currentRevision| < TWO_63 && |r.previousRevision| < TWO_63
    requires forall i :: 0 <= i < |r.paths| ==> |r.paths[i]| < TWO_63
    requires r.repo.Some? ==> |r.repo.value| < TWO_63 && accepts(r.repo.value)
    requires UnknownFields(6, r.unrecognized)
    ensures Decode(NEW_REQUEST, accepts, EncodeMessage(FromRequest(r))) == Done(FromRequest(r))
  {
    assert Blank(FromRequest(r)) == NEW_REQUEST;
    RoundTrip(FromRequest(r), accepts);
  }

  lemma ResponseRoundTrip(r: ChangeRevisionResponse, accepts: bytes -> bool)
    requires |r.revision| < TWO_63 && UnknownFields(1, r.unrecognized)
    ensures Decode(FromResponse(ChangeRevisionResponse([], [])), accepts, EncodeMessage(FromResponse(r)))
            == Done(FromResponse(r))
  {
    assert Blank(FromResponse(r)) == FromResponse(ChangeRevisionResponse([], []));
    RoundTrip(FromResponse(r), accepts);
  }

  lemma NonceRoundTrip(r: CredentialsRequest, accepts: bytes -> bool)
    requires |r.nonce| < TWO_63 && UnknownFields(1, r.unrecognized)
    ensures Decode(FromNonce(CredentialsRequest([], [])), accepts, EncodeMessage(FromNonce(r))) == Done(FromNonce(r))
  {
    assert Blank(FromNonce(r)) == FromNonce(CredentialsRequest([], []));
    RoundTrip(FromNonce(r), accepts);
  }

  lemma CredentialsRoundTrip(r: CredentialsResponse, accepts: bytes -> bool)
    requires |r.username| < TWO_63 && |r.password| < TWO_63 && UnknownFields(2, r.unrecognized)
    ensures Decode(FromCredentials(CredentialsResponse([], [], [])), accepts, EncodeMessage(FromCredentials(r)))
            == Done(FromCredentials(r))
  {
    assert Blank(FromCredentials(r)) == FromCredentials(CredentialsResponse([], [], []));
    RoundTrip(FromCredentials(r), accepts);
  }
}
