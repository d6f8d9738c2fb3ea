/** Whatever bytes a reader accepts, writing the message again and reading that gives the same message. */
module Canonical {
  import opened Sequences
  import opened Varint
  import opened Wire
  import opened Codec

  // ---------------------------------------------------------------- unknown fields

  /** The bytes an unknown field was read from are that field and nothing else. */
  lemma UnknownExact(n: nat, s: bytes)
    requires UnknownField(n, s).Ok?
    ensures var len := UnknownField(n, s).len; UnknownField(n, s[..len]) == Ok((), len)
  {
    var len := Skip(s, 0).len;
    SkipExact(s, 0, len);
    ItemWithin(s);
    ReadExact(s, len);
  }

  lemma ItemWithin(s: bytes)
    requires Skip(s, 0).Ok?
    ensures Read(s).Ok? && Read(s).len <= Skip(s, 0).len
  {}

  lemma UnknownPrefix(n: nat, s: bytes, t: bytes)
    requires UnknownField(n, s).Ok?
    ensures UnknownField(n, s + t) == UnknownField(n, s)
  {
    ReadPrefix(s, t);
    SkipPrefix(s, 0, t);
  }

  lemma {:induction false} UnknownAppend(n: nat, a: bytes, raw: bytes)
    requires UnknownFields(n, a) && UnknownField(n, raw) == Ok((), |raw|)
    ensures UnknownFields(n, a + raw)
    decreases |a|
  {
    if a == [] {
      assert a + raw == raw && raw[|raw|..] == [];
    } else {
      UnknownPrefix(n, a, raw);
      var len := UnknownField(n, a).len;
      assert (a + raw)[len..] == a[len..] + raw;
      UnknownAppend(n, a[len..], raw);
    }
  }

  // ---------------------------------------------------------------- what a failed call leaves behind

  lemma PayloadExact(s: bytes, m: nat)
    requires Payload(s).Ok? && Payload(s).len <= m <= |s|
    ensures Payload(s[..m]) == Payload(s)
  {
    var Ok(length, n) := Read(s);
    ReadExact(s, m);
    SliceOfTake(s, m, n, n + length);
  }

  lemma KnownExact(values: seq<Value>, accepts: bytes -> bool, s: bytes, m: nat)
    requires ReadRecord(values, accepts, s).Ok? && ReadRecord(values, accepts, s).value.Field?
    requires ReadRecord(values, accepts, s).len == m
    ensures ReadRecord(values, accepts, s[..m]) == ReadRecord(values, accepts, s)
  {
    var Ok(wire, n) := Read(s);
    assert Payload(s[n..]).Ok? && m == n + Payload(s[n..]).len;
    ReadExact(s, m);
    assert s[..m][n..] == s[n..][..m - n];
    PayloadExact(s[n..], m - n);
  }

  lemma SkippedExact(values: seq<Value>, accepts: bytes -> bool, s: bytes, m: nat)
    requires ReadRecord(values, accepts, s).Ok? && ReadRecord(values, accepts, s).value.Unknown?
    requires ReadRecord(values, accepts, s).len == m
    ensures ReadRecord(values, accepts, s[..m]) == ReadRecord(values, accepts, s)
  {
    assert Skip(s, 0) == Ok((), m);
    SkipExact(s, 0, m);
    ItemWithin(s);
    ReadExact(s, m);
    assert s[..m][..m] == s[..m];
  }

  /** A record depends only on its own bytes. */
  lemma RecordExact(values: seq<Value>, accepts: bytes -> bool, s: bytes)
    requires ReadRecord(values, accepts, s).Ok?
    ensures ReadRecord(values, accepts, s[..ReadRecord(values, accepts, s).len]) == ReadRecord(values, accepts, s)
  {
    var r := ReadRecord(values, accepts, s);
    if r.value.Field? {
      KnownExact(values, accepts, s, r.len);
    } else {
      SkippedExact(values, accepts, s, r.len);
    }
  }

  lemma DecodeRecord(m: Message, accepts: bytes -> bool, s: bytes)
    requires ReadRecord(m.values, accepts, s).Ok?
    ensures var r := ReadRecord(m.values, accepts, s); Decode(m, accepts, s[..r.len]) == Done(Absorb(m, r.value))
  {
    var r := ReadRecord(m.values, accepts, s);
    RecordExact(m.values, accepts, s);
    DecodeOne(m, accepts, s[..r.len], r.value, r.len);
    assert s[..r.len][r.len..] == [];
  }

  /** A prefix after the first n bytes, as part of a longer one. */
  lemma LongerPrefix(s: bytes, n: nat, k: nat)
    requires n + k <= |s|
    ensures s[..n + k] == s[..n] + s[n..][..k] && s[n + k..] == s[n..][k..]
  {}

  /** What a failed call on s leaves behind: the records of the first k bytes, after which there is none. */
  ghost predicate StopsAt(m: Message, accepts: bytes -> bool, s: bytes, k: nat, partial: Message) {
    && k < |s| && Decode(m, accepts, s[..k]) == Done(partial)
    && ReadRecord(partial.values, accepts, s[k..]).Bad?
  }

  lemma StopsAtOnce(m: Message, accepts: bytes -> bool, s: bytes)
    requires s != [] && ReadRecord(m.values, accepts, s).Bad?
    ensures Decode(m, accepts, s) == Malformed(m) && StopsAt(m, accepts, s, 0, m)
  {
    assert s[..0] == [] && s[0..] == s;
  }

  /** A record more in front. */
  lemma StopsLater(m: Message, accepts: bytes -> bool, s: bytes, record: Record, n: nat, k: nat, partial: Message)
    requires ReadRecord(m.values, accepts, s) == Ok(record, n)
    requires StopsAt(Absorb(m, record), accepts, s[n..], k, partial)
    ensures StopsAt(m, accepts, s, n + k, partial)
  {
    DecodeRecord(m, accepts, s);
    LongerPrefix(s, n, k);
    DecodeThen(m, accepts, s[..n], Absorb(m, record), s[n..][..k], partial, s[..n + k]);
  }

  /** A failed call has decoded the records before the first unreadable one, and nothing else. */
  lemma {:induction false} FailureKeepsPrefix(m: Message, accepts: bytes -> bool, s: bytes, d: Decoded)
    requires d == Decode(m, accepts, s) && d.Malformed?
    ensures exists k: nat :: StopsAt(m, accepts, s, k, d.partial)
    decreases |s|
  {
    var r := ReadRecord(m.values, accepts, s);
    if r.Bad? {
      StopsAtOnce(m, accepts, s);
    } else {
      var next, rest := Absorb(m, r.value), s[r.len..];
      DecodeOne(m, accepts, s, r.value, r.len);
      FailureKeepsPrefix(next, accepts, rest, d);
      var k: nat :| StopsAt(next, accepts, rest, k, d.partial);
      StopsLater(m, accepts, s, r.value, r.len, k, d.partial);
    }
  }

  // ---------------------------------------------------------------- lengths

  function TextsBulk(texts: seq<bytes>): nat {
    if texts == [] then 0 else var n := |texts| - 1; TextsBulk(texts[..n]) + |texts[n]|
  }

  /** Bytes of payload held by a value. */
  function Bulk(v: Value): nat {
    match v
    case Text(text) => |text|
    case Texts(texts) => TextsBulk(texts)
    case Nested(nested) => if nested.None? then 0 else |nested.value|
  }

  lemma {:induction false} TextWithin(texts: seq<bytes>, i: nat)
    requires i < |texts|
    ensures |texts[i]| <= TextsBulk(texts)
  {
    if i < |texts| - 1 {
      TextWithin(texts[..|texts| - 1], i);
    }
  }

  lemma AddBulk(v: Value, payload: bytes)
    ensures Bulk(Add(v, payload)) <= Bulk(v) + |payload|
  {
    if v.Texts? {
      assert (v.texts + [payload])[..|v.texts|] == v.texts;
    }
  }

  // ---------------------------------------------------------------- what decoding produces

  /** Repository readers accept the concatenation of what they accept. */
  ghost predicate Composes(accepts: bytes -> bool) {
    forall a: bytes, b: bytes {:trigger accepts(a + b)} :: accepts(a) && accepts(b) ==> accepts(a + b)
  }

  predicate ValueOk(v: Value, accepts: bytes -> bool, budget: nat) {
    Bulk(v) <= budget && (v.Nested? && v.nested.Some? ==> accepts(v.nested.value))
  }

  predicate ValuesOk(values: seq<Value>, accepts: bytes -> bool, budget: nat) {
    forall i :: 0 <= i < |values| ==> ValueOk(values[i], accepts, budget)
  }

  /** Every value is within budget, and the unrecognised bytes are unknown fields. */
  predicate Produced(m: Message, accepts: bytes -> bool, budget: nat) {
    ValuesOk(m.values, accepts, budget) && UnknownFields(|m.values|, m.unrecognized)
  }

  /** What is known of a record read from `len` bytes. */
  predicate RecordOk(values: seq<Value>, accepts: bytes -> bool, record: Record, len: nat) {
    match record
    case Field(num, payload) =>
      1 <= num <= |values| && |payload| <= len && (values[num - 1].Nested? ==> accepts(payload))
    case Unknown(raw) => UnknownField(|values|, raw) == Ok((), |raw|)
  }

  lemma RecordFacts(values: seq<Value>, accepts: bytes -> bool, s: bytes)
    requires ReadRecord(values, accepts, s).Ok?
    ensures var r := ReadRecord(values, accepts, s); RecordOk(values, accepts, r.value, r.len)
  {
    var r := ReadRecord(values, accepts, s);
    if r.value.Unknown? {
      assert UnknownField(|values|, s) == Ok((), r.len);
      UnknownExact(|values|, s);
    }
  }

  lemma AddProduces(v: Value, accepts: bytes -> bool, payload: bytes, budget: nat)
    requires Composes(accepts) && ValueOk(v, accepts, budget) && (v.Nested? ==> accepts(payload))
    ensures ValueOk(Add(v, payload), accepts, budget + |payload|)
  {
    AddBulk(v, payload);
  }

  lemma FieldProduces(values: seq<Value>, accepts: bytes -> bool, num: nat, payload: bytes, len: nat, budget: nat)
    requires Composes(accepts) && ValuesOk(values, accepts, budget) && |payload| <= len
    requires 1 <= num <= |values| && (values[num - 1].Nested? ==> accepts(payload))
    ensures ValuesOk(values[num - 1 := Add(values[num - 1], payload)], accepts, budget + len)
  {
    AddProduces(values[num - 1], accepts, payload, budget);
  }

  lemma AbsorbProduces(m: Message, accepts: bytes -> bool, record: Record, len: nat, budget: nat)
    requires Composes(accepts) && Produced(m, accepts, budget) && RecordOk(m.values, accepts, record, len)
    ensures Produced(Absorb(m, record), accepts, budget + len)
  {
    match record
    case Field(num, payload) => FieldProduces(m.values, accepts, num, payload, len, budget);
    case Unknown(raw) =>
      UnknownAppend(|m.values|, m.unrecognized, raw);
      assert ValuesOk(m.values, accepts, budget + len);
  }

  lemma AbsorbShape(m: Message, record: Record)
    requires record.Field? ==> 1 <= record.num <= |m.values|
    ensures SameShape(m.values, Absorb(m, record).values)
  {}

  /** One record of decoding. */
  lemma RecordProduces(m: Message, accepts: bytes -> bool, s: bytes, budget: nat) returns (next: Message, n: nat)
    requires Composes(accepts) && Produced(m, accepts, budget) && ReadRecord(m.values, accepts, s).Ok?
    ensures 1 <= n <= |s| && Decode(m, accepts, s) == Decode(next, accepts, s[n..])
    ensures SameShape(m.values, next.values) && Produced(next, accepts, budget + n)
  {
    var r := ReadRecord(m.values, accepts, s);
    RecordFacts(m.values, accepts, s);
    AbsorbProduces(m, accepts, r.value, r.len, budget);
    AbsorbShape(m, r.value);
    DecodeOne(m, accepts, s, r.value, r.len);
    next, n := Absorb(m, r.value), r.len;
  }

  lemma {:induction false} DecodeProduces(m: Message, accepts: bytes -> bool, s: bytes, budget: nat)
    requires Composes(accepts) && Produced(m, accepts, budget) && Decode(m, accepts, s).Done?
    ensures var d := Decode(m, accepts, s).message;
            SameShape(m.values, d.values) && Produced(d, accepts, budget + |s|)
    decreases |s|
  {
    if s != [] {
      var next, n := RecordProduces(m, accepts, s, budget);
      DecodeProduces(next, accepts, s[n..], budget + n);
    }
  }

  lemma ProducedFits(m: Message, accepts: bytes -> bool, budget: nat)
    requires Produced(m, accepts, budget) && budget < TWO_63 && |m.values| <= MAX_FIELDS
    ensures WellFormed(m, accepts)
  {
    forall i | 0 <= i < |m.values|
      ensures Fits(m.values[i], accepts)
    {
      assert ValueOk(m.values[i], accepts, budget);
      if m.values[i].Texts? {
        forall j | 0 <= j < |m.values[i].texts|
          ensures |m.values[i].texts[j]| < TWO_63
        {
          TextWithin(m.values[i].texts, j);
        }
      }
    }
  }

  /**
   For every byte string a reader accepts, starting from a blank message: the message it yields is well formed, and
   encoding and decoding it again yields it unchanged.
   */
  lemma ReencodeDecodes(blank: Message, accepts: bytes -> bool, data: bytes)
    requires Composes(accepts) && |blank.values| <= MAX_FIELDS && blank == Blank(blank) && |data| < TWO_63
    requires Decode(blank, accepts, data).Done?
    ensures var m := Decode(blank, accepts, data).message;
            WellFormed(m, accepts) && Decode(blank, accepts, EncodeMessage(m)) == Done(m)
  {
    var m := Decode(blank, accepts, data).message;
    forall i | 0 <= i < |blank.values|
      ensures ValueOk(blank.values[i], accepts, 0)
    {
      assert blank.values[i] == BlankValue(blank.values[i]);
    }
    DecodeProduces(blank, accepts, data, 0);
    ProducedFits(m, accepts, |data|);
    SameBlank(blank, m);
    RoundTrip(m, accepts);
  }

  lemma SameBlank(blank: Message, m: Message)
    requires blank == Blank(blank) && SameShape(blank.values, m.values)
    ensures Blank(m) == blank
  {
    assert forall i :: 0 <= i < |m.values| ==>
             Blank(m).values[i] == BlankValue(m.values[i]) == BlankValue(blank.values[i]);
    assert Blank(m).values == Blank(blank).values;
  }
}
