/**
 The message codec. The generated code of each message follows one template: fields 1..n, all length-delimited
 (strings, repeated strings or a nested message), and whatever bytes its reader did not recognise.
 */
module Wire {
  import opened Wrappers
  import opened Varint

  type bytes = seq<byte>

  // ---------------------------------------------------------------- skipping an unknown field

  /** What follows a tag: its length in bytes, and the group depth after it. */
  function Body(s: bytes, wireType: nat, depth: nat): Parsed<nat> {
    match wireType
    case 0 => (match Read(s) case Ok(_, n) => Ok(depth, n) case Bad => Bad)
    case 1 => Ok(depth, 8)
    case 2 =>
      (match Read(s)
       case Ok(length, n) => if length >= TWO_63 then Bad else Ok(depth, n + length)
       case Bad => Bad)
    case 3 => Ok(depth + 1, 0)
    case 4 => if depth == 0 then Bad else Ok(depth - 1, 0)
    case 5 => Ok(depth, 4)
    case _ => Bad
  }

  /** A tag and what belongs to it directly; it may end past s. */
  function Item(s: bytes, depth: nat): (r: Parsed<nat>)
    ensures r.Ok? ==> r.len >= 1
  {
    match Read(s)
    case Bad => Bad
    case Ok(wire, n) =>
      match Body(s[n..], wire % 8, depth) case Bad => Bad case Ok(deeper, more) => Ok(deeper, n + more)
  }

  /** A complete field, or a group with everything nested in it, at the front of s. */
  function Skip(s: bytes, depth: nat): (r: Parsed<()>)
    ensures r.Ok? ==> 1 <= r.len <= |s|
    decreases |s|
  {
    match Item(s, depth)
    case Bad => Bad
    case Ok(deeper, n) =>
      if n > |s| then Bad
      else if deeper == 0 then Ok((), n)
      else match Skip(s[n..], deeper) case Ok(_, rest) => Ok((), n + rest) case Bad => Bad
  }

  /** One unfolding of the skip. */
  lemma SkipStep(s: bytes, depth: nat)
    ensures var item := Item(s, depth);
            Skip(s, depth) ==
            if item.Bad? || item.len > |s| then Bad
            else if item.value == 0 then Ok((), item.len)
            else Shifted(Skip(s[item.len..], item.value), item.len)
  {}

  function Shifted(r: Parsed<()>, n: nat): Parsed<()> {
    match r case Ok(_, rest) => Ok((), n + rest) case Bad => Bad
  }

  lemma BodyPrefix(s: bytes, wireType: nat, depth: nat, t: bytes)
    requires Body(s, wireType, depth).Ok?
    ensures Body(s + t, wireType, depth) == Body(s, wireType, depth)
  {
    if wireType == 0 || wireType == 2 {
      ReadPrefix(s, t);
    }
  }

  lemma ItemPrefix(s: bytes, depth: nat, t: bytes)
    requires Item(s, depth).Ok?
    ensures Item(s + t, depth) == Item(s, depth)
  {
    ReadPrefix(s, t);
    var Ok(wire, n) := Read(s);
    assert (s + t)[n..] == s[n..] + t;
    BodyPrefix(s[n..], wire % 8, depth, t);
  }

  /** Two texts with the same first item and the same way on are skipped alike. */
  lemma SkipAlike(s: bytes, t: bytes, depth: nat, deeper: nat, n: nat)
    requires Item(s, depth) == Item(t, depth) == Ok(deeper, n) && n <= |s| && n <= |t|
    requires deeper > 0 ==> Skip(s[n..], deeper) == Skip(t[n..], deeper)
    ensures Skip(s, depth) == Skip(t, depth)
  {
    SkipStep(s, depth);
    SkipStep(t, depth);
  }

  /** The first item of a successful skip, and what is left of it. */
  lemma SkipParts(s: bytes, depth: nat) returns (deeper: nat, n: nat)
    requires Skip(s, depth).Ok?
    ensures Item(s, depth) == Ok(deeper, n) && 1 <= n <= Skip(s, depth).len
    ensures deeper > 0 ==> Skip(s[n..], deeper) == Ok((), Skip(s, depth).len - n)
  {
    SkipStep(s, depth);
    deeper, n := Item(s, depth).value, Item(s, depth).len;
  }

  lemma {:induction false} SkipPrefix(s: bytes, depth: nat, t: bytes)
    requires Skip(s, depth).Ok?
    ensures Skip(s + t, depth) == Skip(s, depth)
    decreases |s|
  {
    var deeper, n := SkipParts(s, depth);
    ItemPrefix(s, depth, t);
    if deeper > 0 {
      assert (s + t)[n..] == s[n..] + t;
      SkipPrefix(s[n..], deeper, t);
    }
    SkipAlike(s + t, s, depth, deeper, n);
  }

  lemma ItemExact(s: bytes, depth: nat, m: nat)
    requires Item(s, depth).Ok? && Item(s, depth).len <= m <= |s|
    ensures Item(s[..m], depth) == Item(s, depth)
  {
    ReadExact(s, m);
    var Ok(wire, n) := Read(s);
    assert s[..m][n..] == s[n..][..m - n];
    if wire % 8 == 0 || wire % 8 == 2 {
      ReadExact(s[n..], m - n);
    }
  }

  lemma ItemWithout(a: bytes, b: bytes, depth: nat, deeper: nat, n: nat)
    requires Item(a + b, depth) == Ok(deeper, n) && n <= |a|
    ensures Item(a, depth) == Ok(deeper, n)
  {
    ItemExact(a + b, depth, |a|);
    assert (a + b)[..|a|] == a;
  }

  lemma {:induction false} SkipWithout(a: bytes, b: bytes, depth: nat)
    requires Skip(a + b, depth).Ok? && Skip(a + b, depth).len <= |a|
    ensures Skip(a, depth) == Skip(a + b, depth)
    decreases |a|
  {
    var deeper, n := SkipParts(a + b, depth);
    ItemWithout(a, b, depth, deeper, n);
    if deeper > 0 {
      assert (a + b)[n..] == a[n..] + b;
      SkipWithout(a[n..], b, deeper);
    }
    SkipAlike(a, a + b, depth, deeper, n);
  }

  /** A successful skip needs no byte past its end. */
  lemma SkipExact(s: bytes, depth: nat, m: nat)
    requires Skip(s, depth).Ok? && Skip(s, depth).len <= m <= |s|
    ensures Skip(s[..m], depth) == Skip(s, depth)
  {
    assert s == s[..m] + s[m..];
    SkipWithout(s[..m], s[m..], depth);
  }

  /** A sum of two non-negative 64-bit integers, as the machine computes it. */
  function Wrap(x: nat): int
    requires x < TWO_64
  {
    if x >= TWO_63 then x - TWO_64 else x
  }

  /** `here` at index i with this depth completes what `whole` skips. */
  ghost predicate Resumes(whole: Parsed<()>, data: bytes, i: nat, depth: nat) {
    if i > |data| then whole.Bad?
    else match Skip(data[i..], depth) case Ok(_, n) => whole == Ok((), i + n) case Bad => whole.Bad?
  }

  /** What `whole` is when the item at index i is this one. */
  ghost predicate Follows(whole: Parsed<()>, data: bytes, i: nat, item: Parsed<nat>) {
    match item
    case Bad => whole.Bad?
    case Ok(deeper, n) =>
      n >= 1 && if i + n <= |data| && deeper == 0 then whole == Ok((), i + n) else Resumes(whole, data, i + n, deeper)
  }

  lemma ResumeStep(whole: Parsed<()>, data: bytes, i: nat, depth: nat, item: Parsed<nat>)
    requires i <= |data| && Resumes(whole, data, i, depth) && item == Item(data[i..], depth)
    ensures Follows(whole, data, i, item)
  {
    SkipStep(data[i..], depth);
    if item.Ok? && item.len <= |data| - i {
      assert data[i..][item.len..] == data[i + item.len..];
    }
  }

  /** The body of an unknown field, from index i; a negative end after an overflow is an error. */
  method SkipBody(data: bytes, i: nat, wireType: nat, depth: nat) returns (ok: bool, end: int, deeper: nat)
    requires i <= |data| < TWO_63
    ensures match Body(data[i..], wireType, depth)
            case Bad => !ok
            case Ok(d, more) => (ok <==> i + more < TWO_63) && (ok ==> end == i + more && deeper == d)
  {
    ok, end, deeper := false, i, depth;
    if wireType == 0 {
      var varint := ReadAt(data, i);
      if varint.Bad? {
        return;
      }
      end := i + varint.len;
    } else if wireType == 1 {
      end := Wrap(i + 8);
    } else if wireType == 2 {
      var length := ReadAt(data, i);
      if length.Bad? || Wrap(length.value) < 0 {
        return;
      }
      end := Wrap(i + length.len + length.value);
    } else if wireType == 3 {
      deeper := depth + 1;
    } else if wireType == 4 {
      if depth == 0 {
        return;
      }
      deeper := depth - 1;
    } else if wireType == 5 {
      end := Wrap(i + 4);
    } else {
      return;
    }
    ok := end >= 0;
  }

  /** What one pass of the skip loop reports: the item's end, unless it is no item or ends past every index. */
  ghost predicate Reports(item: Parsed<nat>, i: nat, ok: bool, end: int, deeper: nat) {
    match item
    case Bad => !ok
    case Ok(d, n) => (ok <==> i + n < TWO_63) && (ok ==> end == i + n && deeper == d)
  }

  method SkipItem(data: bytes, i: nat, depth: nat) returns (ok: bool, end: int, deeper: nat)
    requires i <= |data| < TWO_63
    ensures Reports(Item(data[i..], depth), i, ok, end, deeper)
  {
    var tag := ReadAt(data, i);
    if tag.Bad? {
      return false, 0, 0;
    }
    assert data[i..][tag.len..] == data[i + tag.len..];
    ok, end, deeper := SkipBody(data, i + tag.len, tag.value % 8, depth);
  }

  /** An error, the end of what is skipped, or more to skip. */
  lemma Outcome(whole: Parsed<()>, data: bytes, i: nat, item: Parsed<nat>, ok: bool, end: int, deeper: nat)
    requires i <= |data| < TWO_63 && Follows(whole, data, i, item) && Reports(item, i, ok, end, deeper)
    ensures !ok ==> whole.Bad?
    ensures ok ==> i < end < TWO_63
    ensures ok && deeper == 0 ==> if end <= |data| then whole == Ok((), end) else whole.Bad?
    ensures ok && deeper > 0 ==> Resumes(whole, data, end, deeper)
  {}

  /**
   The skip loop over signed 64-bit indices. It may report an end past the buffer, which its caller checks; an
   end inside the buffer is reported exactly when a complete field is there, and then it is that field's end.
   */
  method SkipField(data: bytes) returns (ok: bool, n: int)
    requires |data| < TWO_63
    ensures ok ==> 1 <= n < TWO_63
    ensures ok && n <= |data| <==> Skip(data, 0).Ok?
    ensures ok && n <= |data| ==> n == Skip(data, 0).len
  {
    var i: int, depth: nat := 0, 0;
    ghost var whole := Skip(data, 0);
    assert data[0..] == data;
    while i < |data|
      invariant 0 <= i < TWO_63
      invariant Resumes(whole, data, i, depth)
      decreases |data| - i
    {
      var end: int, deeper: nat;
      ok, end, deeper := SkipItem(data, i, depth);
      ghost var item := Item(data[i..], depth);
      ResumeStep(whole, data, i, depth, item);
      Outcome(whole, data, i, item, ok, end, deeper);
      i, depth := end, deeper;
      if !ok || depth == 0 {
        return ok, i;
      }
    }
    NothingThere(whole, data, i, depth);
    return false, 0;
  }

  lemma NothingThere(whole: Parsed<()>, data: bytes, i: nat, depth: nat)
    requires Resumes(whole, data, i, depth) && i >= |data|
    ensures whole.Bad?
  {
    if i == |data| {
      assert data[i..] == [];
    }
  }

  // ---------------------------------------------------------------- messages

  datatype Value = Text(text: bytes) | Texts(texts: seq<bytes>) | Nested(nested: Option<bytes>)

  /** Field k is values[k - 1]. */
  datatype Message = Message(values: seq<Value>, unrecognized: bytes)

  datatype Record = Field(num: nat, payload: bytes) | Unknown(raw: bytes)

  /** Field number of a tag, truncated to a signed 32-bit integer. */
  function FieldNumber(wire: nat): int {
    var n := wire / 8 % 0x1_0000_0000;
    if n >= 0x8000_0000 then n - 0x1_0000_0000 else n
  }

  /** So two tags that differ by 2^35 name the same field. */
  lemma FieldNumberWraps(wire: nat)
    ensures -0x8000_0000 <= FieldNumber(wire) < 0x8000_0000
    ensures (wire / 8 - FieldNumber(wire)) % 0x1_0000_0000 == 0
  {}

  /** A length-delimited payload at the front of s. */
  function Payload(s: bytes): (r: Parsed<bytes>)
    ensures r.Ok? ==> 1 <= r.len <= |s| && |r.value| < TWO_63
  {
    match Read(s)
    case Bad => Bad
    case Ok(length, n) =>
      if length >= TWO_63 || n + length > |s| then Bad else Ok(s[n..n + length], n + length)
  }

  /** One record of a message with these fields; `accepts` is the nested message's own reader. */
  function ReadRecord(values: seq<Value>, accepts: bytes -> bool, s: bytes): (r: Parsed<Record>)
    ensures r.Ok? ==> 1 <= r.len <= |s|
    ensures r.Ok? && r.value.Field? ==> 1 <= r.value.num <= |values|
  {
    match Read(s)
    case Bad => Bad
    case Ok(wire, n) =>
      var num := FieldNumber(wire);
      if wire % 8 == 4 || num <= 0 then Bad
      else if num <= |values| then
        if wire % 8 != 2 then Bad
        else
          match Payload(s[n..])
          case Bad => Bad
          case Ok(payload, more) =>
            if values[num - 1].Nested? && !accepts(payload) then Bad else Ok(Field(num, payload), n + more)
      else
        match Skip(s, 0) case Bad => Bad case Ok(_, len) => Ok(Unknown(s[..len]), len)
  }

  /** A string field is replaced, a repeated field extended, a nested message merged. */
  function Add(v: Value, payload: bytes): Value {
    match v
    case Text(_) => Text(payload)
    case Texts(texts) => Texts(texts + [payload])
    case Nested(None) => Nested(Some(payload))
    case Nested(Some(b)) => Nested(Some(b + payload))
  }

  function Absorb(m: Message, record: Record): Message
    requires record.Field? ==> 1 <= record.num <= |m.values|
  {
    match record
    case Field(num, payload) => m.(values := m.values[num - 1 := Add(m.values[num - 1], payload)])
    case Unknown(raw) => m.(unrecognized := m.unrecognized + raw)
  }

  /** The message, or what had been filled in when a record could not be read. */
  datatype Decoded = Done(message: Message) | Malformed(partial: Message)

  function Decode(m: Message, accepts: bytes -> bool, s: bytes): Decoded
    decreases |s|
  {
    if s == [] then Done(m)
    else
      match ReadRecord(m.values, accepts, s)
      case Bad => Malformed(m)
      case Ok(record, n) => Decode(Absorb(m, record), accepts, s[n..])
  }

  lemma PayloadPrefix(s: bytes, t: bytes)
    requires Payload(s).Ok?
    ensures Payload(s + t) == Payload(s)
  {
    ReadPrefix(s, t);
    var Ok(length, n) := Read(s);
    assert (s + t)[n..n + length] == s[n..n + length];
  }

  lemma RecordPrefix(values: seq<Value>, accepts: bytes -> bool, s: bytes, t: bytes)
    requires ReadRecord(values, accepts, s).Ok?
    ensures ReadRecord(values, accepts, s + t) == ReadRecord(values, accepts, s)
  {
    ReadPrefix(s, t);
    var Ok(wire, n) := Read(s);
    if FieldNumber(wire) <= |values| {
      assert (s + t)[n..] == s[n..] + t;
      PayloadPrefix(s[n..], t);
    } else {
      SkipPrefix(s, 0, t);
      var len := Skip(s, 0).len;
      assert (s + t)[..len] == s[..len];
    }
  }

  /** Decoding a concatenation is decoding the parts in turn into the same message. */
  lemma {:induction false} DecodeConcat(m: Message, accepts: bytes -> bool, a: bytes, b: bytes)
    requires Decode(m, accepts, a).Done?
    ensures Decode(m, accepts, a + b) == Decode(Decode(m, accepts, a).message, accepts, b)
    decreases |a|
  {
    if a == [] {
      assert a + b == b;
    } else {
      RecordPrefix(m.values, accepts, a, b);
      var Ok(record, n) := ReadRecord(m.values, accepts, a);
      assert (a + b)[n..] == a[n..] + b;
      DecodeConcat(Absorb(m, record), accepts, a[n..], b);
    }
  }

  /** Length, overflow checks and payload, from index i. */
  method PayloadAt(data: bytes, i: nat) returns (r: Parsed<bytes>)
    requires i <= |data| < TWO_63
    ensures r == Payload(data[i..])
  {
    ghost var here := data[i..];
    var length := ReadAt(data, i);
    if length.Bad? || Wrap(length.value) < 0 {
      return Bad;
    }
    var start := i + length.len;
    var postIndex := Wrap(start + length.value);
    if postIndex < 0 || postIndex > |data| {
      return Bad;
    }
    assert here[length.len..length.len + length.value] == data[start..postIndex];
    r := Ok(data[start..postIndex], postIndex - i);
  }

  /** An unknown field, skipped and kept as it is, from index i. */
  method UnknownAt(data: bytes, i: nat) returns (r: Parsed<Record>)
    requires i <= |data| < TWO_63
    ensures var skipped := Skip(data[i..], 0);
            if skipped.Bad? then r.Bad? else r == Ok(Unknown(data[i..][..skipped.len]), skipped.len)
  {
    var ok, n := SkipField(data[i..]);
    if !ok || Wrap(i + n) < 0 || Wrap(i + n) > |data| {
      return Bad;
    }
    assert data[i..][..n] == data[i..i + n];
    r := Ok(Unknown(data[i..i + n]), n);
  }

  /** The body of the decoding loop: one record, from index i. */
  method RecordAt(values: seq<Value>, accepts: bytes -> bool, data: bytes, i: nat) returns (r: Parsed<Record>)
    requires i <= |data| < TWO_63
    ensures r == ReadRecord(values, accepts, data[i..])
  {
    ghost var here := data[i..];
    var tag := ReadAt(data, i);
    if tag.Bad? {
      return Bad;
    }
    var num, wireType := FieldNumber(tag.value), tag.value % 8;
    if wireType == 4 || num <= 0 {
      return Bad;
    }
    if num > |values| {
      r := UnknownAt(data, i);
      return;
    }
    if wireType != 2 {
      return Bad;
    }
    assert here[tag.len..] == data[i + tag.len..];
    var payload := PayloadAt(data, i + tag.len);
    if payload.Bad? || (values[num - 1].Nested? && !accepts(payload.value)) {
      return Bad;
    }
    r := Ok(Field(num, payload.value), tag.len + payload.len);
  }

  lemma DecodeAt(m: Message, accepts: bytes -> bool, data: bytes, i: nat)
    requires i < |data|
    ensures var r := ReadRecord(m.values, accepts, data[i..]);
            Decode(m, accepts, data[i..]) ==
            if r.Bad? then Malformed(m) else Decode(Absorb(m, r.value), accepts, data[i + r.len..])
  {
    var r := ReadRecord(m.values, accepts, data[i..]);
    if r.Ok? {
      assert data[i..][r.len..] == data[i + r.len..];
    }
  }

  /** The decoding loop. */
  method Unmarshal(start: Message, accepts: bytes -> bool, data: bytes) returns (r: Decoded)
    requires |data| < TWO_63
    ensures r == Decode(start, accepts, data)
  {
    var m, i := start, 0;
    ghost var whole, here := Decode(start, accepts, data), data;
    while i < |data|
      invariant 0 <= i <= |data| && here == data[i..]
      invariant Decode(m, accepts, here) == whole
      decreases |data| - i
    {
      DecodeAt(m, accepts, data, i);
      var record := RecordAt(m.values, accepts, data, i);
      if record.Bad? {
        return Malformed(m);
      }
      m := Absorb(m, record.value);
      i := i + record.len;
      here := data[i..];
    }
    r := Done(m);
  }
}
