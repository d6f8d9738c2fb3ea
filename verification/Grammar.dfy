/**
 The fields of the Protocol Buffers encoding as a recursive grammar, and the proof that the flat skip loop, which
 only counts open groups, recognises exactly that grammar.
 */
module Grammar {
  import opened Sequences
  import opened Varint
  import opened Wire

  /** A field: a tag with its own bytes, or a group of fields between a start and an end tag. */
  datatype Tree = Leaf(tag: bytes, body: bytes) | Group(start: bytes, inner: Trees, end: bytes)

  datatype Trees = Nil | More(first: Tree, rest: Trees)

  /** One varint and nothing else, ending in this wire type. */
  predicate IsTag(s: bytes, wireType: nat) {
    Read(s).Ok? && Read(s).len == |s| && Read(s).value % 8 == wireType
  }

  /** What each wire type but the group ones carries: varint, 8 bytes, length and as many bytes, 4 bytes. */
  predicate IsLeafBody(wireType: nat, s: bytes) {
    match wireType
    case 0 => Read(s).Ok? && Read(s).len == |s|
    case 1 => |s| == 8
    case 2 => Read(s).Ok? && Read(s).value < TWO_63 && |s| == Read(s).len + Read(s).value
    case 5 => |s| == 4
    case _ => false
  }

  predicate IsLeaf(tag: bytes, body: bytes) {
    Read(tag).Ok? && Read(tag).len == |tag| && IsLeafBody(Read(tag).value % 8, body)
  }

  predicate IsField(t: Tree) {
    match t
    case Leaf(tag, body) => IsLeaf(tag, body)
    case Group(start, inner, end) => IsTag(start, 3) && AreFields(inner) && IsTag(end, 4)
  }

  predicate AreFields(ts: Trees) {
    ts.More? ==> IsField(ts.first) && AreFields(ts.rest)
  }

  function Bytes(t: Tree): bytes {
    match t
    case Leaf(tag, body) => tag + body
    case Group(start, inner, end) => start + (AllBytes(inner) + end)
  }

  function AllBytes(ts: Trees): bytes {
    match ts case Nil => [] case More(first, rest) => Bytes(first) + AllBytes(rest)
  }

  // ---------------------------------------------------------------- every field is skipped

  /** Skipping `rest` at this depth, n bytes further on; at depth 0 there is nothing more to skip. */
  function Onward(n: nat, rest: bytes, depth: nat): Parsed<()> {
    if depth == 0 then Ok((), n)
    else match Skip(rest, depth) case Ok(_, more) => Ok((), n + more) case Bad => Bad
  }

  lemma SkipOne(head: bytes, rest: bytes, depth: nat, deeper: nat)
    requires Item(head, depth) == Ok(deeper, |head|)
    ensures Skip(head + rest, depth) == Onward(|head|, rest, deeper)
  {
    ItemPrefix(head, depth, rest);
    assert (head + rest)[|head|..] == rest;
  }

  lemma LeafItem(tag: bytes, body: bytes, depth: nat)
    requires IsLeaf(tag, body)
    ensures Item(tag + body, depth) == Ok(depth, |tag + body|)
  {
    ReadPrefix(tag, body);
    assert (tag + body)[|tag|..] == body;
  }

  lemma TagItem(tag: bytes, depth: nat)
    requires Read(tag).Ok? && Read(tag).len == |tag|
    ensures IsTag(tag, 3) ==> Item(tag, depth) == Ok(depth + 1, |tag|)
    ensures IsTag(tag, 4) && depth > 0 ==> Item(tag, depth) == Ok(depth - 1, |tag|)
  {}

  lemma {:induction false} SkipsField(t: Tree, rest: bytes, depth: nat)
    requires IsField(t)
    ensures Skip(Bytes(t) + rest, depth) == Onward(|Bytes(t)|, rest, depth)
    decreases t
  {
    match t
    case Leaf(tag, body) =>
      LeafItem(tag, body, depth);
      SkipOne(tag + body, rest, depth, depth);
    case Group(start, inner, end) =>
      var middle := AllBytes(inner);
      Assoc(start, middle + end, rest);
      Assoc(middle, end, rest);
      TagItem(start, depth);
      SkipOne(start, middle + (end + rest), depth, depth + 1);
      SkipsFields(inner, end + rest, depth + 1);
      TagItem(end, depth + 1);
      SkipOne(end, rest, depth + 1, depth);
  }

  lemma {:induction false} SkipsFields(ts: Trees, rest: bytes, depth: nat)
    requires AreFields(ts) && depth > 0
    ensures Skip(AllBytes(ts) + rest, depth) == Onward(|AllBytes(ts)|, rest, depth)
    decreases ts
  {
    if ts.Nil? {
      assert [] + rest == rest;
    } else {
      Assoc(Bytes(ts.first), AllBytes(ts.rest), rest);
      SkipsField(ts.first, AllBytes(ts.rest) + rest, depth);
      SkipsFields(ts.rest, rest, depth);
    }
  }

  // ---------------------------------------------------------------- nothing else is skipped

  /** The first item of a successful skip. */
  lemma FirstItem(s: bytes, depth: nat) returns (head: bytes, rest: bytes, deeper: nat)
    requires Skip(s, depth).Ok?
    ensures s == head + rest && head != [] && Item(head, depth) == Ok(deeper, |head|)
    ensures deeper > 0 ==> Skip(rest, deeper).Ok?
  {
    deeper := Item(s, depth).value;
    var n := Item(s, depth).len;
    ItemExact(s, depth, n);
    head, rest := s[..n], s[n..];
  }

  /** It is a leaf, or the start or end of a group. */
  lemma ItemKinds(head: bytes, depth: nat, deeper: nat) returns (tag: bytes, body: bytes)
    requires Item(head, depth) == Ok(deeper, |head|)
    ensures depth - 1 <= deeper <= depth + 1 && head == tag + body
    ensures deeper == depth ==> IsLeaf(tag, body)
    ensures deeper == depth + 1 ==> IsTag(head, 3)
    ensures deeper == depth - 1 ==> IsTag(head, 4)
  {
    var n := Read(head).len;
    tag, body := head[..n], head[n..];
    ReadExact(head, n);
    if deeper != depth {
      assert head == tag;
    }
  }

  /** Fields up to the end of the innermost open group, and what follows it. */
  predicate Closes(s: bytes, inner: Trees, end: bytes, rest: bytes) {
    AreFields(inner) && IsTag(end, 4) && s == AllBytes(inner) + (end + rest) && |rest| < |s|
  }

  lemma Prepend(first: Tree, s: bytes, inner: Trees, end: bytes, rest: bytes)
    requires IsField(first) && Closes(s, inner, end, rest)
    ensures Closes(Bytes(first) + s, More(first, inner), end, rest)
  {
    Assoc(Bytes(first), AllBytes(inner), end + rest);
  }

  lemma GroupThen(start: bytes, s: bytes, inner: Trees, end: bytes, rest: bytes)
    requires IsTag(start, 3) && Closes(s, inner, end, rest)
    ensures IsField(Group(start, inner, end)) && start + s == Bytes(Group(start, inner, end)) + rest
  {
    Assoc(AllBytes(inner), end, rest);
    Assoc(start, AllBytes(inner) + end, rest);
  }

  lemma GoesOn(first: Tree, rest: bytes, depth: nat)
    requires IsField(first) && depth > 0 && Skip(Bytes(first) + rest, depth).Ok?
    ensures Skip(rest, depth).Ok?
  {
    SkipsField(first, rest, depth);
  }

  lemma {:induction false} ReadGroup(s: bytes, depth: nat) returns (inner: Trees, end: bytes, rest: bytes)
    requires depth > 0 && Skip(s, depth).Ok?
    ensures Closes(s, inner, end, rest)
    decreases |s|
  {
    var head, tail, deeper := FirstItem(s, depth);
    var tag, body := ItemKinds(head, depth, deeper);
    if deeper == depth - 1 {
      inner, end, rest := Nil, head, tail;
      assert AllBytes(inner) + (end + rest) == s;
    } else {
      var first, after := Leaf(tag, body), tail;
      if deeper == depth + 1 {
        var nested, close, outside := ReadGroup(tail, deeper);
        GroupThen(head, tail, nested, close, outside);
        first, after := Group(head, nested, close), outside;
      }
      GoesOn(first, after, depth);
      inner, end, rest := ReadGroup(after, depth);
      Prepend(first, after, inner, end, rest);
      inner := More(first, inner);
    }
  }

  lemma ReadField(s: bytes) returns (t: Tree, rest: bytes)
    requires Skip(s, 0).Ok?
    ensures IsField(t) && s == Bytes(t) + rest
  {
    var head, tail, deeper := FirstItem(s, 0);
    var tag, body := ItemKinds(head, 0, deeper);
    if deeper == 0 {
      t, rest := Leaf(tag, body), tail;
    } else {
      var inner, end, after := ReadGroup(tail, 1);
      GroupThen(head, tail, inner, end, after);
      t, rest := Group(head, inner, end), after;
    }
  }

  /** Counting open groups skips n bytes exactly when they are a field of the grammar, groups nested at will. */
  lemma SkipIffField(s: bytes, n: nat)
    requires n <= |s|
    ensures Skip(s, 0) == Ok((), n) <==> exists t: Tree :: IsField(t) && Bytes(t) == s[..n]
  {
    if Skip(s, 0) == Ok((), n) {
      var t, rest := ReadField(s);
      SkipsField(t, rest, 0);
      assert s[..n] == Bytes(t);
    }
    if t: Tree :| IsField(t) && Bytes(t) == s[..n] {
      assert s == Bytes(t) + s[n..];
      SkipsField(t, s[n..], 0);
    }
  }
}
