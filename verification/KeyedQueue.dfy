/** The queue object: list nodes, a map from keys to nodes, and the sets that keep one app in one worker. */
module KeyedQueue {
  import opened Wrappers
  import opened AppQueue

  /** A list node; the key map refers to nodes, not to positions. */
  class Element {
    const value: Item

    constructor (value: Item)
      ensures this.value == value
    {
      this.value := value;
    }
  }

  /** Position of a node in the list, found by identity. */
  function NodeIndex(list: seq<Element>, e: Element): (i: nat)
    requires e in list
    ensures i < |list| && list[i] == e
    ensures forall j :: 0 <= j < i ==> list[j] != e
  {
    if list[0] == e then 0 else 1 + NodeIndex(list[1..], e)
  }

  function InsertAfter(list: seq<Element>, e: Element, mark: Element): (r: seq<Element>)
    requires mark in list
  {
    var i := NodeIndex(list, mark);
    list[..i + 1] + [e] + list[i + 1..]
  }

  function Remove(list: seq<Element>, e: Element): seq<Element>
    requires e in list
  {
    RemoveAt(list, NodeIndex(list, e))
  }

  function RemoveAt(list: seq<Element>, i: nat): seq<Element>
    requires i < |list|
  {
    list[..i] + list[i + 1..]
  }

  lemma NodeIndexIs(list: seq<Element>, e: Element, i: nat)
    requires i < |list| && list[i] == e && e !in list[..i]
    ensures NodeIndex(list, e) == i
  {
    assert forall j :: 0 <= j < i ==> list[j] == list[..i][j];
  }

  /** Insert-after followed by remove is replacement in place. */
  lemma ReplaceInPlace(list: seq<Element>, e: Element, mark: Element)
    requires mark in list
    ensures mark in InsertAfter(list, e, mark)
    ensures Remove(InsertAfter(list, e, mark), mark) == list[NodeIndex(list, mark) := e]
  {
    var i := NodeIndex(list, mark);
    var longer := InsertAfter(list, e, mark);
    assert longer[i] == mark;
    assert longer[..i] == list[..i];
    NodeIndexIs(longer, mark, i);
    SpliceReplace(list, i, e);
  }

  lemma SpliceReplace(list: seq<Element>, i: nat, e: Element)
    requires i < |list|
    ensures RemoveAt(list[..i + 1] + [e] + list[i + 1..], i) == list[i := e]
  {}

  function Values(list: seq<Element>): seq<Item> {
    seq(|list|, i requires 0 <= i < |list| => list[i].value)
  }

  lemma DistinctKeys(list: seq<Element>)
    requires forall i, j :: 0 <= i < j < |list| ==> Values(list)[i].key != Values(list)[j].key
    ensures forall i, j :: 0 <= i < j < |list| ==> list[i].value.key != list[j].value.key
  {
    assert forall i :: 0 <= i < |list| ==> Values(list)[i] == list[i].value;
  }

  /** In a list with one node per key, a node sits at the position of its key. */
  lemma PositionOfNode(list: seq<Element>, e: Element)
    requires e in list
    requires forall i, j :: 0 <= i < j < |list| ==> Values(list)[i].key != Values(list)[j].key
    ensures Position(Values(list), e.value.key) == NodeIndex(list, e)
  {
    var i := NodeIndex(list, e);
    assert Values(list)[i].key == e.value.key;
  }

  /** The key map points to exactly the list node of each key. */
  ghost predicate Linked(items: seq<Element>, keyMap: map<string, Element>) {
    && (forall i :: 0 <= i < |items| ==> items[i].value.key in keyMap && keyMap[items[i].value.key] == items[i])
    && (forall k :: k in keyMap ==> keyMap[k] in items && keyMap[k].value.key == k)
  }

  lemma LinkedAppend(items: seq<Element>, keyMap: map<string, Element>, e: Element)
    requires Linked(items, keyMap) && e.value.key !in keyMap
    ensures Linked(items + [e], keyMap[e.value.key := e])
  {
    assert (items + [e])[|items|] == e;
    forall k | k in keyMap
      ensures keyMap[k] in items + [e]
    {}
  }

  lemma LinkedReplace(items: seq<Element>, keyMap: map<string, Element>, e: Element, i: nat)
    requires Linked(items, keyMap) && i < |items| && e.value.key == items[i].value.key
    requires forall j, k :: 0 <= j < k < |items| ==> items[j].value.key != items[k].value.key
    ensures Linked(items[i := e], keyMap[e.value.key := e])
  {
    var replaced := items[i := e];
    assert replaced[i] == e;
    forall k | k in keyMap && k != e.value.key
      ensures keyMap[k] in replaced
    {
      var j :| 0 <= j < |items| && items[j] == keyMap[k];
      assert replaced[j] == keyMap[k];
    }
  }

  lemma LinkedDropFirst(items: seq<Element>, keyMap: map<string, Element>)
    requires Linked(items, keyMap) && items != []
    requires forall j, k :: 0 <= j < k < |items| ==> items[j].value.key != items[k].value.key
    ensures Linked(items[1..], keyMap - {items[0].value.key})
  {
    var rest, remaining := items[1..], keyMap - {items[0].value.key};
    forall k | k in remaining
      ensures remaining[k] in rest
    {
      var j :| 0 <= j < |items| && items[j] == keyMap[k];
      assert rest[j - 1] == keyMap[k];
    }
    assert forall i :: 0 <= i < |rest| ==> rest[i] == items[i + 1];
  }

  ghost predicate Represents(q: Queue, items: seq<Element>, keyMap: map<string, Element>) {
    WellFormed(q) && q.items == Values(items) && Linked(items, keyMap)
  }

  lemma ReplaceStep(q: Queue, items: seq<Element>, keyMap: map<string, Element>, app: App, e: Element)
    requires Represents(q, items, keyMap) && KeyOf(app) !in q.processing
    requires KeyOf(app) in keyMap && e.value == ItemOf(app)
    ensures var elem := keyMap[KeyOf(app)];
            && elem in InsertAfter(items, e, elem)
            && Represents(Enqueue(q, app), Remove(InsertAfter(items, e, elem), elem), keyMap[KeyOf(app) := e])
  {
    var elem := keyMap[KeyOf(app)];
    var i := NodeIndex(items, elem);
    EnqueueWellFormed(q, app);
    DistinctKeys(items);
    ReplaceInPlace(items, e, elem);
    PositionOfNode(items, elem);
    LinkedReplace(items, keyMap, e, i);
    assert Values(items[i := e]) == Values(items)[i := ItemOf(app)];
  }

  lemma AppendStep(q: Queue, items: seq<Element>, keyMap: map<string, Element>, app: App, e: Element)
    requires Represents(q, items, keyMap) && KeyOf(app) !in q.processing
    requires KeyOf(app) !in keyMap && e.value == ItemOf(app)
    ensures Represents(Enqueue(q, app), items + [e], keyMap[KeyOf(app) := e])
  {
    EnqueueWellFormed(q, app);
    assert Position(Values(items), KeyOf(app)) == |items|;
    LinkedAppend(items, keyMap, e);
    assert Values(items + [e]) == Values(items) + [ItemOf(app)];
  }

  lemma DequeueStep(q: Queue, items: seq<Element>, keyMap: map<string, Element>)
    requires Represents(q, items, keyMap) && items != []
    ensures Represents(Dequeue(q), Remove(items, items[0]), keyMap - {items[0].value.key})
  {
    DequeueWellFormed(q);
    NodeIndexIs(items, items[0], 0);
    DistinctKeys(items);
    LinkedDropFirst(items, keyMap);
    assert Remove(items, items[0]) == items[1..];
    assert Values(items[1..]) == Values(items)[1..];
  }

  datatype Outcome = Dequeued(item: Item) | Cancelled | MustWait

  class KeyedAppQueue {
    var items: seq<Element>
    var keyMap: map<string, Element>
    var processing: set<string>
    var pending: map<string, App>
    // last value reported to the length gauge, if a gauge is attached
    var lengthGauge: Option<int>

    ghost function Contents(): Queue
      reads this
    {
      Queue(Values(items), processing, pending)
    }

    /** The queue invariant, the key map agrees with the list, and the gauge shows what is queued or pending. */
    ghost predicate Valid()
      reads this
    {
      && Represents(Contents(), items, keyMap)
      && (lengthGauge.Some? ==> lengthGauge.value == |items| + |pending|)
    }

    constructor ()
      ensures Valid() && Contents() == EMPTY && lengthGauge == None
    {
      items, keyMap, processing, pending, lengthGauge := [], map[], {}, map[], None;
    }

    method SetLengthGauge()
      requires Valid()
      modifies this`lengthGauge
      ensures Valid() && lengthGauge == Some(|items| + |pending|)
    {
      lengthGauge := Some(0);
      ReportQueueLength();
    }

    method ReportQueueLength()
      modifies this`lengthGauge
      ensures lengthGauge == if old(lengthGauge).Some? then Some(|items| + |pending|) else None
    {
      if lengthGauge != None {
        lengthGauge := Some(|items| + |pending|);
      }
    }

    method Enqueue(app: App) returns (signalled: bool)
      requires Valid()
      modifies this
      ensures Valid() && lengthGauge.Some? == old(lengthGauge.Some?)
      ensures Contents() == AppQueue.Enqueue(old(Contents()), app)
      ensures signalled <==> KeyOf(app) !in old(processing)
    {
      signalled := EnqueueLocked(app);
    }

    /** Caller holds the mutex; the gauge may be stale on entry. */
    method EnqueueLocked(app: App) returns (signalled: bool)
      requires Represents(Contents(), items, keyMap)
      modifies this
      ensures Valid() && lengthGauge.Some? == old(lengthGauge.Some?)
      ensures Contents() == AppQueue.Enqueue(old(Contents()), app)
      ensures signalled <==> KeyOf(app) !in old(processing)
    {
      EnqueueWellFormed(Contents(), app);
      var key := KeyOf(app);
      if key in processing {
        pending := pending[key := app];
        ReportQueueLength();
        return false;
      }
      var newElem := new Element(ItemOf(app));
      if key in keyMap {
        ReplaceStep(Contents(), items, keyMap, app, newElem);
        var elem := keyMap[key];
        items := InsertAfter(items, newElem, elem);
        items := Remove(items, elem);
      } else {
        AppendStep(Contents(), items, keyMap, app, newElem);
        items := items + [newElem];
      }
      keyMap := keyMap[key := newElem];
      ReportQueueLength();
      signalled := true;
    }

    /** One pass of the waiting loop: what the caller sees when it holds the mutex. */
    method DequeueWait(cancelled: bool) returns (r: Outcome)
      requires Valid()
      modifies this
      ensures Valid() && lengthGauge.Some? == old(lengthGauge.Some?)
      ensures old(items) == [] ==> r == (if cancelled then Cancelled else MustWait) && unchanged(this)
      ensures old(items) != [] ==> r == Dequeued(old(items[0].value)) && Contents() == Dequeue(old(Contents()))
    {
      if items == [] {
        return if cancelled then Cancelled else MustWait;
      }
      DequeueStep(Contents(), items, keyMap);
      var elem := items[0];
      var item := elem.value;
      items := Remove(items, elem);
      keyMap := keyMap - {item.key};
      processing := processing + {item.key};
      ReportQueueLength();
      r := Dequeued(item);
    }

    method Done(key: string) returns (signalled: bool)
      requires Valid()
      modifies this
      ensures Valid() && lengthGauge.Some? == old(lengthGauge.Some?)
      ensures Contents() == AppQueue.Done(old(Contents()), key)
      ensures key !in old(processing) ==> unchanged(this)
      ensures signalled <==> key in old(pending)
    {
      if key !in processing {
        return false;
      }
      DoneWellFormed(Contents(), key);
      processing := processing - {key};
      if key !in pending {
        return false;
      }
      var app := pending[key];
      pending := pending - {key};
      signalled := EnqueueLocked(app);
    }
  }
}
