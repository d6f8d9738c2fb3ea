/** The keyed application queue as a value: what each operation does and the order in which apps are served. */
module AppQueue {
  import opened Sequences

  /** `body` stands for everything of an application resource the queue never looks at. */
  datatype App = App(namespace: string, name: string, body: string)

  datatype Item = Item(key: string, value: App)

  function KeyOf(app: App): string {
    app.namespace + "/" + app.name
  }

  function ItemOf(app: App): Item {
    Item(KeyOf(app), app)
  }

  // ---------------------------------------------------------------- specification

  datatype Queue = Queue(items: seq<Item>, processing: set<string>, pending: map<string, App>)

  const EMPTY := Queue([], {}, map[])

  /** Index of the first item with this key; the length of the list when there is none. */
  function Position(items: seq<Item>, key: string): (i: nat)
    ensures i <= |items|
    ensures i < |items| ==> items[i].key == key
    ensures forall j :: 0 <= j < i ==> items[j].key != key
  {
    if items == [] || items[0].key == key then 0 else 1 + Position(items[1..], key)
  }

  function Enqueue(q: Queue, app: App): Queue {
    var key := KeyOf(app);
    if key in q.processing then
      q.(pending := q.pending[key := app])
    else
      var i := Position(q.items, key);
      if i < |q.items| then q.(items := q.items[i := ItemOf(app)]) else q.(items := q.items + [ItemOf(app)])
  }

  function Dequeue(q: Queue): Queue
    requires q.items != []
  {
    Queue(q.items[1..], q.processing + {q.items[0].key}, q.pending)
  }

  function Done(q: Queue, key: string): Queue {
    if key !in q.processing then
      q
    else
      var released := q.(processing := q.processing - {key});
      if key !in q.pending then released
      else Enqueue(released.(pending := q.pending - {key}), q.pending[key])
  }

  /** Joint invariant: one list entry per key, no listed key in processing, updates pending only for processed keys. */
  ghost predicate WellFormed(q: Queue) {
    && (forall i :: 0 <= i < |q.items| ==> q.items[i].key == KeyOf(q.items[i].value))
    && (forall i, j :: 0 <= i < j < |q.items| ==> q.items[i].key != q.items[j].key)
    && (forall i :: 0 <= i < |q.items| ==> q.items[i].key !in q.processing)
    && (forall k :: k in q.pending ==> k in q.processing && KeyOf(q.pending[k]) == k)
  }

  lemma EnqueueWellFormed(q: Queue, app: App)
    requires WellFormed(q)
    ensures WellFormed(Enqueue(q, app))
  {}

  lemma DequeueWellFormed(q: Queue)
    requires WellFormed(q) && q.items != []
    ensures WellFormed(Dequeue(q))
  {}

  lemma DoneWellFormed(q: Queue, key: string)
    requires WellFormed(q)
    ensures WellFormed(Done(q, key))
  {
    if key in q.pending {
      var released := Queue(q.items, q.processing - {key}, q.pending - {key});
      EnqueueWellFormed(released, q.pending[key]);
    }
  }

  // ---------------------------------------------------------------- order of service

  datatype Op = EnqueueOp(app: App) | DequeueOp | DoneOp(key: string)

  /** One operation; a dequeue of an empty list blocks and changes nothing. */
  function Perform(q: Queue, op: Op): Queue {
    match op
    case EnqueueOp(app) => Enqueue(q, app)
    case DequeueOp => if q.items == [] then q else Dequeue(q)
    case DoneOp(key) => Done(q, key)
  }

  /** The keys handed out by the dequeues of a history, in order. */
  function Taken(q: Queue, ops: seq<Op>): seq<string>
    decreases |ops|
  {
    if ops == [] then []
    else
      (if ops[0].DequeueOp? && q.items != [] then [q.items[0].key] else [])
      + Taken(Perform(q, ops[0]), ops[1..])
  }

  lemma PerformWellFormed(q: Queue, op: Op)
    requires WellFormed(q)
    ensures WellFormed(Perform(q, op))
  {
    match op
    case EnqueueOp(app) => EnqueueWellFormed(q, app);
    case DequeueOp =>
    case DoneOp(key) => DoneWellFormed(q, key);
  }

  /** No overtaking: the app at position p is what the (p+1)-th dequeue returns, whatever else interleaves. */
  lemma {:induction false} ServedInPosition(q: Queue, ops: seq<Op>, p: nat)
    requires WellFormed(q) && p < |q.items| && p < |Taken(q, ops)|
    ensures Taken(q, ops)[p] == q.items[p].key
    decreases |ops|
  {
    var next := Perform(q, ops[0]);
    PerformWellFormed(q, ops[0]);
    if ops[0].DequeueOp? {
      if p > 0 {
        assert next.items[p - 1] == q.items[p];
        ServedInPosition(next, ops[1..], p - 1);
      }
    } else {
      assert next.items[p].key == q.items[p].key;
      ServedInPosition(next, ops[1..], p);
    }
  }

  // ---------------------------------------------------------------- keys

  lemma KeyExample()
    ensures KeyOf(App("argocd", "guestbook", "")) == "argocd/guestbook"
  {}

  /** Two applications share a key only if they are the same one, provided namespaces contain no slash. */
  lemma KeyInjective(a: App, b: App)
    requires '/' !in a.namespace && '/' !in b.namespace
    requires KeyOf(a) == KeyOf(b)
    ensures a.namespace == b.namespace && a.name == b.name
  {
    SplitAt(KeyOf(a), a.namespace, '/', a.name);
    SplitAt(KeyOf(b), b.namespace, '/', b.name);
  }

  /** Exactly the applications without a slash in either part have a key no other application can have. */
  lemma KeyUnambiguous(a: App)
    ensures (forall b: App :: KeyOf(b) == KeyOf(a) ==> b.namespace == a.namespace && b.name == a.name)
            <==> '/' !in a.namespace && '/' !in a.name
  {
    if '/' in a.namespace {
      var i :| 0 <= i < |a.namespace| && a.namespace[i] == '/';
      var b := App(a.namespace[..i], a.namespace[i + 1..] + "/" + a.name, a.body);
      assert KeyOf(b) == KeyOf(a);
    } else if '/' in a.name {
      var i :| 0 <= i < |a.name| && a.name[i] == '/';
      var b := App(a.namespace + "/" + a.name[..i], a.name[i + 1..], a.body);
      assert KeyOf(b) == KeyOf(a);
    } else {
      forall b: App | KeyOf(b) == KeyOf(a)
        ensures b.namespace == a.namespace && b.name == a.name
      {
        SplitAt(KeyOf(a), a.namespace, '/', a.name);
        SplitAt(KeyOf(b), b.namespace, '/', b.name);
      }
    }
  }
}
