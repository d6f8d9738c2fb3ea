/** The in-memory cache client and what reading it through formatted keys returns. */
module CacheStore {
  import opened Wrappers
  import opened CacheKeys

  type Store<V> = map<string, V>

  function Lookup<K, V>(store: map<K, V>, key: K): Option<V> {
    if key in store then Some(store[key]) else None
  }

  function Put<V>(store: Store<V>, key: string, value: V, disableOverwrite: bool): Store<V> {
    if disableOverwrite && key in store then store else store[key := value]
  }

  /** None when there is nothing to rename. */
  function Renamed<V>(store: Store<V>, oldKey: string, newKey: string): Option<Store<V>> {
    if oldKey !in store then None else Some(store[newKey := store[oldKey]] - {oldKey})
  }

  /** A rename keeps the value exactly when the keys differ; onto itself it loses the entry. */
  lemma RenameKeepsValueIff<V>(store: Store<V>, oldKey: string, newKey: string)
    requires oldKey in store
    ensures Lookup(Renamed(store, oldKey, newKey).value, newKey) == Some(store[oldKey]) <==> oldKey != newKey
  {}

  /** It removes the old key, leaves all others alone, and fails exactly without an entry. */
  lemma RenameKeepsOthers<V>(store: Store<V>, oldKey: string, newKey: string)
    ensures Renamed(store, oldKey, newKey).None? <==> oldKey !in store
    ensures oldKey in store ==>
              var r := Renamed(store, oldKey, newKey).value;
              oldKey !in r && forall k :: k != oldKey && k != newKey ==> Lookup(r, k) == Lookup(store, k)
  {}

  class InMemoryCache<V> {
    // encoded objects; an entry disappears when it expires
    var items: Store<V>

    constructor ()
      ensures items == map[]
    {
      items := map[];
    }

    method Set(key: string, value: V, disableOverwrite: bool)
      modifies this
      ensures items == Put(old(items), key, value, disableOverwrite)
    {
      if disableOverwrite {
        if key !in items {
          items := items[key := value];
        }
      } else {
        items := items[key := value];
      }
    }

    method Get(key: string) returns (r: Option<V>)
      ensures r == Lookup(items, key)
    {
      if key !in items {
        return None;
      }
      r := Some(items[key]);
    }

    method Delete(key: string)
      modifies this
      ensures items == old(items) - {key}
    {
      items := items - {key};
    }

    method Rename(oldKey: string, newKey: string) returns (found: bool)
      modifies this
      ensures found <==> oldKey in old(items)
      ensures items == if found then Renamed(old(items), oldKey, newKey).value else old(items)
    {
      if oldKey !in items {
        return false;
      }
      items := items[newKey := items[oldKey]];
      items := items - {oldKey};
      found := true;
    }
  }

  // ---------------------------------------------------------------- histories

  datatype Op<V> =
    | Write(key: Key, value: V)
    | WriteIfAbsent(key: Key, value: V)
    | Erase(key: Key)  // deleted or expired

  function Perform<V>(store: Store<V>, op: Op<V>): Store<V> {
    match op
    case Write(key, value) => Put(store, FullKey(key), value, false)
    case WriteIfAbsent(key, value) => Put(store, FullKey(key), value, true)
    case Erase(key) => store - {FullKey(key)}
  }

  function After<V>(ops: seq<Op<V>>): Store<V> {
    if ops == [] then map[] else Perform(After(ops[..|ops| - 1]), ops[|ops| - 1])
  }

  /** What the operations on this very key left behind, whatever happened to other keys. */
  function LastWritten<V>(ops: seq<Op<V>>, key: Key): Option<V> {
    if ops == [] then None
    else
      var op, before := ops[|ops| - 1], LastWritten(ops[..|ops| - 1], key);
      if op.key != key then before
      else
        match op
        case Write(_, value) => Some(value)
        case WriteIfAbsent(_, value) => if before.Some? then before else Some(value)
        case Erase(_) => None
  }

  /** Every read returns the last value written with exactly the same parameters, or a miss. */
  lemma {:induction false} ReadsLastWritten<V>(ops: seq<Op<V>>, key: Key)
    requires Clean(key) && forall i :: 0 <= i < |ops| ==> Clean(ops[i].key)
    ensures Lookup(After(ops), FullKey(key)) == LastWritten(ops, key)
    decreases |ops|
  {
    if ops != [] {
      var op := ops[|ops| - 1];
      ReadsLastWritten(ops[..|ops| - 1], key);
      if FullKey(op.key) == FullKey(key) {
        NoCollision(op.key, key);
      }
    }
  }
}
