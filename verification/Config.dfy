/**
 The configuration repository: a view of the raw keys "config:" + key of a shared store.  The store is
 a map whose missing keys read as the empty string and whose enumeration visits every matching entry
 once, in any order.
 */
module ConfigRepository {
  import opened Options
  import opened Text

  const BUCKET := "config"

  type Entries = map<string, string>

  function RawKey(key: string): string { BUCKET + ":" + key }

  predicate InBucket(raw: string) { HasPrefix(raw, RawKey("")) }

  /** `entry.Key[ConfigBucketLen+1:]`. */
  function ConfigKey(raw: string): string
    requires InBucket(raw)
  {
    raw[|BUCKET| + 1..]
  }

  lemma KeysCorrespond(raw: string, key: string)
    ensures InBucket(RawKey(key)) && ConfigKey(RawKey(key)) == key
    ensures InBucket(raw) ==> RawKey(ConfigKey(raw)) == raw
  {
  }

  /** The bucket is the raw keys that begin with "config:". */
  lemma BucketKeys(raw: string)
    ensures InBucket(raw) <==> HasPrefix(raw, "config:")
    ensures InBucket(raw) ==> ConfigKey(raw) == raw[7..]
  {
  }

  /** The entries a raw store holds for the repository. */
  ghost function View(store: Entries): (m: Entries)
    ensures forall key :: key in m <==> RawKey(key) in store
    ensures forall key :: key in m ==> m[key] == store[RawKey(key)]
  {
    var keys := set raw | raw in store && InBucket(raw) :: ConfigKey(raw);
    assert forall key :: key in keys <==> RawKey(key) in store by {
      forall key ensures key in keys <==> RawKey(key) in store {
        KeysCorrespond(RawKey(key), key);
        forall raw | raw in store && InBucket(raw) && ConfigKey(raw) == key ensures raw == RawKey(key) {
          KeysCorrespond(raw, key);
        }
      }
    }
    map key | key in keys :: store[RawKey(key)]
  }

  function Read(m: Entries, key: string): string { if key in m then m[key] else "" }

  /** Setting a key; the empty value deletes it. */
  function Updated(m: Entries, key: string, value: string): Entries {
    if value == "" then m - {key} else m[key := value]
  }

  function Under(m: Entries, prefix: string): Entries {
    map key | key in m && HasPrefix(key, prefix) :: m[key]
  }

  ghost predicate NoEmptyValue(m: Entries) { forall key :: key in m ==> m[key] != "" }

  /** Raw keys outside the bucket are the same. */
  ghost predicate SameOutside(store: Entries, store': Entries) {
    forall raw :: !InBucket(raw) ==> (raw in store <==> raw in store') && (raw in store ==> store[raw] == store'[raw])
  }

  lemma RawKeyInjective(a: string, b: string)
    requires RawKey(a) == RawKey(b)
    ensures a == b
  {
    KeysCorrespond("", a);
    KeysCorrespond("", b);
  }

  lemma SetRefinesAt(store: Entries, key: string, value: string, k: string)
    ensures var a, b := View(Updated(store, RawKey(key), value)), Updated(View(store), key, value);
            (k in a <==> k in b) && (k in a ==> a[k] == b[k])
  {
    if RawKey(k) == RawKey(key) {
      RawKeyInjective(k, key);
    }
  }

  lemma SetRefines(store: Entries, key: string, value: string)
    ensures View(Updated(store, RawKey(key), value)) == Updated(View(store), key, value)
  {
    var a, b := View(Updated(store, RawKey(key), value)), Updated(View(store), key, value);
    SameMap(a, b) by {
      forall k ensures (k in a <==> k in b) && (k in a ==> a[k] == b[k]) {
        SetRefinesAt(store, key, value, k);
      }
    }
  }

  lemma SameMap(a: Entries, b: Entries)
    requires forall k :: (k in a <==> k in b) && (k in a ==> a[k] == b[k])
    ensures a == b
  {
  }

  lemma SetKeeps(store: Entries, key: string, value: string)
    ensures SameOutside(store, Updated(store, RawKey(key), value))
    ensures NoEmptyValue(View(store)) ==> NoEmptyValue(View(Updated(store, RawKey(key), value)))
  {
    SetRefines(store, key, value);
    KeysCorrespond("", key);
  }

  lemma PrefixUnderBucket(key: string, p: string)
    ensures HasPrefix(RawKey(key), RawKey(p)) <==> HasPrefix(key, p)
  {
    if |p| <= |key| {
      assert RawKey(key)[..|RawKey(p)|] == RawKey("") + key[..|p|];
      assert RawKey(p) == RawKey("") + p;
      assert RawKey(key)[..|RawKey(p)|][|RawKey("")|..] == key[..|p|] && RawKey(p)[|RawKey("")|..] == p;
    }
  }

  lemma PrefixInBucket(raw: string, p: string)
    requires HasPrefix(raw, RawKey(p))
    ensures InBucket(raw)
  {
    assert raw[..|RawKey("")|] == raw[..|RawKey(p)|][..|RawKey("")|];
  }

  /** What an enumeration reports: the matching entries, their raw keys without the bucket. */
  function Matching(store: Entries, prefix: string): (found: Entries)
    ensures found == Under(View(store), prefix)
  {
    var raws := set raw | raw in store && HasPrefix(raw, RawKey(prefix));
    assert forall raw :: raw in raws ==> InBucket(raw) by {
      forall raw | raw in raws ensures InBucket(raw) { PrefixInBucket(raw, prefix); }
    }
    var keys := set raw | raw in raws :: ConfigKey(raw);
    assert keys == Under(View(store), prefix).Keys by {
      forall key ensures key in keys <==> key in Under(View(store), prefix) {
        StrippedKey(store, raws, prefix, key);
      }
    }
    map key | key in keys :: store[RawKey(key)]
  }

  lemma StrippedKey(store: Entries, raws: set<string>, prefix: string, key: string)
    requires forall raw :: raw in raws <==> raw in store && HasPrefix(raw, RawKey(prefix))
    requires forall raw :: raw in raws ==> InBucket(raw)
    ensures (exists raw :: raw in raws && ConfigKey(raw) == key) <==> key in Under(View(store), prefix)
  {
    PrefixUnderBucket(key, prefix);
    KeysCorrespond("", key);
    if key in Under(View(store), prefix) {
      assert RawKey(key) in raws;
    } else if raw :| raw in raws && ConfigKey(raw) == key {
      KeysCorrespond(raw, key);
    }
  }

  /** The repository object.  `attached` is false while no backend store is set. */
  class Repository {
    var store: Entries
    var attached: bool
    var shuttingDown: bool

    constructor (store: Entries)
      ensures this.store == store && attached && !shuttingDown
    {
      this.store := store;
      attached := true;
      shuttingDown := false;
    }

    method Get(key: string) returns (value: string)
      requires attached
      ensures value == Read(View(store), key)
    {
      value := if RawKey(key) in store then store[RawKey(key)] else "";
    }

    method GetProperty(key: string) returns (value: Option<string>)
      ensures !attached || shuttingDown ==> value == None
      ensures attached && !shuttingDown ==>
                (value.None? <==> key !in View(store) || View(store)[key] == "")
      ensures value.Some? ==> value.value == View(store)[key]
    {
      if !attached || shuttingDown {
        return None;
      }
      var v := Get(key);
      value := if v == "" then None else Some(v);
    }

    method Set(key: string, value: string)
      requires attached
      modifies this`store
      ensures View(store) == Updated(old(View(store)), key, value)
      ensures SameOutside(old(store), store)
      ensures old(NoEmptyValue(View(store))) ==> NoEmptyValue(View(store))
    {
      SetRefines(store, key, value);
      SetKeeps(store, key, value);
      if value == "" {
        store := store - {RawKey(key)};
      } else {
        store := store[RawKey(key) := value];
      }
    }

    /**
     `cb` is the callback; `visited` lists its calls.  Every call is a different entry under the
     prefix, a false answer ends the enumeration, and without one every such entry is visited.
     */
    method EnumerateAll(prefix: string, cb: (string, string) -> bool) returns (visited: seq<(string, string)>)
      requires attached
      ensures Visits(visited, Under(View(store), prefix))
      ensures forall i :: 0 <= i < |visited| - 1 ==> cb(visited[i].0, visited[i].1)
      ensures visited == [] || cb(visited[|visited| - 1].0, visited[|visited| - 1].1) ==>
                forall key :: key in Under(View(store), prefix) ==> Called(visited, key)
    {
      var found := Matching(store, prefix);
      visited := VisitAll(found, cb);
    }
  }

  /** The calls are for different entries of `m`. */
  ghost predicate Visits(visited: seq<(string, string)>, m: Entries) {
    && (forall i :: 0 <= i < |visited| ==> visited[i].0 in m && visited[i].1 == m[visited[i].0])
    && (forall i, j :: 0 <= i < j < |visited| ==> visited[i].0 != visited[j].0)
  }

  method VisitAll(found: Entries, cb: (string, string) -> bool) returns (visited: seq<(string, string)>)
    ensures Visits(visited, found)
    ensures forall i :: 0 <= i < |visited| - 1 ==> cb(visited[i].0, visited[i].1)
    ensures visited == [] || cb(visited[|visited| - 1].0, visited[|visited| - 1].1) ==>
              forall key :: key in found ==> Called(visited, key)
  {
    visited := [];
    var rest := found.Keys;
    while rest != {}
      invariant rest <= found.Keys && Visits(visited, found)
      invariant forall key :: key in found ==> key in rest || Called(visited, key)
      invariant forall i :: 0 <= i < |visited| ==> visited[i].0 !in rest && cb(visited[i].0, visited[i].1)
      decreases |rest|
    {
      var key :| key in rest;
      CalledMore(visited, (key, found[key]));
      rest := rest - {key};
      visited := visited + [(key, found[key])];
      if !cb(key, found[key]) {
        return;
      }
    }
  }

  predicate Called(visited: seq<(string, string)>, key: string) {
    exists i :: 0 <= i < |visited| && visited[i].0 == key
  }

  lemma CalledMore(seen: seq<(string, string)>, call: (string, string))
    ensures Called(seen + [call], call.0)
    ensures forall key :: Called(seen, key) ==> Called(seen + [call], key)
  {
    assert (seen + [call])[|seen|] == call;
    forall key | Called(seen, key) ensures Called(seen + [call], key) {
      var i :| 0 <= i < |seen| && seen[i].0 == key;
      assert (seen + [call])[i].0 == key;
    }
  }

  // ----- Any history behaves as a map

  datatype Op =
    | OpSet(key: string, value: string)
    | OpGet(key: string)
    | OpProperty(key: string)
    | OpEnumerate(prefix: string)

  datatype Seen = Nothing | Value(value: string) | Property(property: Option<string>) | Listing(entries: Entries)

  /** One operation on the raw store, as the repository performs it. */
  ghost function OnStore(store: Entries, op: Op): (Entries, Seen) {
    match op
    case OpSet(k, v) => (Updated(store, RawKey(k), v), Nothing)
    case OpGet(k) => (store, Value(Read(store, RawKey(k))))
    case OpProperty(k) => (store, Property(if Read(store, RawKey(k)) == "" then None else Some(Read(store, RawKey(k)))))
    case OpEnumerate(p) =>
      (store, Listing(map key | key in View(store) && HasPrefix(RawKey(key), RawKey(p)) :: store[RawKey(key)]))
  }

  /** The same operation on a plain map from keys to non-empty strings. */
  ghost function OnMap(m: Entries, op: Op): (Entries, Seen) {
    match op
    case OpSet(k, v) => (if v == "" then m - {k} else m[k := v], Nothing)
    case OpGet(k) => (m, Value(if k in m then m[k] else ""))
    case OpProperty(k) => (m, Property(if k in m then Some(m[k]) else None))
    case OpEnumerate(p) => (m, Listing(map key | key in m && HasPrefix(key, p) :: m[key]))
  }

  ghost function History(on: (Entries, Op) -> (Entries, Seen), m: Entries, ops: seq<Op>): (Entries, seq<Seen>)
    decreases |ops|
  {
    if ops == [] then (m, [])
    else
      var (next, seen) := on(m, ops[0]);
      var (last, more) := History(on, next, ops[1..]);
      (last, [seen] + more)
  }

  lemma OperationRefines(store: Entries, op: Op)
    requires NoEmptyValue(View(store))
    ensures var (store', seen) := OnStore(store, op);
            && OnMap(View(store), op) == (View(store'), seen)
            && SameOutside(store, store') && NoEmptyValue(View(store'))
  {
    match op
    case OpSet(k, v) => SetRefines(store, k, v); SetKeeps(store, k, v);
    case OpGet(_) =>
    case OpProperty(_) =>
    case OpEnumerate(p) => EnumerateRefines(store, p);
  }

  lemma EnumerateRefines(store: Entries, p: string)
    ensures OnStore(store, OpEnumerate(p)).1 == OnMap(View(store), OpEnumerate(p)).1
  {
    var m := View(store);
    var a, b := OnStore(store, OpEnumerate(p)).1.entries, OnMap(m, OpEnumerate(p)).1.entries;
    SameMap(a, b) by {
      forall key ensures (key in a <==> key in b) && (key in a ==> a[key] == b[key]) {
        PrefixUnderBucket(key, p);
      }
    }
  }

  /**
   Every history of Set, Get, GetProperty and EnumerateAll through the repository is observed as on a
   map from keys to non-empty strings; it never stores an empty value and never touches a raw key
   outside the bucket.
   */
  lemma {:induction false} HistoryRefinesMap(store: Entries, ops: seq<Op>)
    requires NoEmptyValue(View(store))
    ensures var (end, seen) := History(OnStore, store, ops);
            && History(OnMap, View(store), ops) == (View(end), seen)
            && SameOutside(store, end) && NoEmptyValue(View(end))
    decreases |ops|
  {
    if ops != [] {
      OperationRefines(store, ops[0]);
      HistoryRefinesMap(OnStore(store, ops[0]).0, ops[1..]);
    }
  }
}
