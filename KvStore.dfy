/**
 * The local key-value store of the main process (`yakit-local.json`).
 *
 * The in-memory `Map` is a sequence of records in insertion order with
 * distinct keys, which is how a JavaScript `Map` iterates. The backing file
 * is a field of the store holding the parsed JSON array. `localeCompare`,
 * which orders the file, is stood in for by plain lexicographic order on
 * characters.
 */
module LocalKv {
  import opened Js

  /** `{key, value}`: an entry of the map and an element of the file. A file
      element without a `key` is read as one whose key is "". */
  datatype KvRecord<V> = KvRecord(key: string, value: V)

  ghost predicate UniqueKeys<V>(m: seq<KvRecord<V>>) {
    forall i, j :: 0 <= i < j < |m| ==> m[i].key != m[j].key
  }

  function Keys<V>(m: seq<KvRecord<V>>): set<string> {
    set i | 0 <= i < |m| :: m[i].key
  }

  lemma KeysCons<V>(x: KvRecord<V>, m: seq<KvRecord<V>>)
    ensures Keys([x] + m) == {x.key} + Keys(m)
  {
    var c := [x] + m;
    forall key | key in Keys(m) ensures key in Keys(c) {
      var i :| 0 <= i < |m| && m[i].key == key;
      assert c[i + 1] == m[i];
    }
    forall key | key in Keys(c) ensures key in {x.key} + Keys(m) {
      var i :| 0 <= i < |c| && c[i].key == key;
      if i > 0 {
        assert m[i - 1] == c[i];
      }
    }
    assert c[0] == x;
  }

  /** `map.get(k)` */
  function Lookup<V>(m: seq<KvRecord<V>>, k: string): Option<V> {
    if m == [] then None
    else if m[0].key == k then Some(m[0].value)
    else Lookup(m[1..], k)
  }

  /** `map.set(k, v)`: overwrites the value in place when `k` is a key, and
      appends a new last entry otherwise. */
  function Put<V>(m: seq<KvRecord<V>>, k: string, v: V): (r: seq<KvRecord<V>>)
    ensures Lookup(r, k) == Some(v)
    ensures forall j :: j != k ==> Lookup(r, j) == Lookup(m, j)
    ensures Keys(r) == Keys(m) + {k}
    ensures UniqueKeys(m) ==> UniqueKeys(r)
    ensures k in Keys(m) ==> |r| == |m|
    ensures k !in Keys(m) ==> r == m + [KvRecord(k, v)]
  {
    if m == [] then
      assert Keys([KvRecord(k, v)]) == {k} by {
        KeysCons(KvRecord(k, v), []);
      }
      [KvRecord(k, v)]
    else if m[0].key == k then
      PutHead(m, k, v);
      [KvRecord(k, v)] + m[1..]
    else
      var tail := Put(m[1..], k, v);
      PutTail(m, k, v, tail);
      [m[0]] + tail
  }

  /** What `Put` promises, as one predicate for its two recursive steps. */
  ghost predicate PutSpec<V>(m: seq<KvRecord<V>>, k: string, v: V, r: seq<KvRecord<V>>) {
    && Lookup(r, k) == Some(v)
    && (forall j :: j != k ==> Lookup(r, j) == Lookup(m, j))
    && Keys(r) == Keys(m) + {k}
    && (UniqueKeys(m) ==> UniqueKeys(r))
    && (k in Keys(m) ==> |r| == |m|)
    && (k !in Keys(m) ==> r == m + [KvRecord(k, v)])
  }

  lemma PutHead<V>(m: seq<KvRecord<V>>, k: string, v: V)
    requires m != [] && m[0].key == k
    ensures PutSpec(m, k, v, [KvRecord(k, v)] + m[1..])
  {
    var r := [KvRecord(k, v)] + m[1..];
    KeysCons(m[0], m[1..]);
    KeysCons(KvRecord(k, v), m[1..]);
    assert m == [m[0]] + m[1..];
    assert r[1..] == m[1..];
    assert forall i :: 0 <= i < |r| ==> r[i].key == m[i].key;
  }

  lemma PutTail<V>(m: seq<KvRecord<V>>, k: string, v: V, tail: seq<KvRecord<V>>)
    requires m != [] && m[0].key != k
    requires PutSpec(m[1..], k, v, tail)
    ensures PutSpec(m, k, v, [m[0]] + tail)
  {
    var r := [m[0]] + tail;
    KeysCons(m[0], m[1..]);
    KeysCons(m[0], tail);
    assert m == [m[0]] + m[1..];
    assert r[1..] == tail;
    assert Lookup(r, k) == Lookup(tail, k);
    forall j | j != k ensures Lookup(r, j) == Lookup(m, j) {
      if j != m[0].key {
        assert Lookup(r, j) == Lookup(tail, j);
        assert Lookup(m, j) == Lookup(m[1..], j);
      }
    }
    assert k in Keys(m) ==> k in Keys(m[1..]);
    if UniqueKeys(m) {
      UniqueKeysCons(m);
      UniqueKeysPrepend(m[0], tail);
    }
    if k !in Keys(m) {
      assert r == m + [KvRecord(k, v)];
    }
  }

  lemma UniqueKeysPrepend<V>(x: KvRecord<V>, t: seq<KvRecord<V>>)
    requires UniqueKeys(t) && x.key !in Keys(t)
    ensures UniqueKeys([x] + t)
  {
    var r := [x] + t;
    forall i, j | 0 <= i < j < |r| ensures r[i].key != r[j].key {
      assert r[j] == t[j - 1];
      if i == 0 {
        assert t[j - 1].key in Keys(t);
      } else {
        assert r[i] == t[i - 1];
      }
    }
  }

  // ---------------------------------------------------------------------------
  // Loading: `getKVPair`

  /** The map that replaying the file's elements in order builds: every
      element with a truthy (non-empty) key is `set`. */
  function Loaded<V>(recs: seq<KvRecord<V>>): (m: seq<KvRecord<V>>)
    ensures UniqueKeys(m)
    ensures "" !in Keys(m)
  {
    if recs == [] then []
    else
      var m := Loaded(recs[..|recs| - 1]);
      var r := recs[|recs| - 1];
      if r.key != "" then Put(m, r.key, r.value) else m
  }

  function LoadFile<V>(disk: Disk<KvRecord<V>>): seq<KvRecord<V>> {
    match disk
    case Unreadable => []
    case Stored(recs) => Loaded(recs)
  }

  /** The value of the last element of `recs` with key `k`, unless `k` is the
      falsy key "". */
  function LastValue<V>(recs: seq<KvRecord<V>>, k: string): Option<V> {
    if recs == [] || k == "" then None
    else if recs[|recs| - 1].key == k then Some(recs[|recs| - 1].value)
    else LastValue(recs[..|recs| - 1], k)
  }

  /** Reloading keeps, for every non-empty key, the value of its last element
      in the file, and drops elements with the empty key. */
  lemma {:induction false} LoadedLookup<V>(recs: seq<KvRecord<V>>, k: string)
    ensures Lookup(Loaded(recs), k) == LastValue(recs, k)
  {
    if recs != [] {
      LoadedLookup(recs[..|recs| - 1], k);
    } else {
      assert Loaded(recs) == [];
    }
  }

  // ---------------------------------------------------------------------------
  // Saving: `setKVPair`

  /** Lexicographic order on characters, standing in for `localeCompare`. */
  predicate Less(a: string, b: string) {
    if |a| == 0 then |b| > 0
    else if |b| == 0 then false
    else if a[0] != b[0] then a[0] < b[0]
    else Less(a[1..], b[1..])
  }

  lemma {:induction false} LessIrreflexive(a: string)
    ensures !Less(a, a)
  {
    if |a| > 0 {
      LessIrreflexive(a[1..]);
    }
  }

  lemma {:induction false} LessTransitive(a: string, b: string, c: string)
    requires Less(a, b) && Less(b, c)
    ensures Less(a, c)
  {
    if |a| > 0 && |b| > 0 && |c| > 0 && a[0] == b[0] == c[0] {
      LessTransitive(a[1..], b[1..], c[1..]);
    }
  }

  lemma {:induction false} LessTotal(a: string, b: string)
    requires a != b
    ensures Less(a, b) || Less(b, a)
  {
    if |a| > 0 && |b| > 0 && a[0] == b[0] {
      assert a == [a[0]] + a[1..] && b == [b[0]] + b[1..];
      LessTotal(a[1..], b[1..]);
    }
  }

  ghost predicate StrictlySorted<V>(s: seq<KvRecord<V>>) {
    forall i, j :: 0 <= i < j < |s| ==> Less(s[i].key, s[j].key)
  }

  /** Inserts a record whose key is new into a list sorted by key. */
  function Insert<V>(x: KvRecord<V>, s: seq<KvRecord<V>>): (r: seq<KvRecord<V>>)
    requires StrictlySorted(s)
    requires x.key !in Keys(s)
    ensures multiset(r) == multiset(s) + multiset{x}
    ensures StrictlySorted(r)
  {
    if s == [] then [x]
    else if Less(x.key, s[0].key) then
      BelowAll(x.key, s);
      SortedPrepend(x, s);
      [x] + s
    else
      assert Less(s[0].key, x.key) by {
        assert s[0].key in Keys(s);
        LessTotal(x.key, s[0].key);
      }
      assert Keys(s[1..]) <= Keys(s);
      var tail := Insert(x, s[1..]);
      HeadBelowTail(x, s, tail);
      SortedPrepend(s[0], tail);
      assert s == [s[0]] + s[1..];
      [s[0]] + tail
  }

  /** A key below the first of a sorted list is below all of them. */
  lemma BelowAll<V>(a: string, s: seq<KvRecord<V>>)
    requires StrictlySorted(s) && s != [] && Less(a, s[0].key)
    ensures forall j :: 0 <= j < |s| ==> Less(a, s[j].key)
  {
    forall j | 0 < j < |s| ensures Less(a, s[j].key) {
      LessTransitive(a, s[0].key, s[j].key);
    }
  }

  lemma SortedPrepend<V>(x: KvRecord<V>, s: seq<KvRecord<V>>)
    requires StrictlySorted(s)
    requires forall j :: 0 <= j < |s| ==> Less(x.key, s[j].key)
    ensures StrictlySorted([x] + s)
  {
    var r := [x] + s;
    forall i, j | 0 <= i < j < |r| ensures Less(r[i].key, r[j].key) {
      assert r[j] == s[j - 1];
      if i > 0 {
        assert r[i] == s[i - 1];
      }
    }
  }

  /** The head of a sorted list is below everything inserting a larger
      record into its tail gives. */
  lemma HeadBelowTail<V>(x: KvRecord<V>, s: seq<KvRecord<V>>, tail: seq<KvRecord<V>>)
    requires s != [] && StrictlySorted(s) && Less(s[0].key, x.key)
    requires multiset(tail) == multiset(s[1..]) + multiset{x}
    ensures forall j :: 0 <= j < |tail| ==> Less(s[0].key, tail[j].key)
  {
    forall j | 0 <= j < |tail| ensures Less(s[0].key, tail[j].key) {
      assert tail[j] in multiset(tail);
      if tail[j] != x {
        assert tail[j] in s[1..];
        var k :| 0 <= k < |s[1..]| && s[1..][k] == tail[j];
        assert s[k + 1] == tail[j];
      }
    }
  }

  lemma UniqueKeysCons<V>(s: seq<KvRecord<V>>)
    requires s != [] && UniqueKeys(s)
    ensures UniqueKeys(s[1..]) && s[0].key !in Keys(s[1..])
  {
    forall i | 0 <= i < |s[1..]| ensures s[1..][i].key != s[0].key {
      assert s[1..][i] == s[i + 1];
    }
  }

  lemma SameKeys<V>(a: seq<KvRecord<V>>, b: seq<KvRecord<V>>)
    requires multiset(a) == multiset(b)
    ensures Keys(a) == Keys(b)
  {
    forall k | k in Keys(a) ensures k in Keys(b) {
      var i :| 0 <= i < |a| && a[i].key == k;
      assert a[i] in multiset(b);
      var j :| 0 <= j < |b| && b[j] == a[i];
    }
    forall k | k in Keys(b) ensures k in Keys(a) {
      var i :| 0 <= i < |b| && b[i].key == k;
      assert b[i] in multiset(a);
      var j :| 0 <= j < |a| && a[j] == b[i];
    }
  }

  /** `pairs.sort((a, b) => a.key.localeCompare(b.key))` */
  function SortByKey<V>(s: seq<KvRecord<V>>): (r: seq<KvRecord<V>>)
    requires UniqueKeys(s)
    ensures multiset(r) == multiset(s)
    ensures StrictlySorted(r)
  {
    if s == [] then []
    else
      UniqueKeysCons(s);
      var rest := SortByKey(s[1..]);
      SameKeys(rest, s[1..]);
      assert s == [s[0]] + s[1..];
      Insert(s[0], rest)
  }

  lemma {:induction false} LookupFinds<V>(m: seq<KvRecord<V>>, k: string, v: V)
    requires UniqueKeys(m)
    ensures Lookup(m, k) == Some(v) <==> KvRecord(k, v) in m
  {
    if m != [] {
      LookupFinds(m[1..], k, v);
    }
  }

  lemma {:induction false} LookupMisses<V>(m: seq<KvRecord<V>>, k: string)
    ensures Lookup(m, k) == None <==> k !in Keys(m)
  {
    if m != [] {
      LookupMisses(m[1..], k);
      assert Keys(m) == {m[0].key} + Keys(m[1..]);
    }
  }

  lemma {:induction false} LastValueOfUnique<V>(s: seq<KvRecord<V>>, k: string)
    requires UniqueKeys(s)
    ensures LastValue(s, k) == if k == "" then None else Lookup(s, k)
  {
    if s != [] && k != "" {
      var init := s[..|s| - 1];
      LastValueOfUnique(init, k);
      LookupMisses(init, k);
      LookupMisses(s, k);
      if s[|s| - 1].key == k {
        LookupFinds(s, k, s[|s| - 1].value);
        assert s[|s| - 1] in s;
      } else {
        assert Keys(s) == Keys(init) + {s[|s| - 1].key};
        if Lookup(init, k).Some? {
          LookupFinds(init, k, Lookup(init, k).value);
          LookupFinds(s, k, Lookup(init, k).value);
        }
      }
    }
  }

  /** The file `setKVPair` writes holds every entry of the map exactly once:
      the same records, strictly ascending by key. */
  lemma SortedFileHoldsMap<V>(m: seq<KvRecord<V>>)
    requires UniqueKeys(m)
    ensures |SortByKey(m)| == |m|
    ensures forall r :: r in SortByKey(m) <==> r in m
    ensures StrictlySorted(SortByKey(m))
    ensures UniqueKeys(SortByKey(m))
  {
    var s := SortByKey(m);
    assert |multiset(s)| == |multiset(m)|;
    forall r ensures r in s <==> r in m {
      assert r in s <==> r in multiset(s);
    }
    forall i, j | 0 <= i < j < |s| ensures s[i].key != s[j].key {
      LessIrreflexive(s[i].key);
    }
  }

  /** Reading back the file that `setKVPair` wrote gives the map it wrote,
      except an entry with the empty key, which the reload drops. */
  lemma ReloadAfterWrite<V>(m: seq<KvRecord<V>>, k: string)
    requires UniqueKeys(m)
    ensures Lookup(Loaded(SortByKey(m)), k) == if k == "" then None else Lookup(m, k)
  {
    var s := SortByKey(m);
    SortedFileHoldsMap(m);
    LoadedLookup(s, k);
    LastValueOfUnique(s, k);
    if k != "" {
      LookupMisses(s, k);
      LookupMisses(m, k);
      assert k in Keys(s) <==> k in Keys(m) by {
        if k in Keys(s) {
          var i :| 0 <= i < |s| && s[i].key == k;
          assert s[i] in m;
        }
        if k in Keys(m) {
          var i :| 0 <= i < |m| && m[i].key == k;
          assert m[i] in s;
        }
      }
      if Lookup(s, k).Some? {
        LookupFinds(s, k, Lookup(s, k).value);
        LookupFinds(m, k, Lookup(s, k).value);
      }
    }
  }

  /** The value `get-value` returns for a key: `kvpairs.get(key)` only finds
      string keys, since every key of the map is a string. */
  function Get<V>(m: seq<KvRecord<V>>, key: Scalar): Option<V> {
    match key
    case Str(s) => Lookup(m, s)
    case _ => None
  }

  /** `set-value(k, v)` then `get-value(String(k))` returns `v`, unless the
      stringified key is empty: that entry is written but dropped on reload. */
  lemma SetThenGet<V>(m: seq<KvRecord<V>>, k: Scalar, v: V)
    requires UniqueKeys(m)
    ensures Get(Loaded(SortByKey(Put(m, ToStr(k), v))), Str(ToStr(k)))
            == if ToStr(k) == "" then None else Some(v)
  {
    ReloadAfterWrite(Put(m, ToStr(k), v), ToStr(k));
  }

  /** Setting one key leaves what `get-value` reads for every other key as the
      file stood before, provided the map mirrored that file. */
  lemma SetKeepsOthers<V>(recs: seq<KvRecord<V>>, k: Scalar, v: V, other: string)
    requires other != ToStr(k)
    ensures Lookup(Loaded(SortByKey(Put(Loaded(recs), ToStr(k), v))), other)
            == Lookup(Loaded(recs), other)
  {
    LoadedLookup(recs, other);
    ReloadAfterWrite(Put(Loaded(recs), ToStr(k), v), other);
    LastValueOfUnique(Loaded(recs), other);
    if other == "" {
      LoadedLookup(recs, other);
    }
  }

  // ---------------------------------------------------------------------------
  // The store

  class KvStore<V> {
    /** `kvpairs`, in insertion order */
    var pairs: seq<KvRecord<V>>
    /** `yakit-local.json` */
    var file: Disk<KvRecord<V>>

    ghost predicate Valid()
      reads this
    {
      UniqueKeys(pairs)
    }

    /** Module start-up, which runs `getKVPair()` once. */
    constructor (disk: Disk<KvRecord<V>>)
      ensures Valid()
      ensures file == disk && pairs == LoadFile(disk)
    {
      file := disk;
      pairs := [];
      new;
      GetKVPair();
    }

    /** `getKVPair`: empties the map, then sets every file element with a
        truthy key, in file order; an unreadable file leaves the map empty. */
    method GetKVPair()
      modifies this`pairs
      ensures Valid()
      ensures pairs == LoadFile(file)
    {
      // delete every key
      pairs := [];
      match file
      case Unreadable =>
      case Stored(recs) =>
        for i := 0 to |recs|
          invariant pairs == Loaded(recs[..i])
        {
          assert recs[..i + 1][..i] == recs[..i];
          if recs[i].key != "" {
            pairs := Put(pairs, recs[i].key, recs[i].value);
          }
        }
        assert recs[..|recs|] == recs;
    }

    /** `setKVPair(k, v)`: sets `${k}`, then rewrites the whole file as the
        map's records sorted by key. */
    method SetKVPair(k: Scalar, v: V)
      requires Valid()
      modifies this
      ensures Valid()
      ensures pairs == Put(old(pairs), ToStr(k), v)
      ensures file == Stored(SortByKey(pairs))
    {
      pairs := Put(pairs, ToStr(k), v);
      file := Stored(SortByKey(pairs));
    }

    /** The `get-value` handler: reloads the file, then looks the key up. */
    method GetValue(key: Scalar) returns (r: Option<V>)
      modifies this`pairs
      ensures Valid()
      ensures pairs == LoadFile(file)
      ensures r == Get(pairs, key)
      ensures r.Some? ==> key.Str? && key.s != ""
    {
      GetKVPair();
      r := Get(pairs, key);
      if r.Some? {
        LoadedLookup(file.records, key.s);
      }
    }
  }
}
