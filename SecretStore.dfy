/**
 * The remote-engine credential store of the main process
 * (`yakit-remote.json`): the module-level array `authMeta`, the file it is
 * loaded from and saved to, and the IPC handlers that save and remove one
 * profile by name.
 */
module RemoteAuth {
  import opened Js

  /** `{name, host, port, tls, password, caPem}`: an element of the file and
      an entry of `authMeta`. A field the JSON object lacks is `Undefined`. */
  datatype Profile = Profile(name: Scalar, host: Scalar, port: Scalar, tls: Scalar,
                             password: Scalar, caPem: Scalar)

  /** A thrown error or a normal return of a handler. */
  datatype Outcome = Done | Threw(message: string)

  const EmptyEndpointError := "empty host or port"

  /** `${host}:${port}` */
  function DefaultName(host: Scalar, port: Scalar): (n: Scalar)
    ensures Truthy(n)
  {
    Str(ToStr(host) + ":" + ToStr(port))
  }

  /** The `!(host && port)` test of `loadSecrets` and `saveSecret`. */
  predicate HasEndpoint(p: Profile) {
    Truthy(p.host) && Truthy(p.port)
  }

  /** What every entry of `authMeta` satisfies. */
  predicate Admissible(p: Profile) {
    Truthy(p.name) && HasEndpoint(p)
  }

  function Names(s: seq<Profile>): set<Scalar> {
    set i | 0 <= i < |s| :: s[i].name
  }

  ghost predicate UniqueNames(s: seq<Profile>) {
    forall i, j :: 0 <= i < j < |s| ==> s[i].name != s[j].name
  }

  // ---------------------------------------------------------------------------
  // loadSecrets

  /** The entry `loadSecrets` pushes for a file element: `name` defaults to
      `host:port`, `password` and `caPem` to "". */
  function Normalize(i: Profile): (p: Profile)
    ensures Truthy(i.name) ==> p.name == i.name
    ensures !Truthy(i.name) ==> p.name == DefaultName(i.host, i.port)
    ensures p.host == i.host && p.port == i.port && p.tls == i.tls
    ensures Truthy(i.password) ==> p.password == i.password
    ensures !Truthy(i.password) ==> p.password == Str("")
    ensures Truthy(i.caPem) ==> p.caPem == i.caPem
    ensures !Truthy(i.caPem) ==> p.caPem == Str("")
  {
    Profile(Or(i.name, DefaultName(i.host, i.port)), i.host, i.port, i.tls,
            Or(i.password, Str("")), Or(i.caPem, Str("")))
  }

  /** The array `loadSecrets` rebuilds from the file's elements. */
  function LoadProfiles(recs: seq<Profile>): (r: seq<Profile>)
    ensures |r| <= |recs|
    ensures forall k :: 0 <= k < |r| ==> Admissible(r[k])
  {
    if recs == [] then []
    else
      var last := recs[|recs| - 1];
      LoadProfiles(recs[..|recs| - 1]) + (if HasEndpoint(last) then [Normalize(last)] else [])
  }

  lemma LoadProfilesSnoc(recs: seq<Profile>, i: nat)
    requires i < |recs|
    ensures LoadProfiles(recs[..i + 1])
            == LoadProfiles(recs[..i]) + (if HasEndpoint(recs[i]) then [Normalize(recs[i])] else [])
  {
    assert recs[..i + 1][..i] == recs[..i];
    assert recs[..i + 1][i] == recs[i];
  }

  function LoadFile(disk: Disk<Profile>): seq<Profile> {
    match disk
    case Unreadable => []
    case Stored(recs) => LoadProfiles(recs)
  }

  /** `loadSecrets` keeps exactly the elements with a truthy host and port,
      each normalised. */
  lemma {:induction false} LoadKeepsEndpoints(recs: seq<Profile>, i: Profile)
    ensures i in recs && HasEndpoint(i) ==> Normalize(i) in LoadProfiles(recs)
    ensures forall p :: p in LoadProfiles(recs) ==> exists q :: q in recs && HasEndpoint(q) && p == Normalize(q)
  {
    if recs != [] {
      var init := recs[..|recs| - 1];
      LoadKeepsEndpoints(init, i);
      assert recs == init + [recs[|recs| - 1]];
    }
  }

  /** The loaded list is the file's elements with a truthy host and port,
      in file order, each normalised. */
  lemma {:induction false} LoadInFileOrder(recs: seq<Profile>)
    ensures |LoadProfiles(recs)| == |Filter(HasEndpoint, recs)|
    ensures forall k :: 0 <= k < |LoadProfiles(recs)| ==>
              LoadProfiles(recs)[k] == Normalize(Filter(HasEndpoint, recs)[k])
  {
    if recs != [] {
      var init := recs[..|recs| - 1];
      var last := recs[|recs| - 1];
      LoadInFileOrder(init);
      assert recs == init + [last];
      FilterSnoc(HasEndpoint, init, last);
      var l, kept := LoadProfiles(recs), Filter(HasEndpoint, recs);
      assert l == LoadProfiles(init) + (if HasEndpoint(last) then [Normalize(last)] else []);
      assert kept == Filter(HasEndpoint, init) + (if HasEndpoint(last) then [last] else []);
      forall k | 0 <= k < |l| ensures l[k] == Normalize(kept[k]) {
        if k < |LoadProfiles(init)| {
          assert l[k] == LoadProfiles(init)[k];
          assert kept[k] == Filter(HasEndpoint, init)[k];
        }
      }
    }
  }

  /** On entries that are already admissible, loading only fills in the
      defaults of `password` and `caPem`: names, endpoints and order stay. */
  lemma {:induction false} LoadAdmissible(s: seq<Profile>)
    requires forall k :: 0 <= k < |s| ==> Admissible(s[k])
    ensures |LoadProfiles(s)| == |s|
    ensures forall k :: 0 <= k < |s| ==> LoadProfiles(s)[k] == Normalize(s[k])
    ensures forall k :: 0 <= k < |s| ==> LoadProfiles(s)[k].name == s[k].name
  {
    if s != [] {
      var init := s[..|s| - 1];
      var last := s[|s| - 1];
      LoadAdmissible(init);
      var l := LoadProfiles(s);
      assert l == LoadProfiles(init) + [Normalize(last)];
      forall k | 0 <= k < |s| ensures l[k] == Normalize(s[k]) && l[k].name == s[k].name {
        if k < |init| {
          assert l[k] == LoadProfiles(init)[k] && init[k] == s[k];
        }
      }
    }
  }

  lemma LoadAdmissibleNames(s: seq<Profile>)
    requires forall k :: 0 <= k < |s| ==> Admissible(s[k])
    ensures Names(LoadProfiles(s)) == Names(s)
    ensures UniqueNames(s) ==> UniqueNames(LoadProfiles(s))
  {
    LoadAdmissible(s);
    SameNames(s, LoadProfiles(s));
  }

  /** Two lists with the same name at every index have the same names, and
      one has no repeated name when the other has none. */
  lemma SameNames(s: seq<Profile>, l: seq<Profile>)
    requires |l| == |s|
    requires forall k :: 0 <= k < |s| ==> l[k].name == s[k].name
    ensures Names(l) == Names(s)
    ensures UniqueNames(s) ==> UniqueNames(l)
  {
    forall n | n in Names(s) ensures n in Names(l) {
      var k :| 0 <= k < |s| && s[k].name == n;
      assert l[k].name == n;
    }
    forall n | n in Names(l) ensures n in Names(s) {
      var k :| 0 <= k < |l| && l[k].name == n;
      assert s[k].name == n;
    }
  }

  /** Loading what loading produced changes nothing. */
  lemma LoadIdempotent(recs: seq<Profile>)
    ensures LoadProfiles(LoadProfiles(recs)) == LoadProfiles(recs)
  {
    var l := LoadProfiles(recs);
    LoadAdmissible(l);
    forall k | 0 <= k < |l| ensures LoadProfiles(l)[k] == l[k] {
      LoadKeepsEndpoints(recs, l[0]);
      assert l[k] in l;
      var q :| q in recs && HasEndpoint(q) && l[k] == Normalize(q);
    }
  }

  // ---------------------------------------------------------------------------
  // saveAllSecret: keep the first profile of every name

  /** `arr.findIndex(origin => origin.name === name)` */
  function FindIndex(s: seq<Profile>, name: Scalar): (i: int)
    ensures -1 <= i < |s|
    ensures i >= 0 ==> s[i].name == name && forall j :: 0 <= j < i ==> s[j].name != name
    ensures i == -1 ==> forall j :: 0 <= j < |s| ==> s[j].name != name
  {
    if s == [] then -1
    else if s[0].name == name then 0
    else
      var k := FindIndex(s[1..], name);
      if k == -1 then -1 else k + 1
  }

  /** The elements at positions `i..` that pass the filter of `saveAllSecret`. */
  function KeepFirstFrom(s: seq<Profile>, i: nat): seq<Profile>
    decreases |s| - i
  {
    if i >= |s| then []
    else (if FindIndex(s, s[i].name) == i then [s[i]] else []) + KeepFirstFrom(s, i + 1)
  }

  /** `authInfos.filter((v, i, arr) => arr.findIndex(o => o.name === v.name) === i)` */
  function KeepFirst(s: seq<Profile>): seq<Profile> {
    KeepFirstFrom(s, 0)
  }

  lemma NamesCons(p: Profile, s: seq<Profile>)
    ensures Names([p] + s) == {p.name} + Names(s)
  {
    var t := [p] + s;
    forall n | n in Names(t) ensures n in {p.name} + Names(s) {
      var k :| 0 <= k < |t| && t[k].name == n;
      if k > 0 {
        assert s[k - 1] == t[k];
      }
    }
    forall n | n in Names(s) ensures n in Names(t) {
      var k :| 0 <= k < |s| && s[k].name == n;
      assert t[k + 1] == s[k];
    }
    assert t[0] == p;
  }

  /** `p` is the first profile of its name in `s`, at position `i` or later. */
  predicate FirstOfName(s: seq<Profile>, p: Profile, i: nat) {
    i <= FindIndex(s, p.name) && s[FindIndex(s, p.name)] == p
  }

  lemma {:induction false} KeepFirstFromFirsts(s: seq<Profile>, i: nat)
    requires i <= |s|
    ensures forall k :: 0 <= k < |KeepFirstFrom(s, i)| ==> FirstOfName(s, KeepFirstFrom(s, i)[k], i)
    decreases |s| - i
  {
    if i < |s| {
      KeepFirstFromFirsts(s, i + 1);
      var tail := KeepFirstFrom(s, i + 1);
      var r := KeepFirstFrom(s, i);
      if FindIndex(s, s[i].name) == i {
        assert r == [s[i]] + tail;
        forall k | 0 <= k < |r| ensures FirstOfName(s, r[k], i) {
          if k > 0 {
            assert r[k] == tail[k - 1];
            assert FirstOfName(s, tail[k - 1], i + 1);
          }
        }
      } else {
        assert r == tail;
        forall k | 0 <= k < |r| ensures FirstOfName(s, r[k], i) {
          assert FirstOfName(s, tail[k], i + 1);
        }
      }
    }
  }

  /** The profiles of `r` appear in the order of their names' first
      positions in `s`. */
  ghost predicate InFirstOrder(s: seq<Profile>, r: seq<Profile>) {
    forall a, b :: 0 <= a < b < |r| ==> FindIndex(s, r[a].name) < FindIndex(s, r[b].name)
  }

  lemma {:induction false} KeepFirstFromOrder(s: seq<Profile>, i: nat)
    requires i <= |s|
    ensures InFirstOrder(s, KeepFirstFrom(s, i))
    decreases |s| - i
  {
    if i < |s| {
      KeepFirstFromOrder(s, i + 1);
      KeepFirstFromFirsts(s, i + 1);
      var tail := KeepFirstFrom(s, i + 1);
      if FindIndex(s, s[i].name) == i {
        assert KeepFirstFrom(s, i) == [s[i]] + tail;
        FirstsAfter(s, i, tail);
        FirstOrderCons(s, s[i], tail);
      } else {
        assert KeepFirstFrom(s, i) == tail;
      }
    }
  }

  /** The first occurrence at `i` goes in front of firsts found after `i`. */
  lemma FirstOrderCons(s: seq<Profile>, x: Profile, tail: seq<Profile>)
    requires InFirstOrder(s, tail)
    requires forall k :: 0 <= k < |tail| ==> FindIndex(s, x.name) < FindIndex(s, tail[k].name)
    ensures InFirstOrder(s, [x] + tail)
  {
    var r := [x] + tail;
    forall a, b | 0 <= a < b < |r| ensures FindIndex(s, r[a].name) < FindIndex(s, r[b].name) {
      assert r[b] == tail[b - 1];
      if a > 0 {
        assert r[a] == tail[a - 1];
      }
    }
  }

  lemma FirstsAfter(s: seq<Profile>, i: nat, tail: seq<Profile>)
    requires forall k :: 0 <= k < |tail| ==> FirstOfName(s, tail[k], i + 1)
    ensures forall k :: 0 <= k < |tail| ==> i < FindIndex(s, tail[k].name)
  {
    forall k | 0 <= k < |tail| ensures i < FindIndex(s, tail[k].name) {
      assert FirstOfName(s, tail[k], i + 1);
    }
  }

  lemma {:induction false} KeepFirstFromCovers(s: seq<Profile>, i: nat)
    requires i <= |s|
    ensures forall j :: i <= j < |s| && FindIndex(s, s[j].name) >= i ==> s[j].name in Names(KeepFirstFrom(s, i))
    decreases |s| - i
  {
    if i < |s| {
      KeepFirstFromCovers(s, i + 1);
      var tail := KeepFirstFrom(s, i + 1);
      var r := KeepFirstFrom(s, i);
      var first := FindIndex(s, s[i].name) == i;
      if first {
        assert r == [s[i]] + tail;
        NamesCons(s[i], tail);
      } else {
        assert r == tail;
      }
      forall j | i <= j < |s| && FindIndex(s, s[j].name) >= i
        ensures s[j].name in Names(r)
      {
        if FindIndex(s, s[j].name) == i {
          assert s[i].name == s[j].name;
          assert first;
        } else {
          assert s[j].name in Names(tail);
        }
      }
    }
  }

  /** No two profiles `saveAllSecret` writes share a name. */
  lemma KeepFirstUnique(s: seq<Profile>)
    ensures UniqueNames(KeepFirst(s))
  {
    KeepFirstFromOrder(s, 0);
  }

  /** Every name of the input is written, and only those. */
  lemma KeepFirstNames(s: seq<Profile>)
    ensures Names(KeepFirst(s)) == Names(s)
  {
    KeepFirstFromFirsts(s, 0);
    KeepFirstFromCovers(s, 0);
    var r := KeepFirst(s);
    forall n | n in Names(r) ensures n in Names(s) {
      var k :| 0 <= k < |r| && r[k].name == n;
      assert FirstOfName(s, r[k], 0);
    }
  }

  /** The profile written for a name is the first one with that name, and
      the written profiles keep the input's order. */
  lemma KeepFirstKeepsFirsts(s: seq<Profile>)
    ensures forall k :: 0 <= k < |KeepFirst(s)| ==> FirstOfName(s, KeepFirst(s)[k], 0)
    ensures InFirstOrder(s, KeepFirst(s))
  {
    KeepFirstFromFirsts(s, 0);
    KeepFirstFromOrder(s, 0);
  }

  /** A list without repeated names is written as it is. */
  lemma {:induction false} KeepFirstOfUnique(s: seq<Profile>, i: nat)
    requires UniqueNames(s) && i <= |s|
    ensures KeepFirstFrom(s, i) == s[i..]
    decreases |s| - i
  {
    if i < |s| {
      KeepFirstOfUnique(s, i + 1);
      assert FindIndex(s, s[i].name) == i;
      assert s[i..] == [s[i]] + s[i + 1..];
    }
  }

  // ---------------------------------------------------------------------------
  // The handlers, on values

  /** `authMeta.filter(i => i.name !== name)` */
  function Without(s: seq<Profile>, name: Scalar): (r: seq<Profile>)
    ensures forall k :: 0 <= k < |r| ==> r[k] in s && r[k].name != name
    ensures forall k :: 0 <= k < |s| && s[k].name != name ==> s[k] in r
    ensures Names(r) == Names(s) - {name}
  {
    if s == [] then []
    else
      var tail := Without(s[1..], name);
      NamesCons(s[0], s[1..]);
      assert s == [s[0]] + s[1..];
      if s[0].name != name then
        NamesCons(s[0], tail);
        [s[0]] + tail
      else tail
  }

  lemma {:induction false} WithoutKeepsUnique(s: seq<Profile>, name: Scalar)
    requires UniqueNames(s)
    ensures UniqueNames(Without(s, name))
  {
    if s != [] {
      WithoutKeepsUnique(s[1..], name);
      var tail := Without(s[1..], name);
      forall k | 0 <= k < |tail| ensures tail[k].name != s[0].name {
        var j :| 0 <= j < |s[1..]| && s[1..][j] == tail[k];
        assert s[j + 1] == tail[k];
      }
    }
  }

  /** The entry `saveSecret` pushes. */
  function Entry(name: Scalar, params: Profile): Profile {
    Profile(Or(name, DefaultName(params.host, params.port)), params.host, params.port,
            params.tls, params.password, params.caPem)
  }

  /** The last element of a non-empty list, or an empty profile. */
  function Last(s: seq<Profile>): Profile {
    if s == [] then Profile(Undefined, Undefined, Undefined, Undefined, Undefined, Undefined)
    else s[|s| - 1]
  }

  /** What a handler leaves behind: its outcome, `authMeta`, and the list
      last written to the file. */
  datatype StoreState = StoreState(outcome: Outcome, authMeta: seq<Profile>, written: seq<Profile>)

  /** `save-yakit-remote-auth`: write `authMeta` without that name, reload,
      then `saveSecret`, which throws on an empty host or port. */
  function AfterSave(meta: seq<Profile>, params: Profile): StoreState {
    var name := Or(params.name, DefaultName(params.host, params.port));
    var first := KeepFirst(Without(meta, name));
    var reloaded := LoadProfiles(first);
    if !HasEndpoint(params) then StoreState(Threw(EmptyEndpointError), reloaded, first)
    else
      var pushed := reloaded + [Entry(name, params)];
      StoreState(Done, pushed, KeepFirst(pushed))
  }

  /** `remove-yakit-remote-auth`: write `authMeta` without that name, reload. */
  function AfterRemove(meta: seq<Profile>, name: Scalar): StoreState {
    var written := KeepFirst(Without(meta, name));
    StoreState(Done, LoadProfiles(written), written)
  }

  function SavedName(params: Profile): Scalar {
    Or(params.name, DefaultName(params.host, params.port))
  }

  /** Every profile a handler writes back came from `authMeta`. */
  lemma KeptAdmissible(meta: seq<Profile>, name: Scalar)
    requires forall k :: 0 <= k < |meta| ==> Admissible(meta[k])
    ensures forall k :: 0 <= k < |KeepFirst(Without(meta, name))| ==> Admissible(KeepFirst(Without(meta, name))[k])
  {
    var without := Without(meta, name);
    var first := KeepFirst(without);
    KeepFirstKeepsFirsts(without);
    forall k | 0 <= k < |first| ensures Admissible(first[k]) {
      var j := FindIndex(without, first[k].name);
      assert without[j] in meta;
      var m :| 0 <= m < |meta| && meta[m] == without[j];
    }
  }

  /** Appending a profile whose name is new keeps the names unique, so
      `saveAllSecret` writes the list as it is. */
  lemma PushNewName(s: seq<Profile>, e: Profile)
    requires UniqueNames(s) && e.name !in Names(s)
    ensures UniqueNames(s + [e])
    ensures KeepFirst(s + [e]) == s + [e]
    ensures Names(s + [e]) == Names(s) + {e.name}
  {
    var t := s + [e];
    forall i, j | 0 <= i < j < |t| ensures t[i].name != t[j].name {
      if j == |t| - 1 {
        assert t[i] == s[i];
      }
    }
    KeepFirstOfUnique(t, 0);
    assert t[0..] == t;
    forall n | n in Names(t) ensures n in Names(s) + {e.name} {
      var k :| 0 <= k < |t| && t[k].name == n;
      if k < |s| {
        assert s[k] == t[k];
      }
    }
    forall n | n in Names(s) ensures n in Names(t) {
      var k :| 0 <= k < |s| && s[k].name == n;
      assert t[k] == s[k];
    }
    assert t[|s|] == e;
  }

  /** The list a save rewrites and reloads before pushing: unique names,
      every name of `authMeta` but the saved one. */
  lemma SaveReloaded(meta: seq<Profile>, name: Scalar)
    requires forall k :: 0 <= k < |meta| ==> Admissible(meta[k])
    ensures UniqueNames(LoadProfiles(KeepFirst(Without(meta, name))))
    ensures Names(LoadProfiles(KeepFirst(Without(meta, name)))) == Names(meta) - {name}
  {
    var without := Without(meta, name);
    KeepFirstUnique(without);
    KeepFirstNames(without);
    KeptAdmissible(meta, name);
    LoadAdmissibleNames(KeepFirst(without));
  }

  /** A successful save leaves exactly one profile under the saved name,
      carrying the new fields, as the last element, and keeps every other
      name that `authMeta` held. */
  lemma SaveLeavesOneProfile(meta: seq<Profile>, params: Profile)
    requires forall k :: 0 <= k < |meta| ==> Admissible(meta[k])
    requires HasEndpoint(params)
    ensures AfterSave(meta, params).outcome == Done
    ensures UniqueNames(AfterSave(meta, params).written)
    ensures AfterSave(meta, params).written == AfterSave(meta, params).authMeta
    ensures Last(AfterSave(meta, params).written)
              == Profile(SavedName(params), params.host, params.port, params.tls, params.password, params.caPem)
    ensures Names(AfterSave(meta, params).written) == Names(meta) + {SavedName(params)}
  {
    var name := SavedName(params);
    SaveReloaded(meta, name);
    var reloaded := LoadProfiles(KeepFirst(Without(meta, name)));
    OrTruthy(params.name, DefaultName(params.host, params.port));
    OrTruthy(name, DefaultName(params.host, params.port));
    var e := Entry(name, params);
    PushNewName(reloaded, e);
  }

  /** Every entry a save leaves in `authMeta` is admissible. */
  lemma SaveKeepsAdmissible(meta: seq<Profile>, params: Profile)
    ensures forall k :: 0 <= k < |AfterSave(meta, params).authMeta| ==> Admissible(AfterSave(meta, params).authMeta[k])
  {
    OrTruthy(params.name, DefaultName(params.host, params.port));
    OrTruthy(SavedName(params), DefaultName(params.host, params.port));
  }

  /** Saving twice under one name keeps only the second save's fields. */
  lemma SaveTwiceKeepsSecond(meta: seq<Profile>, p1: Profile, p2: Profile)
    requires forall k :: 0 <= k < |meta| ==> Admissible(meta[k])
    requires HasEndpoint(p1) && HasEndpoint(p2)
    requires SavedName(p1) == SavedName(p2)
    ensures var w := AfterSave(AfterSave(meta, p1).authMeta, p2).written;
            forall k :: 0 <= k < |w| && w[k].name == SavedName(p2) ==>
              w[k] == Profile(SavedName(p2), p2.host, p2.port, p2.tls, p2.password, p2.caPem)
  {
    var mid := AfterSave(meta, p1).authMeta;
    SaveKeepsAdmissible(meta, p1);
    SaveLeavesOneProfile(mid, p2);
    var w := AfterSave(mid, p2).written;
    forall k | 0 <= k < |w| && w[k].name == SavedName(p2)
      ensures w[k] == Profile(SavedName(p2), p2.host, p2.port, p2.tls, p2.password, p2.caPem)
    {
      assert Last(w) == w[|w| - 1];
    }
  }

  /** A save that throws has already rewritten the file without the profile
      of that name. */
  lemma FailedSaveStillRemoves(meta: seq<Profile>, params: Profile)
    requires forall k :: 0 <= k < |meta| ==> Admissible(meta[k])
    requires !HasEndpoint(params)
    ensures var st := AfterSave(meta, params);
            && st.outcome == Threw(EmptyEndpointError)
            && SavedName(params) !in Names(st.written)
            && SavedName(params) !in Names(st.authMeta)
  {
    var name := SavedName(params);
    var without := Without(meta, name);
    KeepFirstNames(without);
    var first := KeepFirst(without);
    KeptAdmissible(meta, name);
    LoadAdmissibleNames(first);
  }

  /** Removing a name leaves no profile of that name and every other name. */
  lemma RemoveDropsOnlyThatName(meta: seq<Profile>, name: Scalar)
    requires forall k :: 0 <= k < |meta| ==> Admissible(meta[k])
    ensures name !in Names(AfterRemove(meta, name).written)
    ensures Names(AfterRemove(meta, name).written) == Names(meta) - {name}
    ensures Names(AfterRemove(meta, name).authMeta) == Names(meta) - {name}
  {
    var without := Without(meta, name);
    KeepFirstNames(without);
    KeptAdmissible(meta, name);
    LoadAdmissibleNames(KeepFirst(without));
  }

  /** When `authMeta` has no repeated names, removing a name writes
      `authMeta` minus that profile, in its original order. */
  lemma RemoveKeepsOrder(meta: seq<Profile>, name: Scalar)
    requires UniqueNames(meta)
    ensures AfterRemove(meta, name).written == Without(meta, name)
  {
    var without := Without(meta, name);
    WithoutKeepsUnique(meta, name);
    KeepFirstOfUnique(without, 0);
    assert without[0..] == without;
  }

  // ---------------------------------------------------------------------------
  // The store

  class SecretStore {
    /** `authMeta` */
    var authMeta: seq<Profile>
    /** `yakit-remote.json` */
    var file: Disk<Profile>

    ghost predicate Valid()
      reads this
    {
      forall k :: 0 <= k < |authMeta| ==> Admissible(authMeta[k])
    }

    /** Module start-up, which runs `loadSecrets()` once. */
    constructor (disk: Disk<Profile>)
      ensures Valid()
      ensures file == disk && authMeta == LoadFile(disk)
    {
      file := disk;
      authMeta := [];
      new;
      LoadSecrets();
    }

    /** `loadSecrets`: empties `authMeta`, then pushes every file element with
        a truthy host and port, normalised; an unreadable file leaves it
        empty. */
    method LoadSecrets()
      modifies this`authMeta
      ensures Valid()
      ensures authMeta == LoadFile(file)
    {
      authMeta := [];
      match file
      case Unreadable =>
      case Stored(recs) =>
        for i := 0 to |recs|
          invariant authMeta == LoadProfiles(recs[..i])
        {
          LoadProfilesSnoc(recs, i);
          if HasEndpoint(recs[i]) {
            authMeta := authMeta + [Normalize(recs[i])];
          } else {
            assert authMeta + [] == authMeta;
          }
        }
        assert recs[..|recs|] == recs;
    }

    /** `saveAllSecret`: rewrites the file with the first profile of every
        name. */
    method SaveAllSecret(infos: seq<Profile>)
      modifies this`file
      ensures file == Stored(KeepFirst(infos))
    {
      file := Stored(KeepFirst(infos));
    }

    /** `saveSecret`: throws on an empty host or port; otherwise pushes the
        profile onto `authMeta` and saves all of it. */
    method SaveSecret(name: Scalar, params: Profile) returns (r: Outcome)
      requires Valid()
      modifies this
      ensures Valid()
      ensures !HasEndpoint(params) ==> r == Threw(EmptyEndpointError) && unchanged(this)
      ensures HasEndpoint(params) ==>
                && r == Done
                && authMeta == old(authMeta) + [Entry(name, params)]
                && file == Stored(KeepFirst(authMeta))
    {
      if !HasEndpoint(params) {
        return Threw(EmptyEndpointError);
      }
      OrTruthy(name, DefaultName(params.host, params.port));
      authMeta := authMeta + [Entry(name, params)];
      SaveAllSecret(authMeta);
      r := Done;
    }

    /** The `save-yakit-remote-auth` handler. */
    method SaveRemoteAuth(params: Profile) returns (r: Outcome)
      requires Valid()
      modifies this
      ensures Valid()
      ensures var st := AfterSave(old(authMeta), params);
              r == st.outcome && authMeta == st.authMeta && file == Stored(st.written)
    {
      var name := Or(params.name, DefaultName(params.host, params.port));
      SaveAllSecret(Without(authMeta, name));
      LoadSecrets();
      r := SaveSecret(name, params);
      assert Entry(name, params) == Entry(params.name, params);
    }

    /** The `remove-yakit-remote-auth` handler. */
    method RemoveRemoteAuth(name: Scalar)
      requires Valid()
      modifies this
      ensures Valid()
      ensures var st := AfterRemove(old(authMeta), name);
              authMeta == st.authMeta && file == Stored(st.written)
    {
      SaveAllSecret(Without(authMeta, name));
      LoadSecrets();
    }

    /** The `get-yakit-remote-auth-all` handler. */
    method GetRemoteAuthAll() returns (r: seq<Profile>)
      modifies this`authMeta
      ensures Valid()
      ensures r == authMeta == LoadFile(file)
    {
      LoadSecrets();
      r := authMeta;
    }
  }
}
