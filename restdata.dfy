/**
 * The REST view of the application master (RestData.java): a registry of
 * the placed reservations it has observed, three secondary indexes that list
 * them by client handle, by queue and by node, the registered clients, and
 * the summaries and cross references the view serves.  An index list holds
 * the reservation values themselves, and a reservation equals another when
 * their reservation ids are equal.
 */
module Rest {

  import opened Common
  import opened LlamaApi
  import PyStr

  /**
   * The part of an observed placed reservation that the view indexes: its
   * id, client handle, queue, status, and the location of each of its
   * resources, in order.
   */
  datatype Snapshot = Snapshot(id: Uuid, handle: Uuid, queue: string, status: ReservationStatus, locations: seq<string>)

  /** A registered client: ClientInfo's client id, handle and callback address. */
  datatype ClientInfo = ClientInfo(clientId: Uuid, handle: Uuid, callbackAddress: string)

  const REST_VERSION_VALUE: string := "1.0.0"
  const SUMMARY_DATA: string := "summaryData"
  const ALL_DATA: string := "allData"
  const RESERVATION_DATA: string := "reservationData"
  const QUEUE_DATA: string := "queueData"
  const HANDLE_DATA: string := "handleData"
  const NODE_DATA: string := "nodeData"
  const QUEUE: string := "queue"
  const NODE: string := "node"

  // ---------------------------------------------------------------------------
  // Index lists
  // ---------------------------------------------------------------------------

  /** The number of elements of `list` equal to a reservation with id `id`. */
  function Occ(list: seq<Snapshot>, id: Uuid): (n: nat)
    ensures n <= |list|
    ensures n > 0 <==> exists i :: 0 <= i < |list| && list[i].id == id
  {
    if list == [] then 0
    else (if list[0].id == id then 1 else 0) + Occ(list[1..], id)
  }

  lemma {:induction false} OccConcat(a: seq<Snapshot>, b: seq<Snapshot>, id: Uuid)
    ensures Occ(a + b, id) == Occ(a, id) + Occ(b, id)
  {
    if a != [] {
      assert (a + b)[0] == a[0] && (a + b)[1..] == a[1..] + b;
      assert Occ(a + b, id) == (if a[0].id == id then 1 else 0) + Occ(a[1..] + b, id);
      OccConcat(a[1..], b, id);
    } else {
      assert a + b == b;
    }
  }

  lemma OccMember(list: seq<Snapshot>, e: Snapshot)
    requires e in list
    ensures Occ(list, e.id) > 0
  {
    var i :| 0 <= i < |list| && list[i] == e;
  }

  /** indexOf: the first position of an element equal to a reservation with id `id`, or -1. */
  function IndexOf(list: seq<Snapshot>, id: Uuid): (i: int)
    ensures -1 <= i < |list|
    ensures i >= 0 ==> list[i].id == id && forall j :: 0 <= j < i ==> list[j].id != id
    ensures i == -1 <==> Occ(list, id) == 0
  {
    if list == [] then -1
    else if list[0].id == id then 0
    else
      var r := IndexOf(list[1..], id);
      if r == -1 then -1 else r + 1
  }

  /** The list without its element at `i` (List.remove(int)), with one reservation fewer of that id. */
  lemma RemoveAtOcc(list: seq<Snapshot>, i: int, id: Uuid)
    requires 0 <= i < |list|
    ensures Occ(list[..i] + list[i + 1..], id) == Occ(list, id) - (if list[i].id == id then 1 else 0)
  {
    assert list == list[..i] + ([list[i]] + list[i + 1..]);
    OccConcat(list[..i], [list[i]] + list[i + 1..], id);
    OccConcat([list[i]], list[i + 1..], id);
    OccConcat(list[..i], list[i + 1..], id);
    assert Occ([list[i]], id) == (if list[i].id == id then 1 else 0) by {
      assert [list[i]][1..] == [];
    }
  }

  /** Every element equal to `v` replaced by `v`. */
  function ReplaceEvery(list: seq<Snapshot>, v: Snapshot): (r: seq<Snapshot>)
    ensures |r| == |list|
    ensures forall i :: 0 <= i < |list| ==> r[i] == (if list[i].id == v.id then v else list[i])
  {
    if list == [] then []
    else [if list[0].id == v.id then v else list[0]] + ReplaceEvery(list[1..], v)
  }

  lemma {:induction false} ReplaceEveryOcc(list: seq<Snapshot>, v: Snapshot, id: Uuid)
    ensures Occ(ReplaceEvery(list, v), id) == Occ(list, id)
  {
    if list != [] {
      var r := ReplaceEvery(list, v);
      assert r[1..] == ReplaceEvery(list[1..], v);
      ReplaceEveryOcc(list[1..], v, id);
    }
  }

  /** List.set(indexOf(v), v): only the first element equal to `v` is replaced. */
  function ReplaceFirst(list: seq<Snapshot>, v: Snapshot): (r: seq<Snapshot>)
    ensures |r| == |list|
  {
    var i := IndexOf(list, v.id);
    if i >= 0 then list[i := v] else list
  }

  /** Only the first element with the id of `v` becomes `v`; every other element stays. */
  lemma ReplaceFirstOnlyFirst(list: seq<Snapshot>, v: Snapshot)
    ensures forall i :: 0 <= i < |list| ==>
      ReplaceFirst(list, v)[i] == (if list[i].id == v.id && forall j :: 0 <= j < i ==> list[j].id != v.id then v else list[i])
  {
    var k := IndexOf(list, v.id);
    forall i | 0 <= i < |list|
      ensures ReplaceFirst(list, v)[i] == (if list[i].id == v.id && forall j :: 0 <= j < i ==> list[j].id != v.id then v else list[i])
    {
      if k >= 0 && i > k {
        assert list[k].id == v.id;
      }
    }
  }

  // ---------------------------------------------------------------------------
  // Index maps: one list per key
  // ---------------------------------------------------------------------------

  /** The list of `key`, the empty list when the key is absent. */
  function ListOf<K(!new)>(m: map<K, seq<Snapshot>>, key: K): seq<Snapshot>
  {
    if key in m then m[key] else []
  }

  /** No key of an index maps to an empty list. */
  predicate NoEmptyList<K(!new)>(m: map<K, seq<Snapshot>>)
  {
    forall k :: k in m ==> m[k] != []
  }

  /** addToMapList: `v` appended to the list of `key`, which is created when absent. */
  function AddToMapList<K(!new)>(m: map<K, seq<Snapshot>>, key: K, v: Snapshot): (r: map<K, seq<Snapshot>>)
    ensures r.Keys == m.Keys + {key}
    ensures NoEmptyList(m) ==> NoEmptyList(r)
  {
    m[key := ListOf(m, key) + [v]]
  }

  /**
   * updateToMapList, corrected: every element of the list of `key` that
   * equals `v` is replaced by `v`; a missing key or element changes nothing.
   */
  function UpdateToMapList<K(!new)>(m: map<K, seq<Snapshot>>, key: K, v: Snapshot): (r: map<K, seq<Snapshot>>)
    ensures r.Keys == m.Keys
    ensures NoEmptyList(m) ==> NoEmptyList(r)
    ensures forall k :: k in m && k != key ==> r[k] == m[k]
    ensures key in m ==> |r[key]| == |m[key]|
    ensures key in m ==> forall i :: 0 <= i < |m[key]| ==>
      r[key][i] == (if m[key][i].id == v.id then v else m[key][i])
  {
    if key in m then m[key := ReplaceEvery(m[key], v)] else m
  }

  /** updateToMapList as written: only the first element equal to `v` is replaced. */
  function UpdateToMapListAsWritten<K(!new)>(m: map<K, seq<Snapshot>>, key: K, v: Snapshot): (r: map<K, seq<Snapshot>>)
    ensures r.Keys == m.Keys
    ensures forall k :: k in m && k != key ==> r[k] == m[k]
    ensures key in m ==> r[key] == ReplaceFirst(m[key], v)
  {
    if key in m then m[key := ReplaceFirst(m[key], v)] else m
  }

  /**
   * deleteFromMapList: the first element of the list of `key` equal to `v`
   * is removed, and the key is removed when its list becomes empty; a
   * missing key or element removes nothing.
   */
  function DeleteFromMapList<K(!new)>(m: map<K, seq<Snapshot>>, key: K, v: Snapshot): (r: map<K, seq<Snapshot>>)
    ensures r.Keys <= m.Keys && forall k :: k in m && k !in r ==> k == key
    ensures NoEmptyList(m) ==> NoEmptyList(r)
  {
    if key !in m then m
    else
      var i := IndexOf(m[key], v.id);
      var list := if i >= 0 then m[key][..i] + m[key][i + 1..] else m[key];
      if list == [] then m - {key} else m[key := list]
  }

  /** The add loop: `v` appended under each key of `keys`, in order (one per resource for the node index). */
  function AddAt<K(!new)>(m: map<K, seq<Snapshot>>, keys: seq<K>, v: Snapshot): map<K, seq<Snapshot>>
    decreases |keys|
  {
    if keys == [] then m else AddAt(AddToMapList(m, keys[0], v), keys[1..], v)
  }

  /** The update loop, corrected. */
  function UpdateAt<K(!new)>(m: map<K, seq<Snapshot>>, keys: seq<K>, v: Snapshot): map<K, seq<Snapshot>>
    decreases |keys|
  {
    if keys == [] then m else UpdateAt(UpdateToMapList(m, keys[0], v), keys[1..], v)
  }

  /** The update loop as written. */
  function UpdateAtAsWritten<K(!new)>(m: map<K, seq<Snapshot>>, keys: seq<K>, v: Snapshot): map<K, seq<Snapshot>>
    decreases |keys|
  {
    if keys == [] then m else UpdateAtAsWritten(UpdateToMapListAsWritten(m, keys[0], v), keys[1..], v)
  }

  /** The delete loop. */
  function DeleteAt<K(!new)>(m: map<K, seq<Snapshot>>, keys: seq<K>, v: Snapshot): map<K, seq<Snapshot>>
    decreases |keys|
  {
    if keys == [] then m else DeleteAt(DeleteFromMapList(m, keys[0], v), keys[1..], v)
  }

  /** One append: one more `v` under `k`. */
  lemma AddStep<K(!new)>(m: map<K, seq<Snapshot>>, k: K, v: Snapshot)
    requires NoEmptyList(m)
    ensures NoEmptyList(AddToMapList(m, k, v))
    ensures forall n, id :: Occ(ListOf(AddToMapList(m, k, v), n), id)
                            == Occ(ListOf(m, n), id) + (if id == v.id && n == k then 1 else 0)
    ensures forall n, e :: e in ListOf(AddToMapList(m, k, v), n) ==> e in ListOf(m, n) || e == v
  {
    var m1 := AddToMapList(m, k, v);
    forall n, id
      ensures Occ(ListOf(m1, n), id) == Occ(ListOf(m, n), id) + (if id == v.id && n == k then 1 else 0)
    {
      if n == k {
        OccConcat(ListOf(m, n), [v], id);
        assert Occ([v], id) == (if id == v.id then 1 else 0) by { assert [v][1..] == []; }
      }
    }
  }

  /** One corrected update: counts kept, the elements equal to `v` under `k` are `v`. */
  lemma UpdateStep<K(!new)>(m: map<K, seq<Snapshot>>, k: K, v: Snapshot)
    requires NoEmptyList(m)
    ensures NoEmptyList(UpdateToMapList(m, k, v))
    ensures forall n, id :: Occ(ListOf(UpdateToMapList(m, k, v), n), id) == Occ(ListOf(m, n), id)
    ensures forall n, e :: e in ListOf(UpdateToMapList(m, k, v), n) ==> e == v || e in ListOf(m, n)
    ensures forall e :: e in ListOf(UpdateToMapList(m, k, v), k) && e.id == v.id ==> e == v
  {
    var m1 := UpdateToMapList(m, k, v);
    forall n, id
      ensures Occ(ListOf(m1, n), id) == Occ(ListOf(m, n), id)
    {
      if n == k && n in m {
        ReplaceEveryOcc(m[n], v, id);
      }
    }
    forall n: K, e: Snapshot | e in ListOf(UpdateToMapList(m, k, v), n)
      ensures e == v || (e in ListOf(m, n) && (n == k ==> e.id != v.id))
    {
      if n == k && n in m {
        var i :| 0 <= i < |m1[n]| && m1[n][i] == e;
        if m[n][i].id != v.id {
          assert e == m[n][i];
          assert m[n][i] in m[n];
          assert e in ListOf(m, n);
          assert e.id != v.id;
        } else {
          assert e == v;
        }
      } else {
        assert ListOf(UpdateToMapList(m, k, v), n) == ListOf(m, n);
        assert e in ListOf(m, n);
      }
    }
  }

  /** An element of a sequence with one position removed is an element of the sequence. */
  lemma InRemoved<T>(s: seq<T>, i: int, e: T)
    requires 0 <= i < |s| && e in s[..i] + s[i + 1..]
    ensures e in s
  {
    var j :| 0 <= j < |s| - 1 && (s[..i] + s[i + 1..])[j] == e;
    if j < i {
      assert s[j] == e;
    } else {
      assert s[j + 1] == e;
    }
  }

  /** Deleting under `k` leaves every other key's list as it was. */
  lemma DeleteElsewhere<K(!new)>(m: map<K, seq<Snapshot>>, k: K, v: Snapshot, n: K)
    requires n != k
    ensures ListOf(DeleteFromMapList(m, k, v), n) == ListOf(m, n)
  {
  }

  /** Deleting under `k` removes the element at the first position holding `v`'s id. */
  lemma DeleteHere<K(!new)>(m: map<K, seq<Snapshot>>, k: K, v: Snapshot)
    requires Occ(ListOf(m, k), v.id) >= 1
    ensures k in m && 0 <= IndexOf(m[k], v.id)
    ensures var i := IndexOf(m[k], v.id);
            ListOf(DeleteFromMapList(m, k, v), k) == m[k][..i] + m[k][i + 1..]
  {
  }

  /** One delete of an element that is there: one `v` fewer under `k`. */
  lemma DeleteStep<K(!new)>(m: map<K, seq<Snapshot>>, k: K, v: Snapshot)
    requires NoEmptyList(m) && Occ(ListOf(m, k), v.id) >= 1
    ensures NoEmptyList(DeleteFromMapList(m, k, v))
    ensures forall k' :: k' in m && k' !in DeleteFromMapList(m, k, v) ==> k' == k
    ensures forall n, id :: Occ(ListOf(DeleteFromMapList(m, k, v), n), id)
                            == Occ(ListOf(m, n), id) - (if id == v.id && n == k then 1 else 0)
    ensures forall n, e :: e in ListOf(DeleteFromMapList(m, k, v), n) ==> e in ListOf(m, n)
  {
    var m1 := DeleteFromMapList(m, k, v);
    DeleteHere(m, k, v);
    var i := IndexOf(m[k], v.id);
    forall n, id
      ensures Occ(ListOf(m1, n), id) == Occ(ListOf(m, n), id) - (if id == v.id && n == k then 1 else 0)
    {
      if n == k {
        RemoveAtOcc(m[k], i, id);
      } else {
        DeleteElsewhere(m, k, v, n);
      }
    }
    forall n, e | e in ListOf(m1, n)
      ensures e in ListOf(m, n)
    {
      if n == k {
        InRemoved(m[k], i, e);
      } else {
        DeleteElsewhere(m, k, v, n);
      }
    }
  }

  /**
   * Adding under `keys` puts `v` once more under each key per occurrence of
   * the key in `keys`, and nothing else; no list is empty and every other
   * element stays.
   */
  lemma {:induction false} AddAtEffect<K(!new)>(m: map<K, seq<Snapshot>>, keys: seq<K>, v: Snapshot)
    requires NoEmptyList(m)
    ensures NoEmptyList(AddAt(m, keys, v))
    ensures forall k :: k in AddAt(m, keys, v) <==> k in m || k in keys
    ensures forall n, id :: Occ(ListOf(AddAt(m, keys, v), n), id)
                            == Occ(ListOf(m, n), id) + (if id == v.id then multiset(keys)[n] else 0)
    ensures forall n, e :: e in ListOf(AddAt(m, keys, v), n) ==> e in ListOf(m, n) || e == v
    decreases |keys|
  {
    if keys != [] {
      AddStep(m, keys[0], v);
      AddAtEffect(AddToMapList(m, keys[0], v), keys[1..], v);
      assert keys == [keys[0]] + keys[1..];
      assert multiset(keys) == multiset{keys[0]} + multiset(keys[1..]);
    }
  }

  /**
   * The corrected update keeps every key and every count; under a key of
   * `keys` each element equal to `v` is now `v`, and under any other key the
   * list is unchanged.
   */
  lemma {:induction false} UpdateAtEffect<K(!new)>(m: map<K, seq<Snapshot>>, keys: seq<K>, v: Snapshot)
    requires NoEmptyList(m)
    ensures NoEmptyList(UpdateAt(m, keys, v))
    ensures UpdateAt(m, keys, v).Keys == m.Keys
    ensures forall n, id :: Occ(ListOf(UpdateAt(m, keys, v), n), id) == Occ(ListOf(m, n), id)
    ensures forall n, e :: e in ListOf(UpdateAt(m, keys, v), n) ==> e == v || e in ListOf(m, n)
    ensures forall n, e :: n in keys && e in ListOf(UpdateAt(m, keys, v), n) && e.id == v.id ==> e == v
    decreases |keys|
  {
    if keys != [] {
      var m1 := UpdateToMapList(m, keys[0], v);
      UpdateStep(m, keys[0], v);
      UpdateAtEffect(m1, keys[1..], v);
      assert UpdateAt(m, keys, v) == UpdateAt(m1, keys[1..], v);
      forall n, e: Snapshot | n in keys && e in ListOf(UpdateAt(m, keys, v), n) && e.id == v.id
        ensures e == v
      {
        assert n == keys[0] || n in keys[1..] by { assert keys == [keys[0]] + keys[1..]; }
      }
    }
  }

  /**
   * Deleting under `keys`, when each key holds at least as many elements
   * equal to `v` as it occurs in `keys`, takes exactly that many away; no
   * list is left empty, no key is added and no element appears.
   */
  lemma {:induction false} DeleteAtEffect<K(!new)>(m: map<K, seq<Snapshot>>, keys: seq<K>, v: Snapshot)
    requires NoEmptyList(m)
    requires forall n :: Occ(ListOf(m, n), v.id) >= multiset(keys)[n]
    ensures NoEmptyList(DeleteAt(m, keys, v))
    ensures forall k :: k in m && k !in DeleteAt(m, keys, v) ==> k in keys
    ensures forall n, id :: Occ(ListOf(DeleteAt(m, keys, v), n), id)
                            == Occ(ListOf(m, n), id) - (if id == v.id then multiset(keys)[n] else 0)
    ensures forall n, e :: e in ListOf(DeleteAt(m, keys, v), n) ==> e in ListOf(m, n)
    decreases |keys|
  {
    if keys != [] {
      assert keys == [keys[0]] + keys[1..];
      assert multiset(keys) == multiset{keys[0]} + multiset(keys[1..]);
      var m1 := DeleteFromMapList(m, keys[0], v);
      assert Occ(ListOf(m, keys[0]), v.id) >= 1;
      DeleteStep(m, keys[0], v);
      DeleteAtEffect(m1, keys[1..], v);
    }
  }

  /** Deleting a reservation no list holds changes nothing. */
  lemma {:induction false} DeleteAtAbsent<K(!new)>(m: map<K, seq<Snapshot>>, keys: seq<K>, v: Snapshot)
    requires NoEmptyList(m)
    requires forall n :: Occ(ListOf(m, n), v.id) == 0
    ensures DeleteAt(m, keys, v) == m
    decreases |keys|
  {
    if keys != [] {
      var k := keys[0];
      if k in m {
        assert Occ(ListOf(m, k), v.id) == 0;
        assert IndexOf(m[k], v.id) == -1;
        assert m[k := m[k]] == m;
      }
      assert DeleteFromMapList(m, k, v) == m;
      DeleteAtAbsent(m, keys[1..], v);
    }
  }

  /** Updating a reservation no list holds changes nothing (the inconsistency is only logged). */
  lemma {:induction false} UpdateAtAbsent<K(!new)>(m: map<K, seq<Snapshot>>, keys: seq<K>, v: Snapshot)
    requires forall n :: Occ(ListOf(m, n), v.id) == 0
    ensures UpdateAt(m, keys, v) == m
    decreases |keys|
  {
    if keys != [] {
      var k := keys[0];
      if k in m {
        assert Occ(ListOf(m, k), v.id) == 0;
        assert ReplaceEvery(m[k], v) == m[k];
        assert m[k := m[k]] == m;
      }
      assert UpdateToMapList(m, k, v) == m;
      UpdateAtAbsent(m, keys[1..], v);
    }
  }

  /**
   * A reservation observed for the first time as PARTIAL or ALLOCATED is
   * stored by update but was never added: no index changes.
   */
  lemma UpdateOfUnindexed<K(!new)>(m: map<K, seq<Snapshot>>, res: map<Uuid, Snapshot>, indexed: set<Uuid>,
                                   keysOf: Snapshot -> seq<K>, v: Snapshot)
    requires IndexOk(m, res, indexed, keysOf) && v.id !in indexed
    ensures UpdateAt(m, keysOf(v), v) == m
  {
    UpdateAtAbsent(m, keysOf(v), v);
  }

  // ---------------------------------------------------------------------------
  // What an index holds
  // ---------------------------------------------------------------------------

  function HandleKeys(s: Snapshot): seq<Uuid> { [s.handle] }
  function QueueKeys(s: Snapshot): seq<string> { [s.queue] }
  function NodeKeys(s: Snapshot): seq<string> { s.locations }

  /**
   * The index `m` lists each indexed reservation once per occurrence of a
   * key among its keys (`keysOf`), and nothing else.
   */
  ghost predicate Counts<K(!new)>(m: map<K, seq<Snapshot>>, res: map<Uuid, Snapshot>, indexed: set<Uuid>,
                            keysOf: Snapshot -> seq<K>)
    requires indexed <= res.Keys
  {
    forall n, id :: Occ(ListOf(m, n), id) == (if id in indexed then multiset(keysOf(res[id]))[n] else 0)
  }

  /** Every element of every list of `m` is the reservation stored under its id. */
  ghost predicate Current<K(!new)>(m: map<K, seq<Snapshot>>, res: map<Uuid, Snapshot>)
  {
    forall k, e :: k in m && e in m[k] ==> e.id in res && res[e.id] == e
  }

  /** The index part of the state. */
  ghost predicate IndexOk<K(!new)>(m: map<K, seq<Snapshot>>, res: map<Uuid, Snapshot>, indexed: set<Uuid>,
                             keysOf: Snapshot -> seq<K>)
  {
    indexed <= res.Keys && NoEmptyList(m) && Counts(m, res, indexed, keysOf) && Current(m, res)
  }

  /** An index that counts a new reservation once more per occurrence of each of its keys counts it as indexed. */
  lemma CountsAfterAdd<K(!new)>(m: map<K, seq<Snapshot>>, m1: map<K, seq<Snapshot>>, res: map<Uuid, Snapshot>,
                                indexed: set<Uuid>, keysOf: Snapshot -> seq<K>, v: Snapshot)
    requires indexed <= res.Keys && Counts(m, res, indexed, keysOf) && v.id !in res
    requires forall n, id :: Occ(ListOf(m1, n), id)
                             == Occ(ListOf(m, n), id) + (if id == v.id then multiset(keysOf(v))[n] else 0)
    ensures Counts(m1, res[v.id := v], indexed + {v.id}, keysOf)
  {
    var res1 := res[v.id := v];
    forall n, id
      ensures Occ(ListOf(m1, n), id) == (if id in indexed + {v.id} then multiset(keysOf(res1[id]))[n] else 0)
    {
      if id != v.id && id in indexed {
        assert res1[id] == res[id];
      }
    }
  }

  /** An index whose elements are those of `m` or the new reservation lists only stored reservations. */
  lemma CurrentAfterAdd<K(!new)>(m: map<K, seq<Snapshot>>, m1: map<K, seq<Snapshot>>, res: map<Uuid, Snapshot>,
                                 v: Snapshot)
    requires Current(m, res) && v.id !in res
    requires forall n, e :: e in ListOf(m1, n) ==> e in ListOf(m, n) || e == v
    ensures Current(m1, res[v.id := v])
  {
    forall k, e: Snapshot | k in m1 && e in m1[k]
      ensures e.id in res[v.id := v] && res[v.id := v][e.id] == e
    {
      assert e in ListOf(m1, k);
      if e != v {
        assert e in ListOf(m, k);
      }
    }
  }

  /** Adding a new reservation indexes it. */
  lemma IndexAfterAdd<K(!new)>(m: map<K, seq<Snapshot>>, res: map<Uuid, Snapshot>, indexed: set<Uuid>,
                         keysOf: Snapshot -> seq<K>, v: Snapshot)
    requires IndexOk(m, res, indexed, keysOf) && v.id !in res
    ensures IndexOk(AddAt(m, keysOf(v), v), res[v.id := v], indexed + {v.id}, keysOf)
  {
    var m1 := AddAt(m, keysOf(v), v);
    AddAtEffect(m, keysOf(v), v);
    CountsAfterAdd(m, m1, res, indexed, keysOf, v);
    CurrentAfterAdd(m, m1, res, v);
  }

  /** Updating a reservation whose keys did not change keeps the index exact and current. */
  lemma IndexAfterUpdate<K(!new)>(m: map<K, seq<Snapshot>>, res: map<Uuid, Snapshot>, indexed: set<Uuid>,
                            keysOf: Snapshot -> seq<K>, v: Snapshot)
    requires IndexOk(m, res, indexed, keysOf)
    requires v.id in indexed ==> keysOf(res[v.id]) == keysOf(v)
    ensures IndexOk(UpdateAt(m, keysOf(v), v), res[v.id := v], indexed, keysOf)
  {
    var m1 := UpdateAt(m, keysOf(v), v);
    var res1 := res[v.id := v];
    UpdateAtEffect(m, keysOf(v), v);
    forall k, e: Snapshot | k in m1 && e in m1[k]
      ensures e.id in res1 && res1[e.id] == e
    {
      if e != v {
        assert e in ListOf(m, k);
        OccMember(ListOf(m, k), e);
        assert multiset(keysOf(v))[k] > 0 ==> k in keysOf(v);
      }
    }
  }

  /** An index that counts a reservation once less per occurrence of each of its keys no longer counts it. */
  lemma CountsAfterDelete<K(!new)>(m: map<K, seq<Snapshot>>, m1: map<K, seq<Snapshot>>, res: map<Uuid, Snapshot>,
                                   indexed: set<Uuid>, res1: map<Uuid, Snapshot>, indexed1: set<Uuid>,
                                   keysOf: Snapshot -> seq<K>, v: Snapshot)
    requires indexed <= res.Keys && Counts(m, res, indexed, keysOf)
    requires v.id in indexed && keysOf(res[v.id]) == keysOf(v)
    requires indexed1 == indexed - {v.id} && indexed1 <= res1.Keys
    requires forall id :: id in indexed1 ==> res1[id] == res[id]
    requires forall n, id :: Occ(ListOf(m1, n), id)
                             == Occ(ListOf(m, n), id) - (if id == v.id then multiset(keysOf(v))[n] else 0)
    ensures Counts(m1, res1, indexed1, keysOf)
  {
    forall n, id
      ensures Occ(ListOf(m1, n), id) == (if id in indexed1 then multiset(keysOf(res1[id]))[n] else 0)
    {
      CountAfterDelete(Occ(ListOf(m, n), id), Occ(ListOf(m1, n), id), res, indexed, res1, indexed1, keysOf, v, n, id);
    }
    CountsIntro(m1, res1, indexed1, keysOf);
  }

  /** CountsAfterDelete at one key and one id. */
  lemma CountAfterDelete<K(!new)>(before: nat, after: nat, res: map<Uuid, Snapshot>, indexed: set<Uuid>,
                                  res1: map<Uuid, Snapshot>, indexed1: set<Uuid>, keysOf: Snapshot -> seq<K>,
                                  v: Snapshot, n: K, id: Uuid)
    requires indexed <= res.Keys && v.id in indexed && keysOf(res[v.id]) == keysOf(v)
    requires indexed1 == indexed - {v.id} && indexed1 <= res1.Keys
    requires id in indexed1 ==> res1[id] == res[id]
    requires before == (if id in indexed then multiset(keysOf(res[id]))[n] else 0)
    requires after == before - (if id == v.id then multiset(keysOf(v))[n] else 0)
    ensures after == (if id in indexed1 then multiset(keysOf(res1[id]))[n] else 0)
  {
  }

  lemma CountsIntro<K(!new)>(m: map<K, seq<Snapshot>>, res: map<Uuid, Snapshot>, indexed: set<Uuid>,
                             keysOf: Snapshot -> seq<K>)
    requires indexed <= res.Keys
    requires forall n, id :: Occ(ListOf(m, n), id) == (if id in indexed then multiset(keysOf(res[id]))[n] else 0)
    ensures Counts(m, res, indexed, keysOf)
  {
  }

  /** Deleting a reservation no list holds leaves the counts of the others. */
  lemma CountsAfterDeleteAbsent<K(!new)>(m: map<K, seq<Snapshot>>, res: map<Uuid, Snapshot>, indexed: set<Uuid>,
                                         keysOf: Snapshot -> seq<K>, v: Snapshot)
    requires indexed <= res.Keys && NoEmptyList(m) && Counts(m, res, indexed, keysOf) && v.id !in indexed
    ensures DeleteAt(m, keysOf(v), v) == m
    ensures Counts(m, res - {v.id}, indexed - {v.id}, keysOf)
  {
    DeleteAtAbsent(m, keysOf(v), v);
    var res1 := res - {v.id};
    forall n, id
      ensures Occ(ListOf(m, n), id) == (if id in indexed - {v.id} then multiset(keysOf(res1[id]))[n] else 0)
    {
      if id in indexed {
        assert res1[id] == res[id];
      }
    }
  }

  /**
   * An index `m1` whose elements were all in `m` lists only stored
   * reservations once the reservation `vid`, which it no longer counts, is
   * no longer stored.
   */
  lemma CurrentAfterDelete<K(!new)>(m: map<K, seq<Snapshot>>, m1: map<K, seq<Snapshot>>, res: map<Uuid, Snapshot>,
                                    indexed: set<Uuid>, keysOf: Snapshot -> seq<K>, vid: Uuid)
    requires indexed <= res.Keys && Current(m, res)
    requires Counts(m1, res - {vid}, indexed - {vid}, keysOf)
    requires forall n, e :: e in ListOf(m1, n) ==> e in ListOf(m, n)
    ensures Current(m1, res - {vid})
  {
    forall k, e: Snapshot | k in m1 && e in m1[k]
      ensures e.id in res - {vid} && (res - {vid})[e.id] == e
    {
      assert e.id in res && res[e.id] == e by {
        assert e in ListOf(m, k);
      }
      assert e.id != vid by {
        OccMember(ListOf(m1, k), e);
      }
    }
  }

  /** Deleting a reservation whose keys did not change removes it from the index. */
  lemma IndexAfterDelete<K(!new)>(m: map<K, seq<Snapshot>>, res: map<Uuid, Snapshot>, indexed: set<Uuid>,
                            keysOf: Snapshot -> seq<K>, v: Snapshot)
    requires IndexOk(m, res, indexed, keysOf)
    requires v.id in indexed ==> keysOf(res[v.id]) == keysOf(v)
    ensures IndexOk(DeleteAt(m, keysOf(v), v), res - {v.id}, indexed - {v.id}, keysOf)
  {
    if v.id in indexed {
      DeleteAtEffect(m, keysOf(v), v);
      CountsAfterDelete(m, DeleteAt(m, keysOf(v), v), res, indexed, res - {v.id}, indexed - {v.id}, keysOf, v);
    } else {
      CountsAfterDeleteAbsent(m, res, indexed, keysOf, v);
    }
    CurrentAfterDelete(m, DeleteAt(m, keysOf(v), v), res, indexed, keysOf, v.id);
  }

  /** The keys of a stored reservation that the indexes use did not change. */
  predicate Unmoved(res: map<Uuid, Snapshot>, r: Snapshot)
  {
    r.id in res ==> res[r.id].handle == r.handle && res[r.id].queue == r.queue && res[r.id].locations == r.locations
  }

  /** The three indexes list exactly the indexed reservations under their keys, each as currently stored. */
  ghost predicate IndexedState(res: map<Uuid, Snapshot>, indexed: set<Uuid>, handles: map<Uuid, seq<Snapshot>>,
                               queues: map<string, seq<Snapshot>>, nodes: map<string, seq<Snapshot>>)
  {
    IndexOk(handles, res, indexed, HandleKeys) && IndexOk(queues, res, indexed, QueueKeys)
    && IndexOk(nodes, res, indexed, NodeKeys)
  }

  lemma AddKeepsIndexed(res: map<Uuid, Snapshot>, indexed: set<Uuid>, handles: map<Uuid, seq<Snapshot>>,
                        queues: map<string, seq<Snapshot>>, nodes: map<string, seq<Snapshot>>, r: Snapshot)
    requires r.id !in res
    ensures IndexedState(res, indexed, handles, queues, nodes) ==>
            IndexedState(res[r.id := r], indexed + {r.id}, AddAt(handles, HandleKeys(r), r),
                         AddAt(queues, QueueKeys(r), r), AddAt(nodes, NodeKeys(r), r))
  {
    if IndexedState(res, indexed, handles, queues, nodes) {
      IndexAfterAdd(handles, res, indexed, HandleKeys, r);
      IndexAfterAdd(queues, res, indexed, QueueKeys, r);
      IndexAfterAdd(nodes, res, indexed, NodeKeys, r);
    }
  }

  lemma UpdateKeepsIndexed(res: map<Uuid, Snapshot>, indexed: set<Uuid>, handles: map<Uuid, seq<Snapshot>>,
                           queues: map<string, seq<Snapshot>>, nodes: map<string, seq<Snapshot>>, r: Snapshot)
    ensures IndexedState(res, indexed, handles, queues, nodes) && Unmoved(res, r) ==>
            IndexedState(res[r.id := r], indexed, UpdateAt(handles, HandleKeys(r), r),
                         UpdateAt(queues, QueueKeys(r), r), UpdateAt(nodes, NodeKeys(r), r))
  {
    if IndexedState(res, indexed, handles, queues, nodes) && Unmoved(res, r) {
      IndexAfterUpdate(handles, res, indexed, HandleKeys, r);
      IndexAfterUpdate(queues, res, indexed, QueueKeys, r);
      IndexAfterUpdate(nodes, res, indexed, NodeKeys, r);
    }
  }

  lemma DeleteKeepsIndexed(res: map<Uuid, Snapshot>, indexed: set<Uuid>, handles: map<Uuid, seq<Snapshot>>,
                           queues: map<string, seq<Snapshot>>, nodes: map<string, seq<Snapshot>>, r: Snapshot)
    ensures IndexedState(res, indexed, handles, queues, nodes) && Unmoved(res, r) ==>
            IndexedState(res - {r.id}, indexed - {r.id}, DeleteAt(handles, HandleKeys(r), r),
                         DeleteAt(queues, QueueKeys(r), r), DeleteAt(nodes, NodeKeys(r), r))
  {
    if IndexedState(res, indexed, handles, queues, nodes) && Unmoved(res, r) {
      IndexAfterDelete(handles, res, indexed, HandleKeys, r);
      IndexAfterDelete(queues, res, indexed, QueueKeys, r);
      IndexAfterDelete(nodes, res, indexed, NodeKeys, r);
    }
  }

  /** A key is in an exact index exactly when some indexed reservation has it among its keys. */
  lemma KeyFound<K(!new)>(m: map<K, seq<Snapshot>>, res: map<Uuid, Snapshot>, indexed: set<Uuid>,
                          keysOf: Snapshot -> seq<K>, k: K)
    requires IndexOk(m, res, indexed, keysOf)
    ensures k in m <==> exists id :: id in indexed && k in keysOf(res[id])
  {
    if k in m {
      var e := m[k][0];
      OccMember(ListOf(m, k), e);
      assert multiset(keysOf(res[e.id]))[k] > 0;
    }
    if exists id :: id in indexed && k in keysOf(res[id]) {
      var id :| id in indexed && k in keysOf(res[id]);
      assert Occ(ListOf(m, k), id) > 0;
    }
  }

  /**
   * An element of an exact index is an indexed reservation as currently
   * stored, and it has the key it is listed under.
   */
  lemma ListedIsIndexed<K(!new)>(m: map<K, seq<Snapshot>>, res: map<Uuid, Snapshot>, indexed: set<Uuid>,
                                 keysOf: Snapshot -> seq<K>, k: K, e: Snapshot)
    requires IndexOk(m, res, indexed, keysOf) && e in ListOf(m, k)
    ensures e.id in indexed && res[e.id] == e && k in keysOf(e)
  {
    OccMember(ListOf(m, k), e);
    assert multiset(keysOf(res[e.id]))[k] > 0;
  }

  lemma SingletonCount<T>(x: T, y: T)
    ensures multiset([x])[y] == if x == y then 1 else 0
  {
  }

  /** The indexed reservations of client handle `h`. */
  ghost function OfHandle(res: map<Uuid, Snapshot>, indexed: set<Uuid>, h: Uuid): set<Uuid>
    requires indexed <= res.Keys
  {
    set id | id in indexed && res[id].handle == h
  }

  /** A handle's list in an exact handle index is as long as the number of indexed reservations of that handle. */
  lemma HandleCount(m: map<Uuid, seq<Snapshot>>, res: map<Uuid, Snapshot>, indexed: set<Uuid>, h: Uuid)
    requires IndexOk(m, res, indexed, HandleKeys)
    ensures |ListOf(m, h)| == |OfHandle(res, indexed, h)|
  {
    var ids := OfHandle(res, indexed, h);
    forall id
      ensures Occ(ListOf(m, h), id) == (if id in ids then 1 else 0)
    {
      assert Counts(m, res, indexed, HandleKeys);
      assert Occ(ListOf(m, h), id) == (if id in indexed then multiset(HandleKeys(res[id]))[h] else 0);
      if id in indexed {
        SingletonCount(res[id].handle, h);
      }
    }
    LengthByOcc(ListOf(m, h), ids);
  }

  /**
   * The update as written leaves a stale copy behind: a reservation with
   * two resources on node "n" is listed twice under "n", and after an
   * update only the first copy is the new value, so the node index no
   * longer lists the reservation as currently stored.
   */
  lemma UpdateAsWrittenLeavesStale()
    ensures var s := Snapshot(1, 2, "q", RPending, ["n", "n"]);
            var v := s.(status := RAllocated);
            var m := map["n" := [s, s]];
            IndexOk(m, map[1 := s], {1}, NodeKeys) && Unmoved(map[1 := s], v)
            && UpdateAtAsWritten(m, NodeKeys(v), v) == map["n" := [v, s]]
            && !Current(UpdateAtAsWritten(m, NodeKeys(v), v), map[1 := v])
  {
    var s := Snapshot(1, 2, "q", RPending, ["n", "n"]);
    var v := s.(status := RAllocated);
    var m := map["n" := [s, s]];
    forall n, id
      ensures Occ(ListOf(m, n), id) == (if id in {1} then multiset(NodeKeys(s))[n] else 0)
    {
      assert [s, s][1..] == [s];
      assert [s][1..] == [];
    }
    assert [s, s][1..] == [s];
    assert [s, s][0 := v] == [v, s];
    assert ["n", "n"][1..] == ["n"] && ["n"][1..] == [];
    var m1 := UpdateToMapListAsWritten(m, "n", v);
    assert m1 == map["n" := [v, s]];
    assert [v, s][0 := v] == [v, s];
    assert UpdateToMapListAsWritten(m1, "n", v) == m1;
    assert s in UpdateAtAsWritten(m, NodeKeys(v), v)["n"];
  }

  /** Appending an element not yet there keeps a sequence free of duplicates. */
  lemma AppendFresh<T>(s: seq<T>, x: T)
    requires NoDuplicates(s) && x !in s
    ensures NoDuplicates(s + [x])
  {
  }

  /** `s` without `x`: a LinkedHashMap's key order after the key is removed. */
  function Without<T(==,!new)>(s: seq<T>, x: T): (r: seq<T>)
    ensures forall y :: y in r <==> y in s && y != x
    ensures NoDuplicates(s) ==> NoDuplicates(r)
  {
    if s == [] then []
    else if s[0] == x then Without(s[1..], x)
    else
      var rest := Without(s[1..], x);
      assert NoDuplicates(s) ==> NoDuplicates(s[1..]) && s[0] !in s[1..];
      assert forall i :: 0 < i < |[s[0]] + rest| ==> ([s[0]] + rest)[i] == rest[i - 1];
      [s[0]] + rest
  }

  /** The ids of a list of reservations, in order. */
  function Ids(list: seq<Snapshot>): (r: seq<Uuid>)
    ensures |r| == |list| && forall i :: 0 <= i < |list| ==> r[i] == list[i].id
  {
    seq(|list|, i requires 0 <= i < |list| => list[i].id)
  }

  /** A list that holds each reservation of `ids` once and nothing else is as long as `ids` is large. */
  lemma {:induction false} LengthByOcc(list: seq<Snapshot>, ids: set<Uuid>)
    requires forall id :: Occ(list, id) == (if id in ids then 1 else 0)
    ensures |list| == |ids|
  {
    if list == [] {
      assert ids == {};
    } else {
      var x := list[0].id;
      assert x in ids;
      forall id
        ensures Occ(list[1..], id) == (if id in ids - {x} then 1 else 0)
      {
        assert Occ(list, id) == (if x == id then 1 else 0) + Occ(list[1..], id);
      }
      LengthByOcc(list[1..], ids - {x});
    }
  }

  /** The payload of the REST response: the version header and the payload under its type name. */
  datatype Payload<T> = Payload(restVersion: string, payloadType: string, data: T)

  /** writeAsJson: a null payload is NotFound; any other is written under its type name. */
  function WriteAsJson<T>(payloadType: string, obj: Option<T>): (r: Result<Payload<T>, LlamaError>)
    ensures r.Failure? <==> obj.None?
    ensures r.Failure? ==> r.error == NotFound
    ensures r.Success? ==> r.value.data == obj.value && r.value.payloadType == payloadType
  {
    if obj.Some? then Success(Payload(REST_VERSION_VALUE, payloadType, obj.value)) else Failure(NotFound)
  }

  datatype SummaryItem<K> = SummaryItem(itemName: string, key: K, count: nat)

  /**
   * createMapSummaryList: one item per key of `m`, in the map's iteration
   * order `order`, naming the key under `itemName` and counting its list.
   */
  method CreateMapSummaryList<K(!new)>(itemName: string, m: map<K, seq<Snapshot>>, order: seq<K>)
    returns (summary: seq<SummaryItem<K>>)
    requires NoDuplicates(order) && forall k :: k in order <==> k in m
    ensures |summary| == |order|
    ensures forall i :: 0 <= i < |order| ==> summary[i] == SummaryItem(itemName, order[i], |m[order[i]]|)
    ensures forall k :: k in m <==> exists i :: 0 <= i < |summary| && summary[i].key == k
  {
    summary := [];
    for i := 0 to |order|
      invariant |summary| == i
      invariant forall j :: 0 <= j < i ==> summary[j] == SummaryItem(itemName, order[j], |m[order[j]]|)
    {
      summary := summary + [SummaryItem(itemName, order[i], |m[order[i]]|)];
    }
    forall k | k in m
      ensures exists i :: 0 <= i < |summary| && summary[i].key == k
    {
      var i :| 0 <= i < |order| && order[i] == k;
      assert summary[i].key == k;
    }
  }

  /**
   * createCrossRef: each key of `m` mapped to the ids of its list, in the
   * list's order (the result iterates in the same key order as `m`).
   */
  method CreateCrossRef<K(!new)>(m: map<K, seq<Snapshot>>, order: seq<K>) returns (crossRef: map<K, seq<Uuid>>)
    requires NoDuplicates(order) && forall k :: k in order <==> k in m
    ensures crossRef.Keys == m.Keys
    ensures forall k :: k in crossRef ==> crossRef[k] == Ids(m[k])
  {
    crossRef := map[];
    for i := 0 to |order|
      invariant forall k :: k in crossRef <==> k in order[..i]
      invariant forall k :: k in crossRef ==> crossRef[k] == Ids(m[k])
    {
      var key := order[i];
      assert key !in order[..i];
      var list: seq<Uuid> := [];
      for j := 0 to |m[key]|
        invariant list == Ids(m[key][..j])
      {
        assert m[key][..j + 1] == m[key][..j] + [m[key][j]];
        list := list + [m[key][j].id];
      }
      assert m[key][..|m[key]|] == m[key];
      crossRef := crossRef[key := list];
      assert order[..i + 1] == order[..i] + [key];
    }
    assert order[..|order|] == order;
  }

  /**
   * `items` summarises the TreeMap `m`: one item per key, in ascending key
   * order, naming the key under `itemName` and counting its list.
   */
  ghost predicate SortedSummary(items: seq<SummaryItem<string>>, itemName: string, m: map<string, seq<Snapshot>>)
  {
    (forall i, j :: 0 <= i < j < |items| ==> PyStr.StrLess(items[i].key, items[j].key))
    && (forall k :: k in m <==> exists i :: 0 <= i < |items| && items[i].key == k)
    && (forall i :: 0 <= i < |items| ==> items[i].key in m && items[i] == SummaryItem(itemName, items[i].key, |m[items[i].key]|))
  }

  /** `crossRef` maps each key of `m` to the ids of its list, in order. */
  ghost predicate CrossRefOf<K(!new)>(crossRef: map<K, seq<Uuid>>, m: map<K, seq<Snapshot>>)
  {
    crossRef.Keys == m.Keys && forall k :: k in crossRef ==> crossRef[k] == Ids(m[k])
  }

  /** A strictly ascending list repeats no key. */
  lemma SortedNoDuplicates(r: seq<string>)
    requires PyStr.StrictlySorted(r)
    ensures NoDuplicates(r)
  {
    forall i, j | 0 <= i < j < |r|
      ensures r[i] != r[j]
    {
      PyStr.StrLessIrreflexive(r[i]);
    }
  }

  /** The summary of a TreeMap index: its keys in ascending order, each with its count. */
  method SortedMapSummary(itemName: string, m: map<string, seq<Snapshot>>) returns (items: seq<SummaryItem<string>>)
    ensures SortedSummary(items, itemName, m)
  {
    var order := PyStr.SortedKeys(m);
    SortedNoDuplicates(order);
    items := CreateMapSummaryList(itemName, m, order);
    forall i, j | 0 <= i < j < |items|
      ensures PyStr.StrLess(items[i].key, items[j].key)
    {
      assert items[i].key == order[i] && items[j].key == order[j];
    }
  }

  datatype ClientSummary = ClientSummary(info: ClientInfo, reservations: nat)

  datatype SummaryView = SummaryView(reservationsCount: nat, queuesSummary: seq<SummaryItem<string>>,
                                     clientsSummary: seq<ClientSummary>, nodesSummary: seq<SummaryItem<string>>)

  datatype AllView = AllView(reservations: map<Uuid, Snapshot>, clientInfos: seq<ClientSummary>,
                             queuesCrossref: map<string, seq<Uuid>>, handlesCrossref: map<Uuid, seq<Uuid>>,
                             nodesCrossref: map<string, seq<Uuid>>)

  datatype HandleView = HandleView(clientInfo: ClientInfo, reservations: seq<Snapshot>)

  /** `order` lists the keys of `m`, each once: a LinkedHashMap's iteration order. */
  ghost predicate KeyOrder<K(!new), V>(order: seq<K>, m: map<K, V>)
  {
    NoDuplicates(order) && forall h :: h in order <==> h in m
  }

  /** No index holds an empty list, and `order` is the handle index's key order. */
  ghost predicate IndexesOk(handles: map<Uuid, seq<Snapshot>>, order: seq<Uuid>, queues: map<string, seq<Snapshot>>,
                            nodes: map<string, seq<Snapshot>>)
  {
    NoEmptyList(handles) && KeyOrder(order, handles) && NoEmptyList(queues) && NoEmptyList(nodes)
  }

  /**
   * `v` added: under its handle, its queue and each of its nodes, and its
   * handle last in the handle order when it is new.
   */
  predicate IndexesAdded(handles: map<Uuid, seq<Snapshot>>, order: seq<Uuid>, queues: map<string, seq<Snapshot>>,
                         nodes: map<string, seq<Snapshot>>, handles': map<Uuid, seq<Snapshot>>, order': seq<Uuid>,
                         queues': map<string, seq<Snapshot>>, nodes': map<string, seq<Snapshot>>, v: Snapshot)
  {
    handles' == AddAt(handles, HandleKeys(v), v) && queues' == AddAt(queues, QueueKeys(v), v)
    && nodes' == AddAt(nodes, NodeKeys(v), v)
    && order' == if v.handle in handles then order else order + [v.handle]
  }

  /**
   * `v` deleted: once from its handle's and its queue's lists and once per
   * resource from its nodes' lists, a key whose list empties removed, and a
   * handle whose list empties removed from the handle order.
   */
  predicate IndexesDeleted(handles: map<Uuid, seq<Snapshot>>, order: seq<Uuid>, queues: map<string, seq<Snapshot>>,
                           nodes: map<string, seq<Snapshot>>, handles': map<Uuid, seq<Snapshot>>, order': seq<Uuid>,
                           queues': map<string, seq<Snapshot>>, nodes': map<string, seq<Snapshot>>, v: Snapshot)
  {
    handles' == DeleteAt(handles, HandleKeys(v), v) && queues' == DeleteAt(queues, QueueKeys(v), v)
    && nodes' == DeleteAt(nodes, NodeKeys(v), v)
    && order' == if v.handle in handles && v.handle !in handles' then Without(order, v.handle) else order
  }

  /**
   * The three indexes after add, with the handle order (a new handle goes
   * last): `v` under its handle, its queue and each of its nodes.
   */
  method AddToIndexes(handles: map<Uuid, seq<Snapshot>>, order: seq<Uuid>, queues: map<string, seq<Snapshot>>,
                      nodes: map<string, seq<Snapshot>>, v: Snapshot)
    returns (handles': map<Uuid, seq<Snapshot>>, order': seq<Uuid>, queues': map<string, seq<Snapshot>>,
             nodes': map<string, seq<Snapshot>>)
    requires IndexesOk(handles, order, queues, nodes)
    ensures IndexesAdded(handles, order, queues, nodes, handles', order', queues', nodes', v)
    ensures IndexesOk(handles', order', queues', nodes')
  {
    order' := order;
    if v.handle !in handles {
      AppendFresh(order, v.handle);
      order' := order + [v.handle];
    }
    assert [v.handle][1..] == [] && [v.queue][1..] == [];
    handles' := AddToMapList(handles, v.handle, v);
    queues' := AddToMapList(queues, v.queue, v);
    nodes' := AddUnderEach(nodes, v.locations, v);
  }

  /**
   * The three indexes after delete, with the handle order (a handle whose
   * list empties leaves it).
   */
  method DeleteFromIndexes(handles: map<Uuid, seq<Snapshot>>, order: seq<Uuid>, queues: map<string, seq<Snapshot>>,
                           nodes: map<string, seq<Snapshot>>, v: Snapshot)
    returns (handles': map<Uuid, seq<Snapshot>>, order': seq<Uuid>, queues': map<string, seq<Snapshot>>,
             nodes': map<string, seq<Snapshot>>)
    requires IndexesOk(handles, order, queues, nodes)
    ensures IndexesDeleted(handles, order, queues, nodes, handles', order', queues', nodes', v)
    ensures IndexesOk(handles', order', queues', nodes')
  {
    assert [v.handle][1..] == [] && [v.queue][1..] == [];
    handles' := DeleteFromMapList(handles, v.handle, v);
    order' := order;
    if v.handle in handles && v.handle !in handles' {
      order' := Without(order, v.handle);
    }
    queues' := DeleteFromMapList(queues, v.queue, v);
    nodes' := DeleteUnderEach(nodes, v.locations, v);
  }

  /** The loop over a reservation's resources in add: `v` appended under each location in turn. */
  method AddUnderEach(m: map<string, seq<Snapshot>>, locations: seq<string>, v: Snapshot)
    returns (r: map<string, seq<Snapshot>>)
    requires NoEmptyList(m)
    ensures NoEmptyList(r) && r == AddAt(m, locations, v)
  {
    r := m;
    for i := 0 to |locations|
      invariant NoEmptyList(r)
      invariant AddAt(r, locations[i..], v) == AddAt(m, locations, v)
    {
      assert locations[i..][1..] == locations[i + 1..];
      r := AddToMapList(r, locations[i], v);
    }
  }

  /** The loop over a reservation's resources in update (corrected). */
  method UpdateUnderEach(m: map<string, seq<Snapshot>>, locations: seq<string>, v: Snapshot)
    returns (r: map<string, seq<Snapshot>>)
    requires NoEmptyList(m)
    ensures NoEmptyList(r) && r == UpdateAt(m, locations, v)
  {
    r := m;
    for i := 0 to |locations|
      invariant NoEmptyList(r)
      invariant UpdateAt(r, locations[i..], v) == UpdateAt(m, locations, v)
    {
      assert locations[i..][1..] == locations[i + 1..];
      r := UpdateToMapList(r, locations[i], v);
    }
  }

  /** The loop over a reservation's resources in delete. */
  method DeleteUnderEach(m: map<string, seq<Snapshot>>, locations: seq<string>, v: Snapshot)
    returns (r: map<string, seq<Snapshot>>)
    requires NoEmptyList(m)
    ensures NoEmptyList(r) && r == DeleteAt(m, locations, v)
  {
    r := m;
    for i := 0 to |locations|
      invariant NoEmptyList(r)
      invariant DeleteAt(r, locations[i..], v) == DeleteAt(m, locations, v)
    {
      assert locations[i..][1..] == locations[i + 1..];
      r := DeleteFromMapList(r, locations[i], v);
    }
  }

  /**
   * The handle index (a LinkedHashMap, so with its iteration order: its
   * keys, each once, oldest first), and the queue and node indexes
   * (TreeMaps, iterating in ascending key order).
   */
  datatype Indexes = Indexes(handles: map<Uuid, seq<Snapshot>>, order: seq<Uuid>,
                             queues: map<string, seq<Snapshot>>, nodes: map<string, seq<Snapshot>>)

  class RestData {
    var reservations: map<Uuid, Snapshot>
    /** The handle, queue and node indexes, and the handle index's iteration order. */
    var ix: Indexes
    var clientInfos: map<Uuid, ClientInfo>
    /** The registration order of the clients (clientInfoMap is a LinkedHashMap). */
    var clientOrder: seq<Uuid>
    var hasBeenBackedOff: set<Uuid>
    /** The reservations the indexes list: first observed PENDING or BACKED_OFF, and not ENDED since. */
    ghost var indexed: set<Uuid>

    ghost predicate Valid()
      reads this
    {
      IndexesOk(ix.handles, ix.order, ix.queues, ix.nodes) && KeyOrder(clientOrder, clientInfos)
    }

    /** Each index lists exactly the indexed reservations under their keys, each as currently stored. */
    ghost predicate Indexed()
      reads this
    {
      IndexedState(reservations, indexed, ix.handles, ix.queues, ix.nodes)
    }

    constructor()
      ensures Valid() && Indexed()
      ensures reservations == map[] && ix.handles == map[] && ix.queues == map[] && ix.nodes == map[]
      ensures clientInfos == map[] && hasBeenBackedOff == {} && indexed == {}
    {
      reservations := map[];
      ix := Indexes(map[], [], map[], map[]);
      clientInfos := map[];
      clientOrder := [];
      hasBeenBackedOff := {};
      indexed := {};
    }

    /** onRegister: the client is put under its handle (a re-registration keeps its place in the order). */
    method OnRegister(ci: ClientInfo)
      requires Valid()
      modifies this
      ensures Valid()
      ensures clientInfos == old(clientInfos)[ci.handle := ci]
      ensures clientOrder == if ci.handle in old(clientInfos) then old(clientOrder) else old(clientOrder) + [ci.handle]
      ensures reservations == old(reservations) && ix == old(ix)
      ensures hasBeenBackedOff == old(hasBeenBackedOff) && indexed == old(indexed)
    {
      if ci.handle !in clientInfos {
        AppendFresh(clientOrder, ci.handle);
        clientOrder := clientOrder + [ci.handle];
      }
      clientInfos := clientInfos[ci.handle := ci];
    }

    /** onUnregister: the client of that handle is removed. */
    method OnUnregister(ci: ClientInfo)
      requires Valid()
      modifies this
      ensures Valid()
      ensures clientInfos == old(clientInfos) - {ci.handle}
      ensures clientOrder == Without(old(clientOrder), ci.handle)
      ensures reservations == old(reservations) && ix == old(ix)
      ensures hasBeenBackedOff == old(hasBeenBackedOff) && indexed == old(indexed)
    {
      clientInfos := clientInfos - {ci.handle};
      clientOrder := Without(clientOrder, ci.handle);
    }

    /** add: stored, and appended to its handle's, its queue's and each of its resources' node lists. */
    twostate predicate Added(r: Snapshot)
      reads this
    {
      reservations == old(reservations)[r.id := r] && indexed == old(indexed) + {r.id}
      && IndexesAdded(old(ix.handles), old(ix.order), old(ix.queues), old(ix.nodes),
                      ix.handles, ix.order, ix.queues, ix.nodes, r)
      && clientInfos == old(clientInfos) && clientOrder == old(clientOrder)
    }

    /**
     * update: stored, and each of its handle's, its queue's and its nodes'
     * lists has its elements equal to it replaced by it (corrected: every
     * equal element, see UpdateAtAsWritten).
     */
    twostate predicate Updated(r: Snapshot)
      reads this
    {
      reservations == old(reservations)[r.id := r] && indexed == old(indexed)
      && ix.handles == UpdateAt(old(ix.handles), HandleKeys(r), r)
      && ix.queues == UpdateAt(old(ix.queues), QueueKeys(r), r)
      && ix.nodes == UpdateAt(old(ix.nodes), NodeKeys(r), r)
      && ix.order == old(ix.order)
      && clientInfos == old(clientInfos) && clientOrder == old(clientOrder)
    }

    /**
     * delete: no longer stored, and removed once from its handle's and its
     * queue's lists and once per resource from its nodes' lists; a key whose
     * list empties is removed.
     */
    twostate predicate Deleted(r: Snapshot)
      reads this
    {
      reservations == old(reservations) - {r.id} && indexed == old(indexed) - {r.id}
      && IndexesDeleted(old(ix.handles), old(ix.order), old(ix.queues), old(ix.nodes),
                        ix.handles, ix.order, ix.queues, ix.nodes, r)
      && clientInfos == old(clientInfos) && clientOrder == old(clientOrder)
    }

    method Add(r: Snapshot)
      requires Valid() && r.id !in reservations
      modifies this
      ensures Valid() && Added(r) && hasBeenBackedOff == old(hasBeenBackedOff)
    {
      var res, ids := reservations[r.id := r], indexed + {r.id};
      var h, o, q, n := AddToIndexes(ix.handles, ix.order, ix.queues, ix.nodes, r);
      reservations, indexed, ix := res, ids, Indexes(h, o, q, n);
    }

    method Update(r: Snapshot)
      requires Valid()
      modifies this
      ensures Valid() && Updated(r) && hasBeenBackedOff == old(hasBeenBackedOff)
    {
      reservations := reservations[r.id := r];
      assert [r.handle][1..] == [] && [r.queue][1..] == [];
      var h := UpdateToMapList(ix.handles, r.handle, r);
      var q := UpdateToMapList(ix.queues, r.queue, r);
      var n := UpdateUnderEach(ix.nodes, r.locations, r);
      ix := ix.(handles := h, queues := q, nodes := n);
    }

    method Delete(r: Snapshot)
      requires Valid()
      modifies this
      ensures Valid() && Deleted(r) && hasBeenBackedOff == old(hasBeenBackedOff)
    {
      var res, ids := reservations - {r.id}, indexed - {r.id};
      var h, o, q, n := DeleteFromIndexes(ix.handles, ix.order, ix.queues, ix.nodes, r);
      reservations, indexed, ix := res, ids, Indexes(h, o, q, n);
    }

    /**
     * observe: a PENDING or BACKED_OFF reservation is added when not yet
     * stored and updated otherwise, and a BACKED_OFF one is remembered as
     * backed off; a PARTIAL or ALLOCATED one is updated; an ENDED one is
     * deleted and forgotten as backed off.
     */
    method Observe(r: Snapshot)
      requires Valid()
      modifies this
      ensures Valid()
      ensures (r.status.RPending? || r.status.RBackedOff?) && r.id !in old(reservations) ==> Added(r)
      ensures (r.status.RPending? || r.status.RBackedOff?) && r.id in old(reservations) ==> Updated(r)
      ensures r.status.RPartial? || r.status.RAllocated? ==> Updated(r)
      ensures r.status.REnded? ==> Deleted(r)
      ensures hasBeenBackedOff == match r.status
                                  case RBackedOff => old(hasBeenBackedOff) + {r.id}
                                  case REnded => old(hasBeenBackedOff) - {r.id}
                                  case _ => old(hasBeenBackedOff)
    {
      match r.status
      case RPending =>
        if r.id !in reservations { Add(r); } else { Update(r); }
      case RBackedOff =>
        if r.id !in reservations { Add(r); } else { Update(r); }
        hasBeenBackedOff := hasBeenBackedOff + {r.id};
      case RPartial =>
        Update(r);
      case RAllocated =>
        Update(r);
      case REnded =>
        Delete(r);
        hasBeenBackedOff := hasBeenBackedOff - {r.id};
    }

    /**
     * createClientInfoSummary: each registered client, in registration
     * order, with the length of its handle's list (0 when it has none).
     */
    ghost predicate ClientSummaryOf(list: seq<ClientSummary>)
      reads this
    {
      |list| == |clientOrder|
      && forall i :: 0 <= i < |list| ==>
           clientOrder[i] in clientInfos
           && list[i] == ClientSummary(clientInfos[clientOrder[i]], |ListOf(ix.handles, clientOrder[i])|)
    }

    method CreateClientInfoSummary() returns (list: seq<ClientSummary>)
      requires Valid()
      ensures ClientSummaryOf(list)
    {
      var summary: map<Uuid, nat> := map[];
      for i := 0 to |ix.order|
        invariant forall h :: h in summary <==> h in ix.order[..i]
        invariant forall h :: h in summary ==> h in ix.handles && summary[h] == |ix.handles[h]|
      {
        assert ix.order[..i + 1] == ix.order[..i] + [ix.order[i]];
        summary := summary[ix.order[i] := |ix.handles[ix.order[i]]|];
      }
      assert ix.order[..|ix.order|] == ix.order;
      list := [];
      for i := 0 to |clientOrder|
        invariant |list| == i
        invariant forall j :: 0 <= j < i ==> list[j] == ClientSummary(clientInfos[clientOrder[j]], |ListOf(ix.handles, clientOrder[j])|)
      {
        var h := clientOrder[i];
        var count := if h in summary then summary[h] else 0;
        list := list + [ClientSummary(clientInfos[h], count)];
      }
    }

    /** With exact indexes, each client's count is the number of its indexed reservations. */
    lemma ClientCounts(list: seq<ClientSummary>)
      requires Valid() && Indexed() && ClientSummaryOf(list)
      ensures forall i :: 0 <= i < |list| ==> list[i].reservations == |OfHandle(reservations, indexed, clientOrder[i])|
    {
      forall i | 0 <= i < |list|
        ensures list[i].reservations == |OfHandle(reservations, indexed, clientOrder[i])|
      {
        HandleCount(ix.handles, reservations, indexed, clientOrder[i]);
      }
    }

    /**
     * writeSummaryAsJson: the number of stored reservations, the queue
     * and node summaries in ascending key order and the client summary.
     */
    method SummaryData() returns (r: Result<Payload<SummaryView>, LlamaError>)
      requires Valid()
      ensures r.Success? && r.value.payloadType == SUMMARY_DATA
      ensures r.value.data.reservationsCount == |reservations|
      ensures SortedSummary(r.value.data.queuesSummary, QUEUE, ix.queues)
      ensures SortedSummary(r.value.data.nodesSummary, NODE, ix.nodes)
      ensures ClientSummaryOf(r.value.data.clientsSummary)
    {
      var queues := SortedMapSummary(QUEUE, ix.queues);
      var clients := CreateClientInfoSummary();
      var nodes := SortedMapSummary(NODE, ix.nodes);
      r := WriteAsJson(SUMMARY_DATA, Some(SummaryView(|reservations|, queues, clients, nodes)));
    }

    /** writeAllAsJson: every stored reservation, the client summary and the three cross references. */
    method AllData() returns (r: Result<Payload<AllView>, LlamaError>)
      requires Valid()
      ensures r.Success? && r.value.payloadType == ALL_DATA
      ensures r.value.data.reservations == reservations
      ensures ClientSummaryOf(r.value.data.clientInfos)
      ensures CrossRefOf(r.value.data.queuesCrossref, ix.queues)
      ensures CrossRefOf(r.value.data.handlesCrossref, ix.handles)
      ensures CrossRefOf(r.value.data.nodesCrossref, ix.nodes)
    {
      var clients := CreateClientInfoSummary();
      var queueOrder := PyStr.SortedKeys(ix.queues);
      SortedNoDuplicates(queueOrder);
      var queues := CreateCrossRef(ix.queues, queueOrder);
      var handles := CreateCrossRef(ix.handles, ix.order);
      var nodeOrder := PyStr.SortedKeys(ix.nodes);
      SortedNoDuplicates(nodeOrder);
      var nodes := CreateCrossRef(ix.nodes, nodeOrder);
      r := WriteAsJson(ALL_DATA, Some(AllView(reservations, clients, queues, handles, nodes)));
    }

    /** writeReservationAsJson: the stored reservation of that id, NotFound when there is none. */
    function ReservationData(id: Uuid): (r: Result<Payload<Snapshot>, LlamaError>)
      reads this
      ensures r.Success? <==> id in reservations
      ensures r.Success? ==> r.value.payloadType == RESERVATION_DATA && r.value.data == reservations[id]
      ensures r.Failure? ==> r.error == NotFound
    {
      WriteAsJson(RESERVATION_DATA, if id in reservations then Some(reservations[id]) else None)
    }

    /** writeQueueReservationsAsJson: the queue's list, NotFound when the queue has none. */
    function QueueData(queue: string): (r: Result<Payload<seq<Snapshot>>, LlamaError>)
      reads this
      ensures r.Success? <==> queue in ix.queues
      ensures r.Success? ==> r.value.payloadType == QUEUE_DATA && r.value.data == ix.queues[queue]
      ensures r.Failure? ==> r.error == NotFound
    {
      WriteAsJson(QUEUE_DATA, if queue in ix.queues then Some(ix.queues[queue]) else None)
    }

    /** writeNodeResourcesAsJson: the node's list, NotFound when the node has none. */
    function NodeData(node: string): (r: Result<Payload<seq<Snapshot>>, LlamaError>)
      reads this
      ensures r.Success? <==> node in ix.nodes
      ensures r.Success? ==> r.value.payloadType == NODE_DATA && r.value.data == ix.nodes[node]
      ensures r.Failure? ==> r.error == NotFound
    {
      WriteAsJson(NODE_DATA, if node in ix.nodes then Some(ix.nodes[node]) else None)
    }

    /**
     * writeHandleReservationsAsJson: NotFound for a handle with no
     * registered client; otherwise the client and its handle's list, empty
     * when it has none.
     */
    function HandleData(handle: Uuid): (r: Result<Payload<HandleView>, LlamaError>)
      reads this
      ensures r.Success? <==> handle in clientInfos
      ensures r.Success? ==> r.value.payloadType == HANDLE_DATA
                             && r.value.data == HandleView(clientInfos[handle], ListOf(ix.handles, handle))
      ensures r.Failure? ==> r.error == NotFound
    {
      WriteAsJson(HANDLE_DATA, if handle in clientInfos then Some(HandleView(clientInfos[handle], ListOf(ix.handles, handle))) else None)
    }

    /** With exact indexes, a queue is found exactly when an indexed reservation is in it, and lists them as stored. */
    lemma QueueDataExact(queue: string)
      requires Indexed()
      ensures QueueData(queue).Success? <==> exists id :: id in indexed && reservations[id].queue == queue
      ensures QueueData(queue).Success? ==>
                forall e :: e in QueueData(queue).value.data ==> e.id in indexed && reservations[e.id] == e && e.queue == queue
    {
      KeyFound(ix.queues, reservations, indexed, QueueKeys, queue);
      forall e | QueueData(queue).Success? && e in QueueData(queue).value.data
        ensures e.id in indexed && reservations[e.id] == e && e.queue == queue
      {
        ListedIsIndexed(ix.queues, reservations, indexed, QueueKeys, queue, e);
      }
    }

    /** With exact indexes, a node is found exactly when an indexed reservation has a resource on it. */
    lemma NodeDataExact(node: string)
      requires Indexed()
      ensures NodeData(node).Success? <==> exists id :: id in indexed && node in reservations[id].locations
      ensures NodeData(node).Success? ==>
                forall e :: e in NodeData(node).value.data ==> e.id in indexed && reservations[e.id] == e && node in e.locations
    {
      KeyFound(ix.nodes, reservations, indexed, NodeKeys, node);
      forall e | NodeData(node).Success? && e in NodeData(node).value.data
        ensures e.id in indexed && reservations[e.id] == e && node in e.locations
      {
        ListedIsIndexed(ix.nodes, reservations, indexed, NodeKeys, node, e);
      }
    }

    /** With exact indexes, a registered handle lists its indexed reservations, each once and as stored. */
    lemma HandleDataExact(handle: Uuid)
      requires Indexed() && handle in clientInfos
      ensures |HandleData(handle).value.data.reservations| == |OfHandle(reservations, indexed, handle)|
      ensures forall e :: e in HandleData(handle).value.data.reservations ==>
                e.id in indexed && reservations[e.id] == e && e.handle == handle
    {
      HandleCount(ix.handles, reservations, indexed, handle);
      forall e | e in HandleData(handle).value.data.reservations
        ensures e.id in indexed && reservations[e.id] == e && e.handle == handle
      {
        ListedIsIndexed(ix.handles, reservations, indexed, HandleKeys, handle, e);
      }
    }
  }
}
