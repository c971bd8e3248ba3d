/**
 * A bounded table whose entries carry the tick at which they were last
 * touched, and the recency list (least recent first) it stands for.
 */
module LruTable {
  import opened Prelude

  datatype Stamped<+T> = Stamped(value: T, lastActivity: nat)

  type Table<K, +T> = map<K, Stamped<T>>

  ghost predicate IsOldest<K, T>(t: Table<K, T>, k: K) {
    k in t && forall j :: j in t ==> t[k].lastActivity <= t[j].lastActivity
  }

  /** An entry with the smallest stamp. */
  ghost function Oldest<K, T>(t: Table<K, T>): (k: K)
    requires t != map[]
    ensures IsOldest(t, k)
  {
    OldestExists(t);
    var k :| IsOldest(t, k);
    k
  }

  lemma {:induction false} OldestExists<K, T>(t: Table<K, T>)
    requires t != map[]
    ensures exists k :: IsOldest(t, k)
    decreases t.Keys
  {
    var k :| k in t;
    var rest := t - {k};
    if rest == map[] {
      assert forall j :: j in t && j != k ==> j in rest;
      assert IsOldest(t, k);
    } else {
      assert rest.Keys == t.Keys - {k};
      OldestExists(rest);
      var l :| IsOldest(rest, l);
      assert forall j :: j in t && j != k ==> j in rest;
      assert IsOldest(t, if t[k].lastActivity <= t[l].lastActivity then k else l);
    }
  }

  /** Insert at `k`; at the cap, a new key first pushes out the least recently touched entry. */
  ghost function InsertLru<K, T>(t: Table<K, T>, k: K, entry: Stamped<T>, cap: nat): Table<K, T> {
    if k !in t && |t| >= cap && t != map[]
    then (t - {Oldest(t)})[k := entry]
    else t[k := entry]
  }

  ghost predicate Before<K, T>(t: Table<K, T>, stamp: nat) {
    forall k :: k in t ==> t[k].lastActivity < stamp
  }

  ghost predicate Distinct<K(!new), T>(t: Table<K, T>) {
    forall j, k :: j in t && k in t && j != k ==> t[j].lastActivity != t[k].lastActivity
  }

  lemma InsertLruKeys<K, T>(t: Table<K, T>, k: K, entry: Stamped<T>, cap: nat)
    ensures InsertLru(t, k, entry, cap).Keys
         == (if k !in t && |t| >= cap && t != map[] then t.Keys - {Oldest(t)} else t.Keys) + {k}
    ensures t != map[] ==> Oldest(t) in t.Keys
  {
    hide IsOldest;
    if t != map[] { OldestPresent(t); }
  }

  lemma OldestPresent<K, T>(t: Table<K, T>)
    requires t != map[]
    ensures Oldest(t) in t
  {
  }

  lemma InsertLruSize<K, T>(t: Table<K, T>, k: K, entry: Stamped<T>, cap: nat)
    requires |t| <= cap && cap > 0
    ensures |InsertLru(t, k, entry, cap)| <= cap
  {
    InsertLruKeys(t, k, entry, cap);
    hide InsertLru, IsOldest;
    var r := InsertLru(t, k, entry, cap);
    assert |t.Keys| == |t| && |r.Keys| == |r|;
    if k in t {
      assert r.Keys == t.Keys;
    } else if |t| < cap {
      assert |r.Keys| == |t.Keys| + 1;
    } else {
      assert t != map[];
      assert |t.Keys - {Oldest(t)}| == |t.Keys| - 1;
    }
  }

  lemma InsertLruEntries<K, T>(t: Table<K, T>, k: K, entry: Stamped<T>, cap: nat)
    ensures var r := InsertLru(t, k, entry, cap);
            && k in r && r[k] == entry
            && (forall j :: j in r && j != k ==> j in t && r[j] == t[j])
  {
    hide IsOldest;
  }

  /** Within its cap, every stamp at most `tick`, and no stamp used twice. */
  ghost predicate Bounded<K(!new), T>(t: Table<K, T>, cap: nat, tick: nat) {
    |t| <= cap && Before(t, tick + 1) && Distinct(t)
  }

  /** An insert adds its own entry and changes no other; the table stays bounded. */
  lemma InsertLruKeeps<K(!new), T>(t: Table<K, T>, k: K, entry: Stamped<T>, cap: nat, tick: nat)
    requires Bounded(t, cap, tick) && cap > 0 && entry.lastActivity == tick + 1
    ensures var r := InsertLru(t, k, entry, cap);
            && Bounded(r, cap, tick + 1)
            && k in r && r[k] == entry
            && (forall j :: j in r && j != k ==> j in t && r[j] == t[j])
  {
    InsertLruSize(t, k, entry, cap);
    InsertLruEntries(t, k, entry, cap);
    hide InsertLru;
  }

  lemma WithoutKeeps<K(!new), T>(t: Table<K, T>, gone: set<K>, cap: nat, tick: nat)
    requires Bounded(t, cap, tick)
    ensures Bounded(t - gone, cap, tick)
  {
    var kept := (t - gone).Keys;
    assert t.Keys == kept + (t.Keys - kept);
  }

  lemma LaterKeeps<K(!new), T>(t: Table<K, T>, cap: nat, tick: nat)
    requires Bounded(t, cap, tick)
    ensures Bounded(t, cap, tick + 1)
  {
  }

  lemma TouchKeeps<K(!new), T>(t: Table<K, T>, k: K, v: T, cap: nat, tick: nat)
    requires Bounded(t, cap, tick) && k in t
    ensures Bounded(t[k := Stamped(v, tick + 1)], cap, tick + 1)
  {
    assert t[k := Stamped(v, tick + 1)].Keys == t.Keys;
    assert |t[k := Stamped(v, tick + 1)].Keys| == |t.Keys|;
  }

  /** Putting back an entry that was taken out of a table within its cap evicts nobody. */
  lemma RestoreEvictsNobody<K, T>(t: Table<K, T>, k: K, cap: nat)
    requires k in t && |t| <= cap
    ensures InsertLru(t - {k}, k, t[k], cap) == t
  {
    assert (t - {k}).Keys == t.Keys - {k};
    assert |(t - {k}).Keys| == |t.Keys| - 1;
    assert (t - {k})[k := t[k]] == t;
  }

  // --- Recency lists ---

  type Recency<K, T> = seq<(K, T)>

  /** `list` holds the entries of `t` in strictly ascending order of their stamps. */
  ghost predicate Refines<K(!new), T>(list: Recency<K, T>, t: Table<K, T>)
    decreases |list|
  {
    if list == [] then t == map[]
    else
      var (k, v) := list[0];
      && k in t && t[k].value == v
      && (forall j :: j in t && j != k ==> t[k].lastActivity < t[j].lastActivity)
      && Refines(list[1..], t - {k})
  }

  function Find<K(==), T>(list: Recency<K, T>, k: K): Option<T> {
    if list == [] then None
    else if list[0].0 == k then Some(list[0].1)
    else Find(list[1..], k)
  }

  function Remove<K(==), T>(list: Recency<K, T>, k: K): Recency<K, T> {
    if list == [] then []
    else if list[0].0 == k then list[1..]
    else [list[0]] + Remove(list[1..], k)
  }

  /** Touch `k`: whatever its place was, it is now the most recent. */
  function MoveToBack<K(==), T>(list: Recency<K, T>, k: K, v: T): Recency<K, T> {
    Remove(list, k) + [(k, v)]
  }

  /** Insert a new key as the most recent one; a full list loses exactly its head. */
  function PushRecent<K, T>(list: Recency<K, T>, k: K, v: T, cap: nat): Recency<K, T> {
    (if |list| >= cap && list != [] then list[1..] else list) + [(k, v)]
  }

  lemma {:induction false} RefinesFind<K(!new), T>(list: Recency<K, T>, t: Table<K, T>, k: K)
    requires Refines(list, t)
    ensures Find(list, k) == if k in t then Some(t[k].value) else None
    decreases |list|
  {
    if list != [] { RefinesFind(list[1..], t - {list[0].0}, k); }
  }

  lemma {:induction false} RefinesSize<K(!new), T>(list: Recency<K, T>, t: Table<K, T>)
    requires Refines(list, t)
    ensures |list| == |t|
    decreases |list|
  {
    if list != [] {
      RefinesSize(list[1..], t - {list[0].0});
      assert (t - {list[0].0}).Keys == t.Keys - {list[0].0};
      assert |t.Keys - {list[0].0}| == |t.Keys| - 1;
    }
  }

  lemma {:induction false} RefinesRemove<K(!new), T>(list: Recency<K, T>, t: Table<K, T>, k: K)
    requires Refines(list, t)
    ensures Refines(Remove(list, k), t - {k})
    decreases |list|
  {
    if list != [] {
      var h := list[0].0;
      if h != k {
        RefinesRemove(list[1..], t - {h}, k);
        assert t - {h} - {k} == t - {k} - {h};
        assert Remove(list, k)[1..] == Remove(list[1..], k);
      }
    } else {
      assert t - {k} == t;
    }
  }

  lemma {:induction false} RefinesAppend<K(!new), T>(list: Recency<K, T>, t: Table<K, T>, k: K, e: Stamped<T>)
    requires Refines(list, t) && k !in t && Before(t, e.lastActivity)
    ensures Refines(list + [(k, e.value)], t[k := e])
    decreases |list|
  {
    if list == [] {
      assert (list + [(k, e.value)])[1..] == [];
      assert t[k := e] - {k} == map[];
    } else {
      var h := list[0].0;
      RefinesAppend(list[1..], t - {h}, k, e);
      assert (list + [(k, e.value)])[1..] == list[1..] + [(k, e.value)];
      assert t[k := e] - {h} == (t - {h})[k := e];
    }
  }

  lemma RefinesMoveToBack<K(!new), T>(list: Recency<K, T>, t: Table<K, T>, k: K, e: Stamped<T>)
    requires Refines(list, t) && Before(t, e.lastActivity)
    ensures Refines(MoveToBack(list, k, e.value), t[k := e])
  {
    RefinesRemove(list, t, k);
    RefinesAppend(Remove(list, k), t - {k}, k, e);
    assert (t - {k})[k := e] == t[k := e];
  }

  /** A full insert removes exactly the head of the recency list. */
  lemma RefinesPush<K(!new), T>(list: Recency<K, T>, t: Table<K, T>, k: K, e: Stamped<T>, cap: nat)
    requires Refines(list, t) && k !in t && Before(t, e.lastActivity)
    ensures Refines(PushRecent(list, k, e.value, cap), InsertLru(t, k, e, cap))
  {
    RefinesSize(list, t);
    if |t| >= cap && t != map[] {
      assert list != [];
      assert Oldest(t) == list[0].0;
      RefinesAppend(list[1..], t - {list[0].0}, k, e);
    } else {
      RefinesAppend(list, t, k, e);
    }
  }

  /** Two tables read off the same list differ only by an order-preserving relabelling of stamps. */
  ghost predicate SameUpToStamps<K(!new), T>(t: Table<K, T>, u: Table<K, T>) {
    && t.Keys == u.Keys
    && (forall k :: k in t ==> t[k].value == u[k].value)
    && (forall j, k :: j in t && k in t ==>
          (t[j].lastActivity < t[k].lastActivity <==> u[j].lastActivity < u[k].lastActivity))
  }

  lemma {:induction false} SameListSameTable<K(!new), T>(list: Recency<K, T>, t: Table<K, T>, u: Table<K, T>)
    requires Refines(list, t) && Refines(list, u)
    ensures SameUpToStamps(t, u)
    decreases |list|
  {
    if list != [] {
      var h := list[0].0;
      SameListSameTable(list[1..], t - {h}, u - {h});
      assert t.Keys == (t - {h}).Keys + {h};
      assert u.Keys == (u - {h}).Keys + {h};
      forall j, k | j in t && k in t
        ensures t[j].lastActivity < t[k].lastActivity <==> u[j].lastActivity < u[k].lastActivity
      {
        if j != h && k != h {
          assert j in t - {h} && k in t - {h};
        }
      }
      forall k | k in t
        ensures t[k].value == u[k].value
      {
        if k != h { assert k in t - {h}; }
      }
    }
  }
}
