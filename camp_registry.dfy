/** The in-memory registry of known handles of
    server/modules/contribution/index.js (`Handles`): one set of handle
    ids per camp, filled from the `handle` table at start-up and kept up
    to date as handles are created and removed. */
module CampRegistry {
  import opened Js
  import opened Records

  /** Camp id to the ids of that camp's handles. */
  type Store = map<int, set<string>>

  /** The store's keys in the order `Object.entries` and `Object.values`
      visit them: integer-like keys ascend. */
  const CampOrder: seq<int> := [PolicyMaker, Youth, Broker]

  /** The shape the store always has: exactly the three camps. */
  predicate WellFormed(store: Store)
  {
    store.Keys == {PolicyMaker, Youth, Broker}
  }

  /** The first camp, in the given key order, whose set holds `id`. */
  function FirstCamp(order: seq<int>, store: Store, id: string): (r: Option<int>)
    ensures r.Some? ==> r.value in order && r.value in store && id in store[r.value]
    ensures r.None? ==> forall c | c in order && c in store :: id !in store[c]
  {
    if order == [] then None
    else if order[0] in store && id in store[order[0]] then Some(order[0])
    else FirstCamp(order[1..], store, id)
  }

  /** `Handles.camp(id)`: the camp of the handle, `undefined` (None) when
      the id is unknown. */
  function CampOf(store: Store, id: string): Option<int>
  {
    FirstCamp(CampOrder, store, id)
  }

  /** `Handles.has(id)`. */
  predicate Known(store: Store, id: string)
  {
    exists c | c in store :: id in store[c]
  }

  /** `has(id)` holds exactly when `camp(id)` names a camp, and that camp's
      set holds the id. */
  lemma KnownIffCamp(store: Store, id: string)
    requires WellFormed(store)
    ensures Known(store, id) <==> CampOf(store, id).Some?
    ensures CampOf(store, id).Some? ==> id in store[CampOf(store, id).value]
  {
    if Known(store, id) {
      var c :| c in store && id in store[c];
      assert c in CampOrder;
    }
  }

  /** A handle that is in one camp only is reported in that camp. */
  lemma CampOfSingle(store: Store, id: string, camp: int)
    requires WellFormed(store) && camp in store && id in store[camp]
    requires forall c | c in store && c != camp :: id !in store[c]
    ensures CampOf(store, id) == Some(camp)
  {
    KnownIffCamp(store, id);
  }

  /** A handle row of the database: its id and its camp (null allowed). */
  datatype HandleRow = HandleRow(id: string, campId: Option<int>)

  /** The store after `add(row.camp_id, row.id)` for each row in turn,
      skipping the rows whose camp is not one of the store's keys (the
      query `whereIn('camp_id', keys)` leaves those out). */
  function Loaded(store: Store, rows: seq<HandleRow>): (r: Store)
    ensures r.Keys == store.Keys
    decreases |rows|
  {
    if rows == [] then store
    else
      var s := Loaded(store, rows[..|rows| - 1]);
      var row := rows[|rows| - 1];
      if row.campId.Some? && row.campId.value in s then s[row.campId.value := s[row.campId.value] + {row.id}]
      else s
  }

  /** After loading, a camp holds what it held before and the ids of the
      rows of that camp, and nothing else. */
  lemma {:induction false} LoadedContents(store: Store, rows: seq<HandleRow>, c: int, id: string)
    requires c in store
    ensures id in Loaded(store, rows)[c] <==>
            id in store[c] || exists i | 0 <= i < |rows| :: rows[i] == HandleRow(id, Some(c))
    decreases |rows|
  {
    if rows != [] {
      var init := rows[..|rows| - 1];
      LoadedContents(store, init, c, id);
      if exists i | 0 <= i < |rows| :: rows[i] == HandleRow(id, Some(c)) {
        var i :| 0 <= i < |rows| && rows[i] == HandleRow(id, Some(c));
        if i < |init| {
          assert init[i] == rows[i];
        }
      }
      if exists i | 0 <= i < |init| :: init[i] == HandleRow(id, Some(c)) {
        var i :| 0 <= i < |init| && init[i] == HandleRow(id, Some(c));
        assert rows[i] == init[i];
      }
    }
  }

  class Handles {
    var store: Store

    /** The three empty sets. */
    constructor ()
      ensures WellFormed(store)
      ensures forall c | c in store :: store[c] == {}
    {
      store := map[PolicyMaker := {}, Youth := {}, Broker := {}];
    }

    /** `add(camp, id)`; a camp that is not a key of the store makes the
        source throw (`undefined.add`), reported here as `ok == false`. */
    method Add(camp: int, id: string) returns (ok: bool)
      modifies this
      ensures ok <==> camp in old(store)
      ensures store == if ok then old(store)[camp := old(store)[camp] + {id}] else old(store)
    {
      if camp in store {
        store := store[camp := store[camp] + {id}];
        ok := true;
      } else {
        ok := false;
      }
    }

    /** `delete(camp, id)`, failing like `add` on an unknown camp. */
    method Delete(camp: int, id: string) returns (ok: bool)
      modifies this
      ensures ok <==> camp in old(store)
      ensures store == if ok then old(store)[camp := old(store)[camp] - {id}] else old(store)
    {
      if camp in store {
        store := store[camp := store[camp] - {id}];
        ok := true;
      } else {
        ok := false;
      }
    }

    /** `init()`: adds every fetched handle whose camp is one of the store's
        keys; the query leaves out the others, so no `add` throws. */
    method Init(rows: seq<HandleRow>)
      modifies this
      ensures store == Loaded(old(store), rows)
    {
      var i := 0;
      while i < |rows|
        invariant 0 <= i <= |rows|
        invariant store == Loaded(old(store), rows[..i])
      {
        var row := rows[i];
        if row.campId.Some? && row.campId.value in store {
          var _ := Add(row.campId.value, row.id);
        }
        assert rows[..i + 1][..i] == rows[..i];
        i := i + 1;
      }
      assert rows[..i] == rows;
    }

    /** `has(id)`: scans the camps' sets in key order. */
    method Has(id: string) returns (b: bool)
      requires WellFormed(store)
      ensures b <==> Known(store, id)
    {
      var i := 0;
      while i < |CampOrder|
        invariant 0 <= i <= |CampOrder|
        invariant forall j | 0 <= j < i :: id !in store[CampOrder[j]]
      {
        if id in store[CampOrder[i]] {
          return true;
        }
        i := i + 1;
      }
      assert forall c | c in store :: c == CampOrder[0] || c == CampOrder[1] || c == CampOrder[2];
      b := false;
    }

    /** `camp(id)`: the first camp, in key order, whose set holds the id. */
    method Camp(id: string) returns (r: Option<int>)
      requires WellFormed(store)
      ensures r == CampOf(store, id)
    {
      var i := 0;
      while i < |CampOrder|
        invariant 0 <= i <= |CampOrder|
        invariant FirstCamp(CampOrder[i..], store, id) == CampOf(store, id)
      {
        if id in store[CampOrder[i]] {
          return Some(CampOrder[i]);
        }
        i := i + 1;
      }
      r := None;
    }
  }

  /** `add` and `delete` keep the store's shape and touch only the named
      camp's set; `delete` after `add` of a new id restores the store. */
  lemma AddDeleteLocal(store: Store, camp: int, id: string)
    requires WellFormed(store) && camp in store && id !in store[camp]
    ensures WellFormed(store[camp := store[camp] + {id}])
    ensures var added := store[camp := store[camp] + {id}];
            added[camp := added[camp] - {id}] == store
  {
    var added := store[camp := store[camp] + {id}];
    assert added[camp] - {id} == store[camp];
  }

  /** Once deleted from its only camp, an id is no longer known. */
  lemma DeleteForgets(store: Store, camp: int, id: string)
    requires WellFormed(store) && camp in store
    requires forall c | c in store && c != camp :: id !in store[c]
    ensures !Known(store[camp := store[camp] - {id}], id)
    ensures CampOf(store[camp := store[camp] - {id}], id) == None
  {
    KnownIffCamp(store[camp := store[camp] - {id}], id);
  }
}
