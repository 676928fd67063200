/**
 * The first half of `load_db` (things2md.py:42-61): the status filter, the
 * one-record-per-UUID registry, the reduction of nested records to UUID lists,
 * and one registry entry per source list.
 */
module Registry {
  import opened ThingsData

  // ---------------------------------------------------------------------------
  // Status filter and deduplication (things2md.py:43-52)
  // ---------------------------------------------------------------------------

  /** A record passes the filter unless `allTodos` is off and it has a status other than 'incomplete'. */
  predicate Kept(it: Item, allTodos: bool) {
    allTodos || it.status.None? || it.status.value == "incomplete"
  }

  /** Every record of every list, list after list, each list in its own order. */
  function Flatten(db: seq<SourceList>): seq<Item> {
    if db == [] then [] else Flatten(db[..|db| - 1]) + db[|db| - 1].items
  }

  /** One step of the registry loop: skip, check against the stored record, or store. */
  function AddItem(m: map<string, Item>, it: Item, allTodos: bool): Result<map<string, Item>, Error> {
    if !Kept(it, allTodos) then Ok(m)
    else if it.uuid in m then (if it == m[it.uuid] then Ok(m) else Err(DivergentDuplicate))
    else Ok(m[it.uuid := it])
  }

  /** The registry the loop builds from `items`, processed left to right. */
  function Register(items: seq<Item>, allTodos: bool): Result<map<string, Item>, Error> {
    if items == [] then Ok(map[])
    else
      match Register(items[..|items| - 1], allTodos)
      case Err(e) => Err(e)
      case Ok(m) => AddItem(m, items[|items| - 1], allTodos)
  }

  /** The UUIDs of the records that pass the filter. */
  function KeptUuids(items: seq<Item>, allTodos: bool): set<string> {
    set i | 0 <= i < |items| && Kept(items[i], allTodos) :: items[i].uuid
  }

  /** The registry loop fails only on a divergent duplicate. */
  lemma {:induction false} RegisterErrKind(items: seq<Item>, allTodos: bool)
    requires Register(items, allTodos).Err?
    ensures Register(items, allTodos).error == DivergentDuplicate
  {
    if Register(items[..|items| - 1], allTodos).Err? {
      RegisterErrKind(items[..|items| - 1], allTodos);
    }
  }

  /** Any two kept records with the same UUID are equal. */
  predicate Consistent(items: seq<Item>, allTodos: bool) {
    forall i, j | 0 <= i < |items| && 0 <= j < |items| ::
      Kept(items[i], allTodos) && Kept(items[j], allTodos) && items[i].uuid == items[j].uuid
      ==> items[i] == items[j]
  }

  /** A failed registry comes from two kept records with one UUID that differ. */
  lemma {:induction false} RegisterErrMeaning(items: seq<Item>, allTodos: bool)
    requires Register(items, allTodos).Err?
    ensures !Consistent(items, allTodos)
  {
    var n := |items| - 1;
    var init, last := items[..n], items[n];
    assert forall i | 0 <= i < n :: items[i] == init[i];
    if Register(init, allTodos).Err? {
      RegisterErrMeaning(init, allTodos);
      var i, j :| 0 <= i < n && 0 <= j < n && Kept(init[i], allTodos) && Kept(init[j], allTodos)
        && init[i].uuid == init[j].uuid && init[i] != init[j];
      assert items[i] == init[i] && items[j] == init[j];
    } else {
      var m := Register(init, allTodos).value;
      RegisterOkMeaning(init, allTodos);
      assert Kept(last, allTodos) && last.uuid in m && last != m[last.uuid];
      var i :| 0 <= i < n && Kept(init[i], allTodos) && init[i].uuid == last.uuid;
      assert items[i] == m[last.uuid];
    }
  }

  lemma {:induction false} RegisterOkKeys(items: seq<Item>, allTodos: bool)
    requires Register(items, allTodos).Ok?
    ensures Register(items, allTodos).value.Keys == KeptUuids(items, allTodos)
  {
    if items != [] {
      var n := |items| - 1;
      var init, last := items[..n], items[n];
      RegisterOkKeys(init, allTodos);
      KeptUuidsSnoc(items, allTodos);
    }
  }

  /** The kept UUIDs grow by the last record's UUID when it is kept. */
  lemma KeptUuidsSnoc(items: seq<Item>, allTodos: bool)
    requires items != []
    ensures var n := |items| - 1;
      KeptUuids(items, allTodos) == KeptUuids(items[..n], allTodos) + (if Kept(items[n], allTodos) then {items[n].uuid} else {})
  {
    var n := |items| - 1;
    assert forall i | 0 <= i < n :: items[i] == items[..n][i];
  }

  lemma {:induction false} RegisterOkContents(items: seq<Item>, allTodos: bool)
    requires Register(items, allTodos).Ok?
    ensures forall i | 0 <= i < |items| && Kept(items[i], allTodos) ::
      items[i].uuid in Register(items, allTodos).value && Register(items, allTodos).value[items[i].uuid] == items[i]
  {
    RegisterOkKeys(items, allTodos);
    if items != [] {
      var n := |items| - 1;
      var init, last := items[..n], items[n];
      RegisterOkContents(init, allTodos);
      RegisterOkKeys(init, allTodos);
      var m := Register(init, allTodos).value;
      var r := Register(items, allTodos).value;
      forall i | 0 <= i < |items| && Kept(items[i], allTodos) ensures r[items[i].uuid] == items[i] {
        if i < n {
          assert items[i] == init[i];
          assert items[i].uuid in m;
          if Kept(last, allTodos) && last.uuid !in m {
            assert items[i].uuid != last.uuid;
          }
        }
      }
    }
  }

  /**
   * A registry that succeeds comes from consistent records; its keys are the kept
   * UUIDs and each holds the record that carries it, so a record dropped by the
   * filter enters only through an equal-UUID record that passes it.
   */
  lemma RegisterOkMeaning(items: seq<Item>, allTodos: bool)
    requires Register(items, allTodos).Ok?
    ensures Consistent(items, allTodos)
    ensures Register(items, allTodos).value.Keys == KeptUuids(items, allTodos)
    ensures forall i | 0 <= i < |items| && Kept(items[i], allTodos) ::
      Register(items, allTodos).value[items[i].uuid] == items[i]
  {
    RegisterOkKeys(items, allTodos);
    RegisterOkContents(items, allTodos);
  }

  /** The registry fails exactly when two kept records share a UUID but differ. */
  lemma RegisterOkIffConsistent(items: seq<Item>, allTodos: bool)
    ensures Register(items, allTodos).Ok? <==> Consistent(items, allTodos)
  {
    if Register(items, allTodos).Ok? {
      RegisterOkMeaning(items, allTodos);
    } else {
      RegisterErrMeaning(items, allTodos);
    }
  }

  /** Once the registry has failed, later records do not change the outcome. */
  lemma {:induction false} RegisterErrSticky(items: seq<Item>, more: seq<Item>, allTodos: bool)
    requires Register(items, allTodos).Err?
    ensures Register(items + more, allTodos) == Register(items, allTodos)
  {
    if more == [] {
      assert items + more == items;
    } else {
      var n := |more| - 1;
      var s := items + more;
      RegisterErrSticky(items, more[..n], allTodos);
      assert s == (items + more[..n]) + [more[n]];
      RegisterSnoc(items + more[..n], more[n], allTodos);
    }
  }

  lemma {:induction false} FlattenAppend(a: seq<SourceList>, b: seq<SourceList>)
    ensures Flatten(a + b) == Flatten(a) + Flatten(b)
  {
    if b == [] {
      assert a + b == a;
    } else {
      var n := |b| - 1;
      var s := a + b;
      FlattenAppend(a, b[..n]);
      assert s[..|s| - 1] == a + b[..n];
      assert s[|s| - 1] == b[n];
      assert Flatten(s) == Flatten(a + b[..n]) + b[n].items;
      assert Flatten(b) == Flatten(b[..n]) + b[n].items;
      assert (Flatten(a) + Flatten(b[..n])) + b[n].items == Flatten(a) + (Flatten(b[..n]) + b[n].items);
    }
  }

  lemma RegisterSnoc(items: seq<Item>, it: Item, allTodos: bool)
    ensures Register(items + [it], allTodos) ==
      if Register(items, allTodos).Err? then Register(items, allTodos)
      else AddItem(Register(items, allTodos).value, it, allTodos)
  {
    assert (items + [it])[..|items|] == items;
  }

  /** The inner loop of things2md.py:44-52: the records of one list, after `done`. */
  method RegisterList(ghost done: seq<Item>, items: seq<Item>, uuids0: map<string, Item>, allTodos: bool)
    returns (r: Result<map<string, Item>, Error>)
    requires Register(done, allTodos) == Ok(uuids0)
    ensures r == Register(done + items, allTodos)
  {
    var uuids := uuids0;
    var j := 0;
    assert done + items[..0] == done;
    while j < |items|
      invariant 0 <= j <= |items|
      invariant Register(done + items[..j], allTodos) == Ok(uuids)
    {
      var item := items[j];
      RegisterStep(done, items, j, allTodos);
      if !Kept(item, allTodos) {
        j := j + 1;
        continue;  // filter everything but 'incomplete'
      }
      if item.uuid in uuids {
        if item != uuids[item.uuid] {
          RegisterRestErr(done, items, j + 1, allTodos);
          return Err(DivergentDuplicate);
        }
      } else {
        uuids := uuids[item.uuid := item];
      }
      j := j + 1;
    }
    assert items[..j] == items;
    r := Ok(uuids);
  }

  /** One more record of the list is one more step of `Register`. */
  lemma RegisterStep(done: seq<Item>, items: seq<Item>, j: int, allTodos: bool)
    requires 0 <= j < |items|
    ensures Register(done + items[..j + 1], allTodos) ==
      if Register(done + items[..j], allTodos).Err? then Register(done + items[..j], allTodos)
      else AddItem(Register(done + items[..j], allTodos).value, items[j], allTodos)
  {
    assert done + items[..j + 1] == (done + items[..j]) + [items[j]];
    RegisterSnoc(done + items[..j], items[j], allTodos);
  }

  /** A failure within the list is the failure of the whole list. */
  lemma RegisterRestErr(done: seq<Item>, items: seq<Item>, j: int, allTodos: bool)
    requires 0 <= j <= |items| && Register(done + items[..j], allTodos).Err?
    ensures Register(done + items, allTodos) == Register(done + items[..j], allTodos)
  {
    RegisterErrSticky(done + items[..j], items[j..], allTodos);
    assert (done + items[..j]) + items[j..] == done + items;
  }

  /** The registry loop of things2md.py:43-52. */
  method RegisterAll(db: seq<SourceList>, allTodos: bool) returns (r: Result<map<string, Item>, Error>)
    ensures r == Register(Flatten(db), allTodos)
  {
    var uuids: map<string, Item> := map[];
    var i := 0;
    while i < |db|
      invariant 0 <= i <= |db|
      invariant Register(Flatten(db[..i]), allTodos) == Ok(uuids)
    {
      r := RegisterList(Flatten(db[..i]), db[i].items, uuids, allTodos);
      FlattenStep(db, i);
      if r.Err? {
        FlattenRestErr(db, i + 1, allTodos);
        return;
      }
      uuids := r.value;
      i := i + 1;
    }
    assert db[..i] == db;
    r := Ok(uuids);
  }

  lemma FlattenStep(db: seq<SourceList>, i: int)
    requires 0 <= i < |db|
    ensures Flatten(db[..i + 1]) == Flatten(db[..i]) + db[i].items
  {
    assert db[..i + 1][..i] == db[..i];
  }

  /** A failure after the first `i` lists is the failure of all of them. */
  lemma FlattenRestErr(db: seq<SourceList>, i: int, allTodos: bool)
    requires 0 <= i <= |db| && Register(Flatten(db[..i]), allTodos).Err?
    ensures Register(Flatten(db), allTodos) == Register(Flatten(db[..i]), allTodos)
  {
    FlattenAppend(db[..i], db[i..]);
    assert db[..i] + db[i..] == db;
    RegisterErrSticky(Flatten(db[..i]), Flatten(db[i..]), allTodos);
  }

  // ---------------------------------------------------------------------------
  // Nested records become UUID lists (things2md.py:54-56)
  // ---------------------------------------------------------------------------

  /** A registry record with its nested records replaced by their UUIDs. */
  function Dry(it: Item): Entry {
    Entry(it.uuid, it.kind, it.title, it.status, it.heading, it.project, it.area,
          match it.items case None => None case Some(xs) => Some(Uuids(xs)),
          it.other, "", None, None)
  }

  function DryAll(m: map<string, Item>): map<string, Entry> {
    map k | k in m :: Dry(m[k])
  }

  /** The registry stores every record under its own UUID, and reducing it keeps that. */
  lemma RegisterKeyed(items: seq<Item>, allTodos: bool)
    requires Register(items, allTodos).Ok?
    ensures KeyedByUuid(DryAll(Register(items, allTodos).value))
  {
    RegisterOkKeys(items, allTodos);
    RegisterOkContents(items, allTodos);
    var r := Register(items, allTodos).value;
    forall k | k in r ensures r[k].uuid == k {
      var i :| 0 <= i < |items| && Kept(items[i], allTodos) && items[i].uuid == k;
    }
  }

  /** The loop of things2md.py:54-56 over every registry record. */
  method DryChildLists(m: map<string, Item>) returns (r: map<string, Entry>)
    ensures r == DryAll(m)
  {
    r := map[];
    var todo := m.Keys;
    while todo != {}
      invariant todo <= m.Keys
      invariant r.Keys == m.Keys - todo
      invariant forall k | k in r :: r[k] == Dry(m[k])
      decreases |todo|
    {
      var k :| k in todo;
      r := r[k := Dry(m[k])];
      todo := todo - {k};
    }
  }

  /** Reducing nested records keeps every other field and lists the children's UUIDs in order. */
  lemma DryKeepsRecord(it: Item)
    requires it.items.Some?
    ensures Dry(it).uuid == it.uuid && Dry(it).status == it.status && Dry(it).kind == it.kind
    ensures Dry(it).items.Some? && |Dry(it).items.value| == |it.items.value|
    ensures forall i | 0 <= i < |it.items.value| :: Dry(it).items.value[i] == it.items.value[i].uuid
  {
  }

  // ---------------------------------------------------------------------------
  // One entry per source list (things2md.py:58-61)
  // ---------------------------------------------------------------------------

  /** The entry recorded for a list: its title as UUID, type and title, and its members. */
  function ListEntry(title: string, ids: seq<string>): Entry {
    Entry(title, title, title, None, None, None, None, Some(ids), map[], "", None, None)
  }

  /** The source's test `len(ids) == len(set(ids))`. */
  predicate NoRepeats(ids: seq<string>) {
    |ids| == |Members(ids)|
  }

  /** `set(ids)`. */
  function Members(ids: seq<string>): set<string> {
    set x | x in ids
  }

  predicate Distinct(ids: seq<string>) {
    forall i, j | 0 <= i < j < |ids| :: ids[i] != ids[j]
  }

  /** The cardinality test holds exactly when no UUID occurs twice. */
  lemma {:induction false} NoRepeatsIffDistinct(ids: seq<string>)
    ensures |Members(ids)| <= |ids|
    ensures NoRepeats(ids) <==> Distinct(ids)
  {
    if ids != [] {
      var n := |ids| - 1;
      var init := ids[..n];
      NoRepeatsIffDistinct(init);
      MembersSnoc(ids);
      if ids[n] in init {
        RepeatedLast(ids);
      } else {
        assert |Members(ids)| == |Members(init)| + 1;
        DistinctSnoc(ids);
      }
    }
  }

  lemma MembersSnoc(ids: seq<string>)
    requires ids != []
    ensures Members(ids) == Members(ids[..|ids| - 1]) + {ids[|ids| - 1]}
  {
    var n := |ids| - 1;
    assert ids == ids[..n] + [ids[n]];
  }

  /** A last UUID that already occurred adds no member and breaks distinctness. */
  lemma RepeatedLast(ids: seq<string>)
    requires ids != [] && ids[|ids| - 1] in ids[..|ids| - 1]
    requires Members(ids) == Members(ids[..|ids| - 1]) + {ids[|ids| - 1]}
    ensures Members(ids) == Members(ids[..|ids| - 1])
    ensures !Distinct(ids)
  {
    var n := |ids| - 1;
    var i :| 0 <= i < n && ids[..n][i] == ids[n];
    assert ids[i] == ids[n];
  }

  /** A new last UUID keeps distinctness as it was. */
  lemma DistinctSnoc(ids: seq<string>)
    requires ids != [] && ids[|ids| - 1] !in ids[..|ids| - 1]
    ensures Distinct(ids) <==> Distinct(ids[..|ids| - 1])
  {
    var n := |ids| - 1;
    var init := ids[..n];
    assert forall i | 0 <= i < n :: ids[i] == init[i];
    if Distinct(init) {
      forall i, j | 0 <= i < j < |ids| ensures ids[i] != ids[j] {
        if j == n {
          assert ids[i] == init[i];
        }
      }
    }
  }

  /** The registry after the list loop has processed `db`. */
  function IndexLists(m: map<string, Entry>, db: seq<SourceList>): Result<map<string, Entry>, Error> {
    if db == [] then Ok(m)
    else
      match IndexLists(m, db[..|db| - 1])
      case Err(e) => Err(e)
      case Ok(m') =>
        var l := db[|db| - 1];
        var ids := Uuids(l.items);
        if NoRepeats(ids) then Ok(m'[l.title := ListEntry(l.title, ids)]) else Err(DuplicateInList)
  }

  function Titles(db: seq<SourceList>): set<string> {
    set i | 0 <= i < |db| :: db[i].title
  }

  /** No later list of `db` carries the title of list `i`. */
  predicate LastWithTitle(db: seq<SourceList>, i: int)
    requires 0 <= i < |db|
  {
    forall j | i < j < |db| :: db[j].title != db[i].title
  }

  lemma IndexSnoc(m: map<string, Entry>, db: seq<SourceList>, l: SourceList)
    ensures IndexLists(m, db + [l]) ==
      if IndexLists(m, db).Err? then IndexLists(m, db)
      else if NoRepeats(Uuids(l.items)) then Ok(IndexLists(m, db).value[l.title := ListEntry(l.title, Uuids(l.items))])
      else Err(DuplicateInList)
  {
    assert (db + [l])[..|db|] == db;
  }

  /** A list entry is stored under its title, which is also its UUID, so the list loop keeps the registry keyed by UUID. */
  lemma {:induction false} IndexListsKeyed(m: map<string, Entry>, db: seq<SourceList>)
    requires KeyedByUuid(m) && IndexLists(m, db).Ok?
    ensures KeyedByUuid(IndexLists(m, db).value)
  {
    if db != [] {
      var n := |db| - 1;
      IndexSnoc(m, db[..n], db[n]);
      assert db[..n] + [db[n]] == db;
      IndexListsKeyed(m, db[..n]);
    }
  }

  /** A failed list loop comes from a list that names some UUID twice. */
  lemma {:induction false} IndexListsErr(m: map<string, Entry>, db: seq<SourceList>)
    requires IndexLists(m, db).Err?
    ensures exists i | 0 <= i < |db| :: !Distinct(Uuids(db[i].items))
  {
    var n := |db| - 1;
    assert db == db[..n] + [db[n]];
    IndexSnoc(m, db[..n], db[n]);
    if IndexLists(m, db[..n]).Err? {
      IndexListsErr(m, db[..n]);
      var i :| 0 <= i < n && !Distinct(Uuids(db[..n][i].items));
      assert db[..n][i] == db[i];
    } else {
      NoRepeatsIffDistinct(Uuids(db[n].items));
    }
  }

  /** A successful list loop met only lists that name each UUID at most once. */
  lemma {:induction false} IndexListsOkDistinct(m: map<string, Entry>, db: seq<SourceList>)
    requires IndexLists(m, db).Ok?
    ensures forall i | 0 <= i < |db| :: Distinct(Uuids(db[i].items))
  {
    if db != [] {
      var n := |db| - 1;
      var init := db[..n];
      assert db == init + [db[n]];
      IndexSnoc(m, init, db[n]);
      IndexListsOkDistinct(m, init);
      NoRepeatsIffDistinct(Uuids(db[n].items));
      assert forall i | 0 <= i < n :: db[i] == init[i];
    }
  }

  /** A successful list loop adds exactly the list titles as keys and leaves every other key as it was. */
  lemma {:induction false} IndexListsOkKeys(m: map<string, Entry>, db: seq<SourceList>)
    requires IndexLists(m, db).Ok?
    ensures IndexLists(m, db).value.Keys == m.Keys + Titles(db)
    ensures forall k | k in m && k !in Titles(db) :: IndexLists(m, db).value[k] == m[k]
  {
    if db != [] {
      var n := |db| - 1;
      var init := db[..n];
      assert db == init + [db[n]];
      IndexSnoc(m, init, db[n]);
      IndexListsOkKeys(m, init);
      TitlesSnoc(db);
    }
  }

  lemma TitlesSnoc(db: seq<SourceList>)
    requires db != []
    ensures Titles(db) == Titles(db[..|db| - 1]) + {db[|db| - 1].title}
  {
    var n := |db| - 1;
    assert forall i | 0 <= i < n :: db[i] == db[..n][i];
  }

  /** The entry of each list title holds the members of the last list with that title, in input order. */
  lemma {:induction false} IndexListsOkEntries(m: map<string, Entry>, db: seq<SourceList>)
    requires IndexLists(m, db).Ok?
    ensures forall i | 0 <= i < |db| && LastWithTitle(db, i) ::
      db[i].title in IndexLists(m, db).value &&
      IndexLists(m, db).value[db[i].title] == ListEntry(db[i].title, Uuids(db[i].items))
  {
    if db != [] {
      var n := |db| - 1;
      var init := db[..n];
      assert db == init + [db[n]];
      IndexSnoc(m, init, db[n]);
      IndexListsOkEntries(m, init);
      var r0, r := IndexLists(m, init).value, IndexLists(m, db).value;
      assert r == r0[db[n].title := ListEntry(db[n].title, Uuids(db[n].items))];
      forall i | 0 <= i < n && LastWithTitle(db, i)
        ensures db[i].title in r && r[db[i].title] == ListEntry(db[i].title, Uuids(db[i].items))
      {
        LastWithTitleInit(db, i);
      }
    }
  }

  /** A list that is last with its title stays so without the final list, whose title differs. */
  lemma LastWithTitleInit(db: seq<SourceList>, i: int)
    requires 0 <= i < |db| - 1 && LastWithTitle(db, i)
    ensures db[..|db| - 1][i] == db[i] && LastWithTitle(db[..|db| - 1], i)
    ensures db[|db| - 1].title != db[i].title
  {
  }

  /**
   * The list loop fails exactly when some list names a UUID twice. This check reads
   * the raw lists, so records dropped by the status filter still take part.
   */
  lemma IndexListsOkIff(m: map<string, Entry>, db: seq<SourceList>)
    ensures IndexLists(m, db).Ok? <==> forall i | 0 <= i < |db| :: Distinct(Uuids(db[i].items))
  {
    if IndexLists(m, db).Ok? {
      IndexListsOkDistinct(m, db);
    } else {
      IndexListsErr(m, db);
    }
  }

  /** The list loop fails only on a list that names a UUID twice. */
  lemma {:induction false} IndexListsErrKind(m: map<string, Entry>, db: seq<SourceList>)
    requires IndexLists(m, db).Err?
    ensures IndexLists(m, db).error == DuplicateInList
  {
    if IndexLists(m, db[..|db| - 1]).Err? {
      IndexListsErrKind(m, db[..|db| - 1]);
    }
  }

  /** The list loop of things2md.py:58-61. */
  method IndexAll(m: map<string, Entry>, db: seq<SourceList>) returns (r: Result<map<string, Entry>, Error>)
    ensures r == IndexLists(m, db)
  {
    var uuids := m;
    var i := 0;
    while i < |db|
      invariant 0 <= i <= |db|
      invariant IndexLists(m, db[..i]) == Ok(uuids)
    {
      IndexStep(m, db, i);
      var itemsUuids := Uuids(db[i].items);
      if |itemsUuids| != |Members(itemsUuids)| {
        IndexRestErr(m, db, i + 1);
        return Err(DuplicateInList);
      }
      uuids := uuids[db[i].title := ListEntry(db[i].title, itemsUuids)];
      i := i + 1;
    }
    assert db[..i] == db;
    r := Ok(uuids);
  }

  /** One more list is one more step of `IndexLists`. */
  lemma IndexStep(m: map<string, Entry>, db: seq<SourceList>, i: int)
    requires 0 <= i < |db|
    ensures IndexLists(m, db[..i + 1]) ==
      if IndexLists(m, db[..i]).Err? then IndexLists(m, db[..i])
      else if NoRepeats(Uuids(db[i].items)) then Ok(IndexLists(m, db[..i]).value[db[i].title := ListEntry(db[i].title, Uuids(db[i].items))])
      else Err(DuplicateInList)
  {
    assert db[..i + 1] == db[..i] + [db[i]];
    IndexSnoc(m, db[..i], db[i]);
  }

  /** A failure after the first `i` lists is the failure of all of them. */
  lemma IndexRestErr(m: map<string, Entry>, db: seq<SourceList>, i: int)
    requires 0 <= i <= |db| && IndexLists(m, db[..i]).Err?
    ensures IndexLists(m, db) == IndexLists(m, db[..i])
  {
    IndexErrSticky(m, db[..i], db[i..]);
    assert db[..i] + db[i..] == db;
  }

  lemma {:induction false} IndexErrSticky(m: map<string, Entry>, db: seq<SourceList>, more: seq<SourceList>)
    requires IndexLists(m, db).Err?
    ensures IndexLists(m, db + more) == IndexLists(m, db)
  {
    if more == [] {
      assert db + more == db;
    } else {
      var n := |more| - 1;
      IndexErrSticky(m, db, more[..n]);
      assert (db + more)[..|db + more| - 1] == db + more[..n];
    }
  }
}
