/**
 * `load_db` (things2md.py:9-98) as a whole: from the lists of a Things3 export
 * to a registry keyed by UUID in which every record that is not a heading has
 * its own relative path.
 */
module LoadDb {
  import opened ThingsData
  import opened Registry
  import opened Hierarchy
  import opened Paths
  import opened Collisions

  /** The registry before the path walk: records, child lists, list entries, filenames and parents. */
  function Linked(db: seq<SourceList>, allTodos: bool): Result<map<string, Entry>, Error> {
    match Register(Flatten(db), allTodos)
    case Err(e) => Err(e)
    case Ok(items) =>
      match IndexLists(DryAll(items), db)
      case Err(e) => Err(e)
      case Ok(m) => LinkAll(m)
  }

  /**
   * The parent links of the linked registry have no cycle. On a cycle the source's
   * walk (things2md.py:79-83) never ends, so this is what it asks of its input.
   */
  predicate AcyclicInput(db: seq<SourceList>, allTodos: bool) {
    Linked(db, allTodos).Ok? ==> Acyclic(Linked(db, allTodos).value)
  }

  /** What `load_db` returns, or the first check that stops it. */
  function Load(db: seq<SourceList>, allTodos: bool): Result<map<string, Entry>, Error>
    requires AcyclicInput(db, allTodos)
  {
    match Linked(db, allTodos)
    case Err(e) => Err(e)
    case Ok(m) =>
      match ResolvePaths(m)
      case Err(e) => Err(e)
      case Ok(p) =>
        match ResolveCollisions(p)
        case Err(e) => Err(e)
        case Ok(d) => if ShortEnough(d) then Ok(d) else Err(PathTooLong)
  }

  /** things2md.py:42-98, one phase after the other on the same registry. */
  method LoadDb(db: seq<SourceList>, allTodos: bool) returns (r: Result<map<string, Entry>, Error>)
    requires AcyclicInput(db, allTodos)
    ensures r == Load(db, allTodos)
  {
    var items := RegisterAll(db, allTodos);
    if items.Err? {
      return Err(items.error);
    }
    var dry := DryChildLists(items.value);
    var indexed := IndexAll(dry, db);
    if indexed.Err? {
      return Err(indexed.error);
    }
    var linked := AssignParents(indexed.value);
    if linked.Err? {
      return Err(linked.error);
    }
    var walked := BuildPaths(linked.value);
    if walked.Err? {
      return Err(walked.error);
    }
    r := ResolveAll(walked.value);
    if r.Ok? {
      var ok := CheckLengths(r.value);
      if !ok {
        r := Err(PathTooLong);
      }
    }
  }

  // ---------------------------------------------------------------------------
  // What a successful load promises
  // ---------------------------------------------------------------------------

  /** A successful load passed every phase; its result is the renamed registry. */
  lemma LoadStages(db: seq<SourceList>, allTodos: bool)
    requires AcyclicInput(db, allTodos) && Load(db, allTodos).Ok?
    ensures Linked(db, allTodos).Ok?
    ensures var m := Linked(db, allTodos).value;
      && ResolvePaths(m).Ok? && Dedupe(ResolvePaths(m).value).Ok?
      && Load(db, allTodos).value == Dedupe(ResolvePaths(m).value).value
  {
  }

  /** The later phases only assign `fullpath`; exactly the headings end without one. */
  lemma LoadKeepsLinked(db: seq<SourceList>, allTodos: bool)
    requires AcyclicInput(db, allTodos) && Load(db, allTodos).Ok?
    ensures Linked(db, allTodos).Ok?
    ensures Load(db, allTodos).value.Keys == Linked(db, allTodos).value.Keys
    ensures forall k | k in Linked(db, allTodos).value ::
      var e := Load(db, allTodos).value[k];
      && e == Linked(db, allTodos).value[k].(fullpath := e.fullpath)
      && (e.fullpath.None? <==> e.kind == HeadingKind)
  {
    LoadStages(db, allTodos);
    var m := Linked(db, allTodos).value;
    var p := ResolvePaths(m).value;
    ResolvePathsShape(m);
    DedupeRewritesShared(p);
    var d := Dedupe(p).value;
    forall k | k in m
      ensures d[k] == m[k].(fullpath := d[k].fullpath) && (d[k].fullpath.None? <==> d[k].kind == HeadingKind)
    {
      assert p[k] == m[k].(fullpath := p[k].fullpath);
    }
  }

  /** The linked registry holds the kept records and the list entries, with filenames and parents. */
  lemma LinkedShape(db: seq<SourceList>, allTodos: bool)
    requires Linked(db, allTodos).Ok?
    ensures Register(Flatten(db), allTodos).Ok?
    ensures IndexLists(DryAll(Register(Flatten(db), allTodos).value), db).Ok?
    ensures var ix := IndexLists(DryAll(Register(Flatten(db), allTodos).value), db).value;
      && Linked(db, allTodos) == LinkAll(ix)
      && ix.Keys == KeptUuids(Flatten(db), allTodos) + Titles(db)
      && (forall i | 0 <= i < |Flatten(db)| && Kept(Flatten(db)[i], allTodos) && Flatten(db)[i].uuid !in Titles(db) ::
            ix[Flatten(db)[i].uuid] == Dry(Flatten(db)[i]))
      && (forall i | 0 <= i < |db| && LastWithTitle(db, i) :: ix[db[i].title] == ListEntry(db[i].title, Uuids(db[i].items)))
  {
    var items := Register(Flatten(db), allTodos).value;
    RegisterOkKeys(Flatten(db), allTodos);
    RegisterOkContents(Flatten(db), allTodos);
    IndexListsOkKeys(DryAll(items), db);
    IndexListsOkEntries(DryAll(items), db);
  }

  /** Every entry of the linked registry is stored under its own UUID. */
  lemma LinkedKeyed(db: seq<SourceList>, allTodos: bool)
    requires Linked(db, allTodos).Ok?
    ensures KeyedByUuid(Linked(db, allTodos).value)
  {
    LinkedShape(db, allTodos);
    RegisterKeyed(Flatten(db), allTodos);
    var ix := IndexLists(DryAll(Register(Flatten(db), allTodos).value), db).value;
    IndexListsKeyed(DryAll(Register(Flatten(db), allTodos).value), db);
    LinkAllKeepsRecords(ix);
  }

  /**
   * Records the path walk puts at the same path leave the renaming at different
   * paths: each gets its own UUID appended to its last segment.
   */
  lemma LoadSeparatesSharers(db: seq<SourceList>, allTodos: bool, k1: string, k2: string)
    requires AcyclicInput(db, allTodos) && Linked(db, allTodos).Ok?
    requires ResolvePaths(Linked(db, allTodos).value).Ok?
    requires var p := ResolvePaths(Linked(db, allTodos).value).value;
      && Dedupe(p).Ok? && k1 in p && k2 in p && k1 != k2
      && p[k1].fullpath.Some? && p[k1].fullpath == p[k2].fullpath
    ensures var d := Dedupe(ResolvePaths(Linked(db, allTodos).value).value).value;
      d[k1].fullpath != d[k2].fullpath
  {
    var m := Linked(db, allTodos).value;
    var p := ResolvePaths(m).value;
    LinkedKeyed(db, allTodos);
    ResolvePathsShape(m);
    assert KeyedByUuid(p) by {
      forall k | k in p ensures p[k].uuid == k {
        assert p[k] == m[k].(fullpath := p[k].fullpath);
      }
    }
    DedupeSeparatesSharers(p, k1, k2);
  }

  /** A record as linking leaves it: with filename and parent, in the precedence of things2md.py:66-72. */
  predicate LinkedRecord(it: Item, r: map<string, Entry>)
    requires it.uuid in r
  {
    && r[it.uuid] == Dry(it).(filename := FilenameOf(Dry(it)), parent := r[it.uuid].parent, fullpath := r[it.uuid].fullpath)
    && (it.heading.Some? ==> r[it.uuid].parent == it.heading)
    && (it.heading.None? && it.project.Some? ==> r[it.uuid].parent == it.project)
    && (it.heading.None? && it.project.None? && it.area.Some? ==> r[it.uuid].parent == it.area)
    && (it.heading.None? && it.project.None? && it.area.None? ==>
          InboxKey in r && r[InboxKey].items.Some? &&
          (r[it.uuid].parent == Some(InboxKey) <==> it.uuid in r[InboxKey].items.value) &&
          (r[it.uuid].parent.None? <==> it.uuid !in r[InboxKey].items.value))
  }

  /** Linking keeps every kept record whose UUID no list title shadows. */
  lemma LinkedRecords(db: seq<SourceList>, allTodos: bool, i: int)
    requires Linked(db, allTodos).Ok?
    requires 0 <= i < |Flatten(db)| && Kept(Flatten(db)[i], allTodos) && Flatten(db)[i].uuid !in Titles(db)
    ensures Flatten(db)[i].uuid in Linked(db, allTodos).value
    ensures LinkedRecord(Flatten(db)[i], Linked(db, allTodos).value)
  {
    LinkedShape(db, allTodos);
    var ix := IndexLists(DryAll(Register(Flatten(db), allTodos).value), db).value;
    LinkAllParents(ix);
    LinkAllKeepsRecords(ix);
    var it := Flatten(db)[i];
    assert it.uuid in KeptUuids(Flatten(db), allTodos);
    assert ix[it.uuid] == Dry(it);
  }

  /**
   * Every record that passes the filter, unless a list shares its UUID, is in the
   * result with its fields, its children's UUIDs in order, its filename, and a parent
   * chosen by the precedence heading, project, area, Inbox membership.
   */
  lemma LoadRecords(db: seq<SourceList>, allTodos: bool, i: int)
    requires AcyclicInput(db, allTodos) && Load(db, allTodos).Ok?
    requires 0 <= i < |Flatten(db)| && Kept(Flatten(db)[i], allTodos) && Flatten(db)[i].uuid !in Titles(db)
    ensures Flatten(db)[i].uuid in Load(db, allTodos).value
    ensures LinkedRecord(Flatten(db)[i], Load(db, allTodos).value)
  {
    LoadKeepsLinked(db, allTodos);
    LinkedRecords(db, allTodos, i);
    var it, m, r := Flatten(db)[i], Linked(db, allTodos).value, Load(db, allTodos).value;
    assert r[it.uuid] == m[it.uuid].(fullpath := r[it.uuid].fullpath);
    if it.heading.None? && it.project.None? && it.area.None? {
      assert r[InboxKey] == m[InboxKey].(fullpath := r[InboxKey].fullpath);
    }
  }

  /** Each list title maps to the UUIDs of the last list with that title, in order. */
  lemma LoadLists(db: seq<SourceList>, allTodos: bool, i: int)
    requires AcyclicInput(db, allTodos) && Load(db, allTodos).Ok?
    requires 0 <= i < |db| && LastWithTitle(db, i)
    ensures var r := Load(db, allTodos).value;
      && db[i].title in r
      && r[db[i].title].uuid == db[i].title && r[db[i].title].kind == db[i].title
      && r[db[i].title].items == Some(Uuids(db[i].items))
  {
    LinkedShape(db, allTodos);
    LoadKeepsLinked(db, allTodos);
    var ix := IndexLists(DryAll(Register(Flatten(db), allTodos).value), db).value;
    LinkAllKeepsRecords(ix);
  }

  /**
   * The keys are the UUIDs of the kept records and the list titles; without
   * `allTodos` only incomplete records and records without a status are kept.
   */
  lemma LoadKeys(db: seq<SourceList>, allTodos: bool)
    requires AcyclicInput(db, allTodos) && Load(db, allTodos).Ok?
    ensures Load(db, allTodos).value.Keys == KeptUuids(Flatten(db), allTodos) + Titles(db)
    ensures !allTodos ==> forall k | k in Load(db, allTodos).value && k !in Titles(db) ::
      var s := Load(db, allTodos).value[k].status;
      s.None? || s.value == "incomplete"
  {
    LinkedShape(db, allTodos);
    LoadKeepsLinked(db, allTodos);
    var ix := IndexLists(DryAll(Register(Flatten(db), allTodos).value), db).value;
    LinkAllKeepsRecords(ix);
    forall k | k in Load(db, allTodos).value && k !in Titles(db)
      ensures Load(db, allTodos).value[k].status == ix[k].status
    {
    }
  }

  /** Paths in the result are pairwise different and shorter than 256 characters. */
  lemma LoadPaths(db: seq<SourceList>, allTodos: bool)
    requires AcyclicInput(db, allTodos) && Load(db, allTodos).Ok?
    ensures DistinctPaths(Load(db, allTodos).value)
    ensures ShortEnough(Load(db, allTodos).value)
  {
  }

  // ---------------------------------------------------------------------------
  // Why a load fails
  // ---------------------------------------------------------------------------

  /** After linking, a load fails only in the path walk, the renaming or the length check. */
  lemma LoadLateErrors(db: seq<SourceList>, allTodos: bool)
    requires AcyclicInput(db, allTodos)
    ensures Linked(db, allTodos).Err? ==> Load(db, allTodos) == Linked(db, allTodos)
    ensures Linked(db, allTodos).Ok? && Load(db, allTodos).Err? ==>
      Load(db, allTodos).error in {MissingParent, InvalidRename, PathClash, PathTooLong}
  {
  }

  /**
   * Linking stops on a divergent duplicate exactly when two kept records share a
   * UUID but differ, and on a repeated list member exactly when that is not so but
   * some list names a UUID twice.
   */
  lemma LinkedEarlyErrors(db: seq<SourceList>, allTodos: bool)
    ensures Linked(db, allTodos) == Err(DivergentDuplicate) <==> !Consistent(Flatten(db), allTodos)
    ensures Linked(db, allTodos) == Err(DuplicateInList) <==>
      Consistent(Flatten(db), allTodos) && exists i | 0 <= i < |db| :: !Distinct(Uuids(db[i].items))
  {
    RegisterOkIffConsistent(Flatten(db), allTodos);
    match Register(Flatten(db), allTodos)
    case Err(_) =>
      RegisterErrKind(Flatten(db), allTodos);
    case Ok(items) =>
      IndexListsOkIff(DryAll(items), db);
      if IndexLists(DryAll(items), db).Err? {
        IndexListsErrKind(DryAll(items), db);
      }
  }

  /** The same two conditions decide the two early failures of the whole load. */
  lemma LoadEarlyErrors(db: seq<SourceList>, allTodos: bool)
    requires AcyclicInput(db, allTodos)
    ensures Load(db, allTodos) == Err(DivergentDuplicate) <==> !Consistent(Flatten(db), allTodos)
    ensures Load(db, allTodos) == Err(DuplicateInList) <==>
      Consistent(Flatten(db), allTodos) && exists i | 0 <= i < |db| :: !Distinct(Uuids(db[i].items))
  {
    LoadLateErrors(db, allTodos);
    LinkedEarlyErrors(db, allTodos);
  }
}
