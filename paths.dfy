/**
 * The path walk of `load_db` (things2md.py:74-84): every entry that is not a
 * heading gets the filenames of its non-heading ancestors, root first,
 * followed by its own filename.
 */
module Paths {
  import opened ThingsData

  /** Python's truth value of a parent field: None and '' both end the walk. */
  predicate Truthy(p: Option<string>) {
    p.Some? && p.value != ""
  }

  /** A filename as a pathlib path: the names '' and '.' contribute no segment. */
  function Seg(name: string): Path {
    if name == "" || name == "." then [] else [name]
  }

  /**
   * Walking up from `e` ends, at a root or at a key missing from `m`, within `n` steps.
   */
  predicate ChainEnds(m: map<string, Entry>, e: Entry, n: nat)
    decreases n
  {
    !Truthy(e.parent) || e.parent.value !in m || (n > 0 && ChainEnds(m, m[e.parent.value], n - 1))
  }

  /**
   * Every parent chain ends within |m| steps, as a chain through distinct keys
   * always does: the parent links have no cycle.
   */
  predicate Acyclic(m: map<string, Entry>) {
    forall k | k in m :: ChainEnds(m, m[k], |m|)
  }

  /** An entry that is its own parent makes the walk run forever. */
  lemma {:induction false} SelfParentIsCyclic(m: map<string, Entry>, k: string)
    requires k in m && m[k].parent == Some(k) && k != ""
    ensures !Acyclic(m)
  {
    forall n: nat ensures !ChainEnds(m, m[k], n) {
      SelfParentNeverEnds(m, k, n);
    }
  }

  lemma {:induction false} SelfParentNeverEnds(m: map<string, Entry>, k: string, n: nat)
    requires k in m && m[k].parent == Some(k) && k != ""
    ensures !ChainEnds(m, m[k], n)
  {
    if n > 0 {
      SelfParentNeverEnds(m, k, n - 1);
    }
  }

  /** Appends `suffix` to a successful path. */
  function Then(r: Result<Path, Error>, suffix: Path): Result<Path, Error> {
    match r
    case Err(e) => Err(e)
    case Ok(p) => Ok(p + suffix)
  }

  /**
   * The segments the ancestors of `e` contribute, root first: every ancestor that
   * is not a heading adds its filename; a parent key missing from `m` is the
   * source's KeyError.
   */
  function Above(m: map<string, Entry>, e: Entry, n: nat): Result<Path, Error>
    requires ChainEnds(m, e, n)
    decreases n
  {
    if !Truthy(e.parent) then Ok([])
    else if e.parent.value !in m then Err(MissingParent)
    else
      var a := m[e.parent.value];
      Then(Above(m, a, n - 1), if a.kind == HeadingKind then [] else Seg(a.filename))
  }

  /** The path of entry `k`: none for a heading, otherwise its ancestors' segments and its own. */
  function PathOf(m: map<string, Entry>, k: string): Result<Option<Path>, Error>
    requires k in m && Acyclic(m)
  {
    var e := m[k];
    if e.kind == HeadingKind then Ok(None)
    else
      match Then(Above(m, e, |m|), Seg(e.filename))
      case Err(x) => Err(x)
      case Ok(p) => Ok(Some(p))
  }

  /** The registry after the loop of things2md.py:74-84. */
  function ResolvePaths(m: map<string, Entry>): Result<map<string, Entry>, Error>
    requires Acyclic(m)
  {
    if exists k | k in m :: PathOf(m, k).Err? then Err(MissingParent)
    else Ok(map k | k in m :: m[k].(fullpath := PathOf(m, k).value))
  }

  /** The walk of things2md.py:79-83 from one entry up to its root. */
  method WalkUp(m: map<string, Entry>, item: Entry) returns (r: Result<Path, Error>)
    requires ChainEnds(m, item, |m|)
    ensures r == Then(Above(m, item, |m|), Seg(item.filename))
  {
    var fullpath, current := Seg(item.filename), item;
    ghost var n: nat := |m|;
    while Truthy(current.parent)
      invariant ChainEnds(m, current, n)
      invariant Then(Above(m, item, |m|), Seg(item.filename)) == Then(Above(m, current, n), fullpath)
      decreases n
    {
      var uuid := current.parent.value;
      if uuid !in m {
        return Err(MissingParent);
      }
      ghost var step := if m[uuid].kind == HeadingKind then [] else Seg(m[uuid].filename);
      assert Then(Above(m, current, n), fullpath) == Then(Above(m, m[uuid], n - 1), step + fullpath) by {
        match Above(m, m[uuid], n - 1)
        case Err(_) =>
        case Ok(p) => assert (p + step) + fullpath == p + (step + fullpath);
      }
      ghost var before := fullpath;
      current := m[uuid];
      if current.kind != HeadingKind {  // might still walk up to a heading
        fullpath := Seg(current.filename) + fullpath;
      }
      assert fullpath == step + before;
      n := n - 1;
    }
    assert [] + fullpath == fullpath;
    r := Ok(fullpath);
  }

  /** The loop of things2md.py:74-84 over every registry entry. */
  method BuildPaths(m: map<string, Entry>) returns (r: Result<map<string, Entry>, Error>)
    requires Acyclic(m)
    ensures r == ResolvePaths(m)
  {
    var uuids := m;
    var todo := m.Keys;
    while todo != {}
      invariant todo <= m.Keys
      invariant uuids.Keys == m.Keys
      invariant forall k | k in m && k !in todo :: PathOf(m, k).Ok? && uuids[k] == m[k].(fullpath := PathOf(m, k).value)
      invariant forall k | k in todo :: uuids[k] == m[k]
      decreases |todo|
    {
      var k :| k in todo;
      var item := m[k];
      if item.kind == HeadingKind {
        uuids := uuids[k := item.(fullpath := None)];
      } else {
        // the walk reads parent, type and filename, which this loop never changes,
        // so walking `m` is walking `uuids`
        var walked := WalkUp(m, item);
        if walked.Err? {
          assert PathOf(m, k).Err?;
          return Err(MissingParent);
        }
        uuids := uuids[k := item.(fullpath := Some(walked.value))];
      }
      todo := todo - {k};
    }
    ResolvePathsOk(m, uuids);
    r := Ok(uuids);
  }

  /** A registry given its paths entry by entry is the one `ResolvePaths` describes. */
  lemma ResolvePathsOk(m: map<string, Entry>, uuids: map<string, Entry>)
    requires Acyclic(m) && uuids.Keys == m.Keys
    requires forall k | k in m :: PathOf(m, k).Ok? && uuids[k] == m[k].(fullpath := PathOf(m, k).value)
    ensures ResolvePaths(m) == Ok(uuids)
  {
    assert uuids == map k | k in m :: m[k].(fullpath := PathOf(m, k).value);
  }

  /** The walk's outcome does not depend on how many more steps it is allowed. */
  lemma {:induction false} AboveFuel(m: map<string, Entry>, e: Entry, n: nat, n': nat)
    requires ChainEnds(m, e, n) && n <= n'
    ensures ChainEnds(m, e, n') && Above(m, e, n) == Above(m, e, n')
    decreases n
  {
    if Truthy(e.parent) && e.parent.value in m {
      AboveFuel(m, m[e.parent.value], n - 1, n' - 1);
    }
  }

  /** An entry with no parent that is not a heading lives at the top: its path is its filename. */
  lemma RootPath(m: map<string, Entry>, k: string)
    requires k in m && Acyclic(m)
    requires m[k].kind != HeadingKind && !Truthy(m[k].parent)
    ensures PathOf(m, k) == Ok(Some(Seg(m[k].filename)))
  {
    assert [] + Seg(m[k].filename) == Seg(m[k].filename);
  }

  /**
   * Under a parent that is not a heading, an entry's path is its parent's path
   * followed by its own filename; a failed walk from the parent fails here too.
   */
  lemma ChildPath(m: map<string, Entry>, k: string, p: string)
    requires k in m && Acyclic(m)
    requires m[k].kind != HeadingKind && Truthy(m[k].parent) && m[k].parent.value == p
    requires p in m && m[p].kind != HeadingKind
    ensures PathOf(m, p).Ok? ==> PathOf(m, k) == Ok(Some(PathOf(m, p).value.value + Seg(m[k].filename)))
    ensures PathOf(m, p).Err? ==> PathOf(m, k).Err?
  {
    AboveFuel(m, m[p], |m| - 1, |m|);
    match Above(m, m[p], |m|)
    case Err(_) =>
    case Ok(q) =>
      assert (q + Seg(m[p].filename)) + Seg(m[k].filename) == q + (Seg(m[p].filename) + Seg(m[k].filename));
  }

  /**
   * Under a heading, an entry takes the path its heading's own container gives
   * its children: the heading adds no segment. A heading with no parent leaves
   * the entry at the top.
   */
  lemma HeadingChildPath(m: map<string, Entry>, k: string, h: string)
    requires k in m && Acyclic(m)
    requires m[k].kind != HeadingKind && Truthy(m[k].parent) && m[k].parent.value == h
    requires h in m && m[h].kind == HeadingKind
    ensures !Truthy(m[h].parent) ==> PathOf(m, k) == Ok(Some(Seg(m[k].filename)))
    ensures (Truthy(m[h].parent) && m[h].parent.value in m && m[m[h].parent.value].kind != HeadingKind
      && PathOf(m, m[h].parent.value).Ok?) ==>
      PathOf(m, k) == Ok(Some(PathOf(m, m[h].parent.value).value.value + Seg(m[k].filename)))
  {
    var own := Seg(m[k].filename);
    assert ChainEnds(m, m[k], |m|);
    assert ChainEnds(m, m[h], |m| - 1);
    assert Above(m, m[k], |m|) == Then(Above(m, m[h], |m| - 1), []);
    if !Truthy(m[h].parent) {
      var none: Path := [];
      assert Above(m, m[h], |m| - 1) == Ok(none);
      assert none + none == none && none + own == own;
      assert Above(m, m[k], |m|) == Ok(none);
    } else if m[h].parent.value in m && m[m[h].parent.value].kind != HeadingKind {
      var q := m[h].parent.value;
      var seg := Seg(m[q].filename);
      assert |m| - 1 > 0 && ChainEnds(m, m[q], |m| - 2);
      assert Above(m, m[h], |m| - 1) == Then(Above(m, m[q], |m| - 2), seg);
      AboveFuel(m, m[q], |m| - 2, |m|);
      match Above(m, m[q], |m|)
      case Err(_) =>
      case Ok(a) =>
        assert (a + seg) + [] == a + seg;
        assert PathOf(m, q) == Ok(Some(a + seg));
        assert PathOf(m, k) == Ok(Some((a + seg) + own));
    }
  }

  /** After the walk exactly the headings have no path, and nothing but `fullpath` changed. */
  lemma ResolvePathsShape(m: map<string, Entry>)
    requires Acyclic(m) && ResolvePaths(m).Ok?
    ensures ResolvePaths(m).value.Keys == m.Keys
    ensures forall k | k in m ::
      var e := ResolvePaths(m).value[k];
      && e == m[k].(fullpath := e.fullpath)
      && (e.fullpath.None? <==> m[k].kind == HeadingKind)
  {
    forall k | k in m ensures PathOf(m, k).Ok? {
    }
  }
}
