/**
 * Collision renaming and the length check of `load_db` (things2md.py:86-96),
 * and the uniqueness gate the renaming needs (see README, Findings).
 */
module Collisions {
  import opened ThingsData

  // ---------------------------------------------------------------------------
  // Counting paths (things2md.py:86-89)
  // ---------------------------------------------------------------------------

  /** The keys among `keys` whose entry has path `p`. */
  function SharersIn(m: map<string, Entry>, keys: set<string>, p: Path): set<string> {
    set k | k in keys && k in m && m[k].fullpath == Some(p)
  }

  /** The entries that have path `p`. */
  function Sharers(m: map<string, Entry>, p: Path): set<string> {
    SharersIn(m, m.Keys, p)
  }

  /** Path `p` occurs two or more times: the source's `path_counts - deduped`. */
  predicate Shared(m: map<string, Entry>, p: Path) {
    |Sharers(m, p)| >= 2
  }

  /** A subset is no larger than its superset. */
  lemma SubsetCard<T>(a: set<T>, b: set<T>)
    requires a <= b
    ensures |a| <= |b|
  {
    assert b == a + (b - a);
  }

  /** Two different entries with path `p` make `p` shared. */
  lemma TwoSharers(m: map<string, Entry>, p: Path, k1: string, k2: string)
    requires k1 in m && k2 in m && k1 != k2
    requires m[k1].fullpath == Some(p) && m[k2].fullpath == Some(p)
    ensures Shared(m, p)
  {
    SubsetCard({k1, k2}, Sharers(m, p));
  }

  /** Counting agrees with looking for a second entry with the same path. */
  lemma SharedIffOther(m: map<string, Entry>, k: string)
    requires k in m && m[k].fullpath.Some?
    ensures Shared(m, m[k].fullpath.value) <==>
      exists k' | k' in m :: k' != k && m[k'].fullpath == m[k].fullpath
  {
    var s := Sharers(m, m[k].fullpath.value);
    if |s| >= 2 {
      assert k in s;
      assert |s - {k}| == |s| - 1;
      var k' :| k' in s - {k};
    }
    if k' :| k' in m && k' != k && m[k'].fullpath == m[k].fullpath {
      TwoSharers(m, m[k].fullpath.value, k, k');
    }
  }

  /** A Counter's value for `p`: 0 when `p` was never counted. */
  function Count(counts: map<Path, nat>, p: Path): nat {
    if p in counts then counts[p] else 0
  }

  /** The first loop: Counter over every path that is not None. */
  method CountPaths(m: map<string, Entry>) returns (counts: map<Path, nat>)
    ensures forall p :: Count(counts, p) == |Sharers(m, p)|
  {
    counts := map[];
    var todo := m.Keys;
    ghost var done: set<string> := {};
    while todo != {}
      invariant todo <= m.Keys && done == m.Keys - todo
      invariant forall p :: Count(counts, p) == |SharersIn(m, done, p)|
      decreases |todo|
    {
      var k :| k in todo;
      ghost var before := counts;
      if m[k].fullpath.Some? {
        var q := m[k].fullpath.value;
        counts := counts[q := Count(counts, q) + 1];
      }
      CountStep(m, done, k, before, counts);
      done := done + {k};
      todo := todo - {k};
    }
    assert done == m.Keys;
  }

  /** Counting entry `k` adds one to the count of its path and leaves every other count. */
  lemma CountStep(m: map<string, Entry>, done: set<string>, k: string, before: map<Path, nat>, after: map<Path, nat>)
    requires k in m && k !in done
    requires forall p :: Count(before, p) == |SharersIn(m, done, p)|
    requires after == if m[k].fullpath.Some? then before[m[k].fullpath.value := Count(before, m[k].fullpath.value) + 1] else before
    ensures forall p :: Count(after, p) == |SharersIn(m, done + {k}, p)|
  {
    forall p ensures Count(after, p) == |SharersIn(m, done + {k}, p)| {
      SharersAdd(m, done, k, p);
    }
  }

  lemma SharersAdd(m: map<string, Entry>, done: set<string>, k: string, p: Path)
    requires k in m && k !in done
    ensures m[k].fullpath == Some(p) ==> |SharersIn(m, done + {k}, p)| == |SharersIn(m, done, p)| + 1
    ensures m[k].fullpath != Some(p) ==> SharersIn(m, done + {k}, p) == SharersIn(m, done, p)
  {
    if m[k].fullpath == Some(p) {
      assert SharersIn(m, done + {k}, p) == SharersIn(m, done, p) + {k};
    }
  }

  // ---------------------------------------------------------------------------
  // Renaming (things2md.py:90-93)
  // ---------------------------------------------------------------------------

  /** pathlib's `name`: the last segment, '' for the empty path. */
  function Name(p: Path): string {
    if p == [] then "" else p[|p| - 1]
  }

  /**
   * pathlib's `with_name`: replaces the last segment; a ValueError for the empty
   * path or for a name that is empty, '.' or holds '/'.
   */
  function WithName(p: Path, name: string): Result<Path, Error> {
    if p == [] || name == "" || name == "." || '/' in name then Err(InvalidRename)
    else Ok(p[..|p| - 1] + [name])
  }

  /** The path `e` ends up with: shared paths get '-' and the UUID appended to their name. */
  function RenameOf(m: map<string, Entry>, e: Entry): Result<Option<Path>, Error> {
    if e.fullpath.Some? && Shared(m, e.fullpath.value) then
      match WithName(e.fullpath.value, Name(e.fullpath.value) + "-" + e.uuid)
      case Err(x) => Err(x)
      case Ok(p) => Ok(Some(p))
    else Ok(e.fullpath)
  }

  /** The registry after things2md.py:86-93, as the source writes it. */
  function Dedupe(m: map<string, Entry>): Result<map<string, Entry>, Error> {
    if exists k | k in m :: RenameOf(m, m[k]).Err? then Err(InvalidRename)
    else Ok(map k | k in m :: m[k].(fullpath := RenameOf(m, m[k]).value))
  }

  /** things2md.py:90-93: rename every entry whose path is among `duplicates`. */
  method RenameShared(m: map<string, Entry>, duplicates: set<Path>) returns (r: Result<map<string, Entry>, Error>)
    requires forall p :: p in duplicates <==> Shared(m, p)
    ensures r == Dedupe(m)
  {
    var uuids := m;
    var todo := m.Keys;
    while todo != {}
      invariant todo <= m.Keys
      invariant uuids.Keys == m.Keys
      invariant forall k | k in m && k !in todo ::
        RenameOf(m, m[k]).Ok? && uuids[k] == m[k].(fullpath := RenameOf(m, m[k]).value)
      invariant forall k | k in todo :: uuids[k] == m[k]
      decreases |todo|
    {
      var k :| k in todo;
      var item := uuids[k];
      if item.fullpath.Some? && item.fullpath.value in duplicates {
        var p := item.fullpath.value;
        var renamed := WithName(p, Name(p) + "-" + item.uuid);
        if renamed.Err? {
          assert RenameOf(m, m[k]).Err?;
          return Err(InvalidRename);
        }
        uuids := uuids[k := item.(fullpath := Some(renamed.value))];
      }
      todo := todo - {k};
    }
    DedupeOk(m, uuids);
    r := Ok(uuids);
  }

  /** A registry renamed entry by entry is the one `Dedupe` describes. */
  lemma DedupeOk(m: map<string, Entry>, uuids: map<string, Entry>)
    requires uuids.Keys == m.Keys
    requires forall k | k in m :: RenameOf(m, m[k]).Ok? && uuids[k] == m[k].(fullpath := RenameOf(m, m[k]).value)
    ensures Dedupe(m) == Ok(uuids)
  {
    assert uuids == map k | k in m :: m[k].(fullpath := RenameOf(m, m[k]).value);
  }

  /** things2md.py:86-93: count the paths, then rename every entry whose path is shared. */
  method DedupePaths(m: map<string, Entry>) returns (r: Result<map<string, Entry>, Error>)
    ensures r == Dedupe(m)
  {
    var counts := CountPaths(m);
    var duplicates := set p | p in counts && counts[p] >= 2;
    if duplicates != {} {
      r := RenameShared(m, duplicates);
    } else {
      forall k | k in m ensures RenameOf(m, m[k]) == Ok(m[k].fullpath) {
        if m[k].fullpath.Some? {
          assert m[k].fullpath.value !in duplicates;
        }
      }
      assert m == map k | k in m :: m[k].(fullpath := RenameOf(m, m[k]).value);
      r := Ok(m);
    }
  }

  /**
   * A path is rewritten exactly when two or more entries have it, by appending
   * '-' and the entry's UUID to its last segment; nothing else changes.
   */
  lemma DedupeRewritesShared(m: map<string, Entry>)
    requires Dedupe(m).Ok?
    ensures Dedupe(m).value.Keys == m.Keys
    ensures forall k | k in m ::
      var e, e' := m[k], Dedupe(m).value[k];
      && e' == e.(fullpath := e'.fullpath)
      && (e'.fullpath != e.fullpath <==> e.fullpath.Some? && Shared(m, e.fullpath.value))
      && (e'.fullpath != e.fullpath ==>
            var p := e.fullpath.value;
            e'.fullpath == Some(p[..|p| - 1] + [p[|p| - 1] + "-" + e.uuid]))
  {
    forall k | k in m && m[k].fullpath.Some? && Shared(m, m[k].fullpath.value)
      ensures Dedupe(m).value[k].fullpath != m[k].fullpath
    {
      var p := m[k].fullpath.value;
      var q := Dedupe(m).value[k].fullpath.value;
      assert |q[|q| - 1]| > |p[|p| - 1]|;
    }
  }

  /**
   * Entries that shared a path end up with pairwise different paths, because each
   * appends its own UUID and UUIDs are the (distinct) keys.
   */
  lemma DedupeSeparatesSharers(m: map<string, Entry>, k1: string, k2: string)
    requires KeyedByUuid(m) && Dedupe(m).Ok?
    requires k1 in m && k2 in m && k1 != k2
    requires m[k1].fullpath.Some? && m[k1].fullpath == m[k2].fullpath
    ensures Dedupe(m).value[k1].fullpath != Dedupe(m).value[k2].fullpath
  {
    var p := m[k1].fullpath.value;
    TwoSharers(m, p, k1, k2);
    var n := Name(p) + "-";
    assert RenameOf(m, m[k1]).Ok? && RenameOf(m, m[k2]).Ok?;
    var q1, q2 := RenameOf(m, m[k1]).value.value, RenameOf(m, m[k2]).value.value;
    assert q1[|q1| - 1] == n + k1 && q2[|q2| - 1] == n + k2;
    assert Dedupe(m).value[k1].fullpath == Some(q1) && Dedupe(m).value[k2].fullpath == Some(q2);
    assert q1[|q1| - 1][|n|..] == k1 && q2[|q2| - 1][|n|..] == k2;
  }

  // ---------------------------------------------------------------------------
  // The single pass can leave a clash (Findings)
  // ---------------------------------------------------------------------------

  /** No two entries share a path. */
  predicate DistinctPaths(m: map<string, Entry>) {
    forall k1, k2 | k1 in m && k2 in m && k1 != k2 && m[k1].fullpath.Some? :: m[k1].fullpath != m[k2].fullpath
  }

  /** A to-do at path `p` for the counterexample below. */
  function Leaf(uuid: string, p: Path): Entry {
    Entry(uuid, "to-do", Name(p), Some("incomplete"), None, None, None, None, map[], Name(p), None, Some(p))
  }

  /**
   * Two to-dos titled "x" (UUIDs "b" and "c") beside a to-do titled "x-b" (UUID "a"):
   * renaming turns "x" into "x-b" for "b", which "a" already holds.
   */
  lemma DedupeCanClash()
    ensures var m := map["a" := Leaf("a", ["x-b"]), "b" := Leaf("b", ["x"]), "c" := Leaf("c", ["x"])];
      && KeyedByUuid(m)
      && Dedupe(m).Ok?
      && Dedupe(m).value["a"].fullpath == Dedupe(m).value["b"].fullpath
      && !DistinctPaths(Dedupe(m).value)
  {
    var m := map["a" := Leaf("a", ["x-b"]), "b" := Leaf("b", ["x"]), "c" := Leaf("c", ["x"])];
    assert Sharers(m, ["x"]) == {"b", "c"};
    assert Sharers(m, ["x-b"]) == {"a"};
    assert |{"b", "c"}| == 2;
    assert "x" + "-" + "b" == "x-b";
    assert Name(["x"]) == "x" && '/' !in "x-b";
    var x: Path := ["x"];
    assert x[..0] + ["x-b"] == ["x-b"];
    assert RenameOf(m, m["a"]) == Ok(Some(["x-b"]));
    assert RenameOf(m, m["b"]) == Ok(Some(["x-b"]));
    assert RenameOf(m, m["c"]).Ok?;
    assert m.Keys == {"a", "b", "c"};
  }

  /**
   * Renaming touches only the shared paths themselves, not the paths below them:
   * two projects at "P" become "P-p1" and "P-p2", while the to-do "t" of "p1",
   * whose path was walked up through "P", stays at "P/t".
   */
  lemma DedupeStrandsChildren()
    ensures var m := map["p1" := Leaf("p1", ["P"]), "p2" := Leaf("p2", ["P"]),
                         "t" := Leaf("t", ["P", "t"]).(parent := Some("p1"))];
      && KeyedByUuid(m)
      && Dedupe(m).Ok?
      && m["t"].fullpath.value[..1] == m["p1"].fullpath.value
      && Dedupe(m).value["p1"].fullpath == Some(["P-p1"])
      && Dedupe(m).value["t"].fullpath == Some(["P", "t"])
  {
    var m := map["p1" := Leaf("p1", ["P"]), "p2" := Leaf("p2", ["P"]),
                 "t" := Leaf("t", ["P", "t"]).(parent := Some("p1"))];
    assert Sharers(m, ["P"]) == {"p1", "p2"};
    assert Sharers(m, ["P", "t"]) == {"t"};
    assert |{"p1", "p2"}| == 2;
    assert "P" + "-" + "p1" == "P-p1" && "P" + "-" + "p2" == "P-p2";
    var x: Path := ["P"];
    assert x[..0] + ["P-p1"] == ["P-p1"];
    assert RenameOf(m, m["p1"]) == Ok(Some(["P-p1"]));
    assert RenameOf(m, m["p2"]).Ok?;
    assert RenameOf(m, m["t"]) == Ok(Some(["P", "t"]));
    assert m.Keys == {"p1", "p2", "t"};
  }

  /**
   * Collision resolution with the uniqueness the renaming is meant to give: the
   * source's single pass, then a fatal check that no two entries share a path.
   */
  function ResolveCollisions(m: map<string, Entry>): (r: Result<map<string, Entry>, Error>)
    ensures r.Ok? ==> DistinctPaths(r.value)
    ensures Dedupe(m).Err? ==> r == Dedupe(m)
    ensures Dedupe(m).Ok? && DistinctPaths(Dedupe(m).value) ==> r == Dedupe(m)
  {
    match Dedupe(m)
    case Err(e) => Err(e)
    case Ok(d) => if DistinctPaths(d) then Ok(d) else Err(PathClash)
  }

  /** The uniqueness check: remembers every path seen so far. */
  method CheckDistinct(m: map<string, Entry>) returns (ok: bool)
    ensures ok <==> DistinctPaths(m)
  {
    var seen: set<Path> := {};
    var todo := m.Keys;
    while todo != {}
      invariant todo <= m.Keys
      invariant forall p :: p in seen <==> exists k | k in m && k !in todo :: m[k].fullpath == Some(p)
      invariant forall k1, k2 | k1 in m && k2 in m && k1 !in todo && k2 !in todo && k1 != k2 && m[k1].fullpath.Some? ::
        m[k1].fullpath != m[k2].fullpath
      decreases |todo|
    {
      var k :| k in todo;
      if m[k].fullpath.Some? {
        if m[k].fullpath.value in seen {
          return false;
        }
        seen := seen + {m[k].fullpath.value};
      }
      todo := todo - {k};
    }
    return true;
  }

  /** Resolution as the rest of the model runs it: the source's pass, then the check. */
  method ResolveAll(m: map<string, Entry>) returns (r: Result<map<string, Entry>, Error>)
    ensures r == ResolveCollisions(m)
  {
    r := DedupePaths(m);
    if r.Ok? {
      var ok := CheckDistinct(r.value);
      if !ok {
        r := Err(PathClash);
      }
    }
  }

  // ---------------------------------------------------------------------------
  // Length check (things2md.py:95-96)
  // ---------------------------------------------------------------------------

  /** Segments joined by '/'. */
  function JoinSlash(p: Path): string {
    if p == [] then "" else if |p| == 1 then p[0] else p[0] + "/" + JoinSlash(p[1..])
  }

  /** `str()` of a path: '.' for the empty path, 'None' for a heading's missing path. */
  function PathText(p: Option<Path>): string {
    match p
    case None => "None"
    case Some(s) => if s == [] then "." else JoinSlash(s)
  }

  /** The joined text holds every segment and a separator between neighbours. */
  lemma {:induction false} JoinSlashLength(p: Path)
    requires p != []
    ensures |JoinSlash(p)| == |p| - 1 + SegmentChars(p)
  {
    if |p| > 1 {
      JoinSlashLength(p[1..]);
    }
  }

  function SegmentChars(p: Path): nat {
    if p == [] then 0 else |p[0]| + SegmentChars(p[1..])
  }

  predicate ShortEnough(m: map<string, Entry>) {
    forall k | k in m :: |PathText(m[k].fullpath)| < 256
  }

  /** The check of things2md.py:95-96: every path is shorter than 256 characters. */
  method CheckLengths(m: map<string, Entry>) returns (ok: bool)
    ensures ok <==> ShortEnough(m)
  {
    var todo := m.Keys;
    while todo != {}
      invariant todo <= m.Keys
      invariant forall k | k in m && k !in todo :: |PathText(m[k].fullpath)| < 256
      decreases |todo|
    {
      var k :| k in todo;
      if |PathText(m[k].fullpath)| >= 256 {
        return false;
      }
      todo := todo - {k};
    }
    return true;
  }
}
