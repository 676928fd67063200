/**
 * The pure parts of convert.py: the slug used for file and directory names
 * (`sanitize_path`), the split of an export by record type (`collect_by_type`)
 * and the choice of the container a to-do is written into (`create_todos`).
 */
module Convert {
  import opened ThingsData
  import Registry
  import Hierarchy

  // ---------------------------------------------------------------------------
  // sanitize_path (convert.py:8-21), on the ASCII branch
  // ---------------------------------------------------------------------------

  /** The default `max_length`: room for a 22-character UUID and a separator. */
  const DefaultMaxLength := 232

  predicate IsAscii(c: char) { c as int < 128 }
  predicate IsUpper(c: char) { 'A' <= c <= 'Z' }
  predicate IsAlnum(c: char) { 'a' <= c <= 'z' || 'A' <= c <= 'Z' || '0' <= c <= '9' }
  /** `\w` on ASCII text. */
  predicate IsWord(c: char) { IsAlnum(c) || c == '_' }
  /** `\s` on ASCII text: tab to carriage return, the four separators 0x1C-0x1F, and space. */
  predicate IsSpace(c: char) { 9 <= c as int <= 13 || 28 <= c as int <= 32 }
  /** What `[^\w\s-]` does not delete. */
  predicate Allowed(c: char) { IsWord(c) || IsSpace(c) || c == '-' }
  /** What `[-\s]+` matches. */
  predicate IsSep(c: char) { c == '-' || IsSpace(c) }
  /** What `strip('-_')` removes. */
  predicate IsEdge(c: char) { c == '-' || c == '_' }
  /** The characters a slug is made of. */
  predicate IsSlugChar(c: char) { 'a' <= c <= 'z' || '0' <= c <= '9' || c == '_' || c == '-' }

  predicate NoDoubleHyphen(s: string) {
    forall i | 0 <= i < |s| - 1 :: s[i] == '-' ==> s[i + 1] != '-'
  }

  predicate IsPrefix(a: string, b: string) {
    |a| <= |b| && a == b[..|a|]
  }

  /** Made of slug characters, without "--". */
  predicate Clean(s: string) {
    (forall i | 0 <= i < |s| :: IsSlugChar(s[i])) && NoDoubleHyphen(s)
  }

  /** The form of every untruncated result of `sanitize_path`. */
  predicate IsSlug(s: string) {
    Clean(s) && (s != [] ==> !IsEdge(s[0]) && !IsEdge(s[|s| - 1]))
  }

  /** Any piece of a clean string is clean. */
  lemma CleanSlice(s: string, i: int, j: int)
    requires Clean(s) && 0 <= i <= j <= |s|
    ensures Clean(s[i..j])
  {
    var t := s[i..j];
    forall k | 0 <= k < |t| - 1 ensures t[k] == '-' ==> t[k + 1] != '-' {
      assert t[k] == s[i + k] && t[k + 1] == s[i + k + 1];
    }
  }

  /** `encode('ascii', 'ignore')`: every character outside ASCII is dropped. */
  function AsciiOnly(s: string): (r: string)
    ensures |r| <= |s|
    ensures forall i | 0 <= i < |r| :: IsAscii(r[i])
    ensures (forall i | 0 <= i < |s| :: IsAscii(s[i])) ==> r == s
    ensures |s| == 1 ==> r == if IsAscii(s[0]) then s else []
  {
    if s == [] then []
    else if IsAscii(s[0]) then [s[0]] + AsciiOnly(s[1..])
    else AsciiOnly(s[1..])
  }

  /**
   * The filter works character by character: with the one-character case above,
   * it keeps exactly the ASCII characters, in order.
   */
  lemma {:induction false} AsciiOnlyAppend(a: string, b: string)
    ensures AsciiOnly(a + b) == AsciiOnly(a) + AsciiOnly(b)
  {
    if a == [] {
      assert a + b == b;
    } else {
      assert (a + b)[0] == a[0] && (a + b)[1..] == a[1..] + b;
      AsciiOnlyAppend(a[1..], b);
    }
  }

  /** `str.lower()` on ASCII text. */
  function Lower(s: string): (r: string)
    ensures |r| == |s|
    ensures forall i | 0 <= i < |s| :: r[i] == (if IsUpper(s[i]) then (s[i] as int + 32) as char else s[i])
  {
    if s == [] then []
    else [if IsUpper(s[0]) then (s[0] as int + 32) as char else s[0]] + Lower(s[1..])
  }

  /** `re.sub(r'[^\w\s-]', '', s)`. */
  function DropDisallowed(s: string): (r: string)
    ensures |r| <= |s|
    ensures forall i | 0 <= i < |r| :: Allowed(r[i]) && r[i] in s
    ensures (forall i | 0 <= i < |s| :: Allowed(s[i])) ==> r == s
    ensures |s| == 1 ==> r == if Allowed(s[0]) then s else []
  {
    if s == [] then []
    else if Allowed(s[0]) then [s[0]] + DropDisallowed(s[1..])
    else DropDisallowed(s[1..])
  }

  /**
   * The deletion works character by character: with the one-character case above,
   * it keeps exactly the allowed characters, in order.
   */
  lemma {:induction false} DropDisallowedAppend(a: string, b: string)
    ensures DropDisallowed(a + b) == DropDisallowed(a) + DropDisallowed(b)
  {
    if a == [] {
      assert a + b == b;
    } else {
      assert (a + b)[0] == a[0] && (a + b)[1..] == a[1..] + b;
      DropDisallowedAppend(a[1..], b);
    }
  }

  /** The rest of `s` after its leading run of hyphens and whitespace. */
  function DropSeps(s: string): (r: string)
    ensures |r| <= |s| && r == s[|s| - |r|..]
    ensures r == [] || !IsSep(r[0])
    ensures forall i | 0 <= i < |s| - |r| :: IsSep(s[i])
  {
    if s != [] && IsSep(s[0]) then DropSeps(s[1..]) else s
  }

  /** `re.sub(r'[-\s]+', '-', s)`: every maximal run of hyphens and whitespace becomes one hyphen. */
  function Collapse(s: string): (r: string)
    ensures s == [] <==> r == []
    ensures s != [] ==> (r[0] == '-' <==> IsSep(s[0]))
    ensures (forall i | 0 <= i < |s| :: IsSlugChar(s[i]) || IsSpace(s[i])) ==>
      forall i | 0 <= i < |r| :: IsSlugChar(r[i])
    ensures NoDoubleHyphen(r)
    decreases |s|
  {
    if s == [] then []
    else if IsSep(s[0]) then "-" + Collapse(DropSeps(s))
    else [s[0]] + Collapse(s[1..])
  }

  /** A non-empty run of hyphens and whitespace becomes a single hyphen. */
  lemma CollapseRun(s: string)
    requires s != [] && forall i | 0 <= i < |s| :: IsSep(s[i])
    ensures Collapse(s) == "-"
  {
    assert DropSeps(s) == [];
  }

  /** Skipping separators stops at the first character that is not one. */
  lemma {:induction false} DropSepsSplit(a: string, c: char, b: string)
    requires !IsSep(c)
    ensures DropSeps(a + [c] + b) == DropSeps(a) + [c] + b
  {
    if a == [] {
      assert a + [c] + b == [c] + b;
    } else {
      assert (a + [c] + b)[0] == a[0];
      if IsSep(a[0]) {
        assert (a + [c] + b)[1..] == a[1..] + [c] + b;
        DropSepsSplit(a[1..], c, b);
      }
    }
  }

  /**
   * A character that is not a separator survives collapsing and splits the text:
   * the runs on either side collapse on their own. With `CollapseRun` this fixes
   * the result on every input.
   */
  lemma {:induction false} CollapseSplit(a: string, c: char, b: string)
    requires !IsSep(c)
    ensures Collapse(a + [c] + b) == Collapse(a) + [c] + Collapse(b)
    decreases |a|
  {
    if a == [] {
      assert a + [c] + b == [c] + b;
      assert ([c] + b)[1..] == b;
    } else if IsSep(a[0]) {
      assert DropSeps(a) == DropSeps(a[1..]);
      CollapseSplit(DropSeps(a), c, b);
      CollapseSplitSep(a, c, b);
    } else {
      CollapseSplit(a[1..], c, b);
      CollapseSplitWord(a, c, b);
    }
  }

  /** One step of `Collapse` on text that starts with a separator. */
  lemma CollapseSepHead(s: string)
    requires s != [] && IsSep(s[0])
    ensures Collapse(s) == "-" + Collapse(DropSeps(s))
  { }

  /** One step of `Collapse` on text that starts with any other character. */
  lemma CollapseWordHead(s: string)
    requires s != [] && !IsSep(s[0])
    ensures Collapse(s) == [s[0]] + Collapse(s[1..])
  { }

  lemma TailOfSplit(a: string, c: char, b: string)
    requires a != []
    ensures (a + [c] + b)[0] == a[0] && (a + [c] + b)[1..] == a[1..] + [c] + b
  { }

  lemma Regroup(x: string, y: string, z: string, w: string)
    ensures x + (y + z + w) == (x + y) + z + w
  { }

  /** The step of `CollapseSplit` past a leading run of separators. */
  lemma CollapseSplitSep(a: string, c: char, b: string)
    requires !IsSep(c) && a != [] && IsSep(a[0])
    requires Collapse(DropSeps(a) + [c] + b) == Collapse(DropSeps(a)) + [c] + Collapse(b)
    ensures Collapse(a + [c] + b) == Collapse(a) + [c] + Collapse(b)
  {
    var s := a + [c] + b;
    TailOfSplit(a, c, b);
    DropSepsSplit(a, c, b);
    CollapseSepHead(s);
    CollapseSepHead(a);
    Regroup("-", Collapse(DropSeps(a)), [c], Collapse(b));
  }

  /** The step of `CollapseSplit` past a leading character that is not a separator. */
  lemma CollapseSplitWord(a: string, c: char, b: string)
    requires !IsSep(c) && a != [] && !IsSep(a[0])
    requires Collapse(a[1..] + [c] + b) == Collapse(a[1..]) + [c] + Collapse(b)
    ensures Collapse(a + [c] + b) == Collapse(a) + [c] + Collapse(b)
  {
    var s := a + [c] + b;
    TailOfSplit(a, c, b);
    CollapseWordHead(s);
    CollapseWordHead(a);
    Regroup([a[0]], Collapse(a[1..]), [c], Collapse(b));
  }

  /** Leading hyphens and underscores removed. */
  function StripLeft(s: string): (r: string)
    ensures |r| <= |s| && r == s[|s| - |r|..]
    ensures r == [] || !IsEdge(r[0])
    ensures forall i | 0 <= i < |s| - |r| :: IsEdge(s[i])
  {
    if s != [] && IsEdge(s[0]) then StripLeft(s[1..]) else s
  }

  /** Trailing hyphens and underscores removed. */
  function StripRight(s: string): (r: string)
    ensures |r| <= |s| && r == s[..|r|]
    ensures r == [] || !IsEdge(r[|r| - 1])
    ensures forall i | |r| <= i < |s| :: IsEdge(s[i])
  {
    if s != [] && IsEdge(s[|s| - 1]) then StripRight(s[..|s| - 1]) else s
  }

  /** `strip('-_')`. */
  function Strip(s: string): string {
    StripRight(StripLeft(s))
  }

  /** Python's `s[:n]`, where a negative `n` counts from the end. */
  function Truncate(s: string, n: int): (r: string)
    ensures |r| <= |s| && r == s[..|r|]
    ensures 0 <= n <= |s| ==> |r| == n
    ensures n >= |s| ==> r == s
    ensures n < 0 ==> |r| == if |s| + n > 0 then |s| + n else 0
  {
    if n >= 0 then (if n < |s| then s[..n] else s)
    else if |s| + n > 0 then s[..|s| + n]
    else []
  }

  /** convert.py:18-20 on text already in NFKD form. */
  function Slug(value: string): string {
    Strip(Collapse(DropDisallowed(Lower(AsciiOnly(value)))))
  }

  /**
   * `sanitize_path(value, False, maxLength)` on text already in NFKD form: the slug cut
   * to `maxLength` characters. It is a prefix of the slug, no longer than `maxLength`,
   * made of lower-case letters, digits, '_' and '-', without "--" and without a leading
   * '-' or '_'; untruncated, it is the whole slug and does not end in '-' or '_' either.
   */
  function SanitizePath(value: string, maxLength: int): (r: string)
    ensures IsPrefix(r, Slug(value))
    ensures 0 <= maxLength <= |Slug(value)| ==> |r| == maxLength
    ensures maxLength >= |Slug(value)| ==> r == Slug(value) && (r == [] || !IsEdge(r[|r| - 1]))
    ensures Clean(r) && forall i | 0 <= i < |r| :: IsAscii(r[i])
    ensures r != [] ==> !IsEdge(r[0])
  {
    SlugIsSlug(value);
    TruncatedSlug(Slug(value), maxLength);
    Truncate(Slug(value), maxLength)
  }

  /**
   * With the default `max_length`, a name, '-' and a 22-character Things UUID
   * still fit in 255 characters.
   */
  lemma DefaultLeavesRoomForUuid(value: string, uuid: string)
    requires |uuid| == 22
    ensures |SanitizePath(value, DefaultMaxLength) + "-" + uuid| <= 255
  {
  }

  /** A prefix of a slug is clean, ASCII, and starts like the slug. */
  lemma TruncatedSlug(slug: string, n: int)
    requires IsSlug(slug)
    ensures var r := Truncate(slug, n);
      IsPrefix(r, slug) && Clean(r) && (forall i | 0 <= i < |r| :: IsAscii(r[i])) && (r != [] ==> !IsEdge(r[0]))
    ensures n >= |slug| ==> Truncate(slug, n) == slug && (slug == [] || !IsEdge(slug[|slug| - 1]))
  {
    var r := Truncate(slug, n);
    CleanSlice(slug, 0, |r|);
    assert r != [] ==> r[0] == slug[0];
  }

  /** The text before stripping is made of slug characters and has no "--". */
  lemma CollapsedIsClean(value: string)
    ensures Clean(Collapse(DropDisallowed(Lower(AsciiOnly(value)))))
  {
    var a := AsciiOnly(value);
    var d := DropDisallowed(Lower(a));
    forall i | 0 <= i < |d| ensures IsSlugChar(d[i]) || IsSpace(d[i]) {
      assert Allowed(d[i]);
      assert d[i] in Lower(a);
      var j :| 0 <= j < |Lower(a)| && Lower(a)[j] == d[i];
      assert IsAscii(a[j]);
    }
  }

  /** Stripping a clean string leaves a string in slug form. */
  lemma StripIsSlug(c: string)
    requires Clean(c)
    ensures IsSlug(Strip(c))
  {
    var l := StripLeft(c);
    CleanSlice(c, |c| - |l|, |c|);
    var r := StripRight(l);
    CleanSlice(l, 0, |r|);
    if r != [] {
      assert r[0] == l[0];
    }
  }

  /** Every slug is in slug form. */
  lemma SlugIsSlug(value: string)
    ensures IsSlug(Slug(value))
  {
    CollapsedIsClean(value);
    StripIsSlug(Collapse(DropDisallowed(Lower(AsciiOnly(value)))));
  }

  /** A string without whitespace or "--" is its own collapse. */
  lemma {:induction false} CollapseFixed(s: string)
    requires forall i | 0 <= i < |s| :: !IsSpace(s[i])
    requires NoDoubleHyphen(s)
    ensures Collapse(s) == s
    decreases |s|
  {
    if s != [] {
      var t := s[1..];
      TailClean(s);
      CollapseFixed(t);
      if s[0] == '-' {
        assert t == [] || !IsSep(t[0]) by {
          if t != [] {
            assert t[0] == s[1];
          }
        }
        assert DropSeps(s) == DropSeps(t) == t;
        assert Collapse(s) == "-" + t;
      } else {
        assert Collapse(s) == [s[0]] + t;
      }
    }
  }

  /** The tail keeps both conditions. */
  lemma TailClean(s: string)
    requires s != []
    requires forall i | 0 <= i < |s| :: !IsSpace(s[i])
    requires NoDoubleHyphen(s)
    ensures forall i | 0 <= i < |s| - 1 :: !IsSpace(s[1..][i])
    ensures NoDoubleHyphen(s[1..])
  {
    var t := s[1..];
    forall i | 0 <= i < |t| - 1 ensures t[i] == '-' ==> t[i + 1] != '-' {
      assert t[i] == s[i + 1] && t[i + 1] == s[i + 2];
    }
  }

  /** A string in slug form is its own slug. */
  lemma SlugOfSlug(s: string)
    requires IsSlug(s)
    ensures Slug(s) == s
  {
    assert AsciiOnly(s) == s;
    assert Lower(s) == s;
    assert DropDisallowed(s) == s;
    CollapseFixed(s);
  }

  /** Slugging a slug changes nothing. */
  lemma SlugIdempotent(value: string)
    ensures Slug(Slug(value)) == Slug(value)
  {
    SlugIsSlug(value);
    SlugOfSlug(Slug(value));
  }

  /** Without truncation, sanitizing twice is sanitizing once. */
  lemma SanitizePathIdempotent(value: string, maxLength: int)
    requires maxLength >= |Slug(value)|
    ensures SanitizePath(SanitizePath(value, maxLength), maxLength) == SanitizePath(value, maxLength)
  {
    SlugIdempotent(value);
  }

  /** A trailing hyphen is stripped off. */
  lemma SlugDropsTrailingHyphen()
    ensures Slug("a-") == "a"
  {
    assert AsciiOnly("a-") == "a-" && Lower("a-") == "a-" && DropDisallowed("a-") == "a-";
    assert "a-"[1..] == "-" && "-"[1..] == "";
    assert Collapse("-") == "-";
    assert Collapse("a-") == "a-";
    assert StripLeft("a-") == "a-";
    assert "a-"[..1] == "a";
    assert StripRight("a-") == "a";
  }

  /** Truncation can leave a trailing hyphen, which a second pass strips. */
  lemma TruncationCanEndInHyphen()
    ensures SanitizePath("a-b", 2) == "a-"
    ensures SanitizePath("a-", 2) == "a"
  {
    SlugOfHyphenated();
    TruncateHyphenated();
    SlugDropsTrailingHyphen();
  }

  lemma TruncateHyphenated()
    ensures Truncate("a-b", 2) == "a-"
  {
    assert "a-b"[..2] == "a-";
  }

  lemma SlugOfHyphenated()
    ensures Slug("a-b") == "a-b"
  {
    assert IsSlug("a-b");
    SlugOfSlug("a-b");
  }

  // ---------------------------------------------------------------------------
  // No letter or digit is lost
  // ---------------------------------------------------------------------------

  /** The ASCII letters and digits of `s`, in order. */
  function Alnums(s: string): string {
    if s == [] then [] else (if IsAlnum(s[0]) then [s[0]] else []) + Alnums(s[1..])
  }

  lemma {:induction false} AlnumsAppend(a: string, b: string)
    ensures Alnums(a + b) == Alnums(a) + Alnums(b)
  {
    if a == [] {
      assert a + b == b;
    } else {
      assert (a + b)[0] == a[0];
      assert (a + b)[1..] == a[1..] + b;
      AlnumsAppend(a[1..], b);
      var h := if IsAlnum(a[0]) then [a[0]] else [];
      assert h + (Alnums(a[1..]) + Alnums(b)) == (h + Alnums(a[1..])) + Alnums(b);
    }
  }

  lemma {:induction false} AlnumsDropDisallowed(s: string)
    ensures Alnums(DropDisallowed(s)) == Alnums(s)
  {
    if s != [] {
      AlnumsDropDisallowed(s[1..]);
    }
  }

  lemma {:induction false} AlnumsDropSeps(s: string)
    ensures Alnums(DropSeps(s)) == Alnums(s)
  {
    if s != [] && IsSep(s[0]) {
      AlnumsDropSeps(s[1..]);
    }
  }

  lemma {:induction false} AlnumsCollapse(s: string)
    ensures Alnums(Collapse(s)) == Alnums(s)
    decreases |s|
  {
    if s != [] {
      if IsSep(s[0]) {
        var t := DropSeps(s);
        AlnumsCollapse(t);
        AlnumsDropSeps(s);
        assert ("-" + Collapse(t))[1..] == Collapse(t);
      } else {
        AlnumsCollapse(s[1..]);
        assert ([s[0]] + Collapse(s[1..]))[1..] == Collapse(s[1..]);
      }
    }
  }

  lemma {:induction false} AlnumsStripLeft(s: string)
    ensures Alnums(StripLeft(s)) == Alnums(s)
  {
    if s != [] && IsEdge(s[0]) {
      AlnumsStripLeft(s[1..]);
    }
  }

  lemma {:induction false} AlnumsStripRight(s: string)
    ensures Alnums(StripRight(s)) == Alnums(s)
  {
    if s != [] && IsEdge(s[|s| - 1]) {
      var init := s[..|s| - 1];
      AlnumsStripRight(init);
      assert s == init + [s[|s| - 1]];
      AlnumsAppend(init, [s[|s| - 1]]);
      assert Alnums([s[|s| - 1]]) == [];
    }
  }

  /** The slug keeps every ASCII letter and digit of the input, lower-cased and in order. */
  lemma SlugKeepsAlnums(value: string)
    ensures Alnums(Slug(value)) == Alnums(Lower(AsciiOnly(value)))
  {
    var l := Lower(AsciiOnly(value));
    AlnumsDropDisallowed(l);
    AlnumsCollapse(DropDisallowed(l));
    AlnumsStripLeft(Collapse(DropDisallowed(l)));
    AlnumsStripRight(StripLeft(Collapse(DropDisallowed(l))));
  }

  // ---------------------------------------------------------------------------
  // collect_by_type (convert.py:32-41)
  // ---------------------------------------------------------------------------

  /** A failed dictionary lookup: Python's KeyError with the missing key. */
  datatype KeyError = MissingKey(key: string)

  /** The four dictionaries `collect_by_type` returns, each keyed by UUID. */
  datatype Collected = Collected(
    areas: map<string, Item>,
    projects: map<string, Item>,
    headings: map<string, Item>,
    todos: map<string, Item>
  )

  const AreasList := "Areas"
  const NoAreaList := "No Area"
  const ActiveLists: seq<string> := ["Inbox", "Today", "Upcoming", "Anytime", "Someday", "Logbook"]
  const ToDoKind := "to-do"
  const IncompleteStatus := "incomplete"

  /** No later record of `xs` has the UUID of record `i`. */
  predicate LastOf(xs: seq<Item>, i: int)
    requires 0 <= i < |xs|
  {
    forall j | i < j < |xs| :: xs[j].uuid != xs[i].uuid
  }

  /** `{x['uuid']: x for x in xs}`: later records overwrite earlier ones with the same UUID. */
  function KeyByUuid(xs: seq<Item>): (r: map<string, Item>)
    ensures forall k | k in r :: r[k].uuid == k
  {
    if xs == [] then map[] else KeyByUuid(xs[..|xs| - 1])[xs[|xs| - 1].uuid := xs[|xs| - 1]]
  }

  /** The keys are the UUIDs of the records. */
  lemma {:induction false} KeyByUuidKeys(xs: seq<Item>)
    ensures forall u :: u in KeyByUuid(xs) <==> exists i | 0 <= i < |xs| :: xs[i].uuid == u
  {
    if xs != [] {
      var init := xs[..|xs| - 1];
      KeyByUuidKeys(init);
      forall u ensures u in KeyByUuid(xs) <==> exists i | 0 <= i < |xs| :: xs[i].uuid == u {
        if i :| 0 <= i < |init| && init[i].uuid == u {
          assert xs[i].uuid == u;
        }
        if i :| 0 <= i < |xs| && xs[i].uuid == u {
          if i < |init| {
            assert init[i].uuid == u;
          }
        }
      }
    }
  }

  /** Every UUID maps to the last record carrying it. */
  lemma {:induction false} KeyByUuidLast(xs: seq<Item>)
    ensures forall i | 0 <= i < |xs| && LastOf(xs, i) :: xs[i].uuid in KeyByUuid(xs) && KeyByUuid(xs)[xs[i].uuid] == xs[i]
  {
    if xs != [] {
      var init := xs[..|xs| - 1];
      KeyByUuidLast(init);
      forall i | 0 <= i < |xs| - 1 && LastOf(xs, i) ensures LastOf(init, i) {
        assert init[i] == xs[i];
        forall j | i < j < |init| ensures init[j].uuid != init[i].uuid {
          assert init[j] == xs[j];
        }
      }
    }
  }

  /** The incomplete records of `xs`, in order. */
  function IncompleteIn(xs: seq<Item>): (r: seq<Item>)
    ensures forall x :: x in r <==> x in xs && x.status == Some(IncompleteStatus)
  {
    if xs == [] then []
    else (if xs[0].status == Some(IncompleteStatus) then [xs[0]] else []) + IncompleteIn(xs[1..])
  }

  /** Every record of `xs` has a `status` field. */
  predicate HasStatuses(xs: seq<Item>) {
    forall i | 0 <= i < |xs| :: xs[i].status.Some?
  }

  /**
   * The comprehension of convert.py:37 over `keys`: a missing list, or a record of a
   * list without a status, is a KeyError, met list by list.
   */
  function Active(db: map<string, seq<Item>>, keys: seq<string>): Result<seq<Item>, KeyError> {
    if keys == [] then Ok([])
    else if keys[0] !in db then Err(MissingKey(keys[0]))
    else if !HasStatuses(db[keys[0]]) then Err(MissingKey("status"))
    else
      match Active(db, keys[1..])
      case Err(e) => Err(e)
      case Ok(rest) => Ok(IncompleteIn(db[keys[0]]) + rest)
  }

  /** The records of `xs` of type `kind`, in order. */
  function OfKind(xs: seq<Item>, kind: string): (r: seq<Item>)
    ensures forall x :: x in r <==> x in xs && x.kind == kind
  {
    if xs == [] then []
    else (if xs[0].kind == kind then [xs[0]] else []) + OfKind(xs[1..], kind)
  }

  /** convert.py:32-41. */
  function CollectByType(db: map<string, seq<Item>>): Result<Collected, KeyError> {
    if AreasList !in db then Err(MissingKey(AreasList))
    else if NoAreaList !in db then Err(MissingKey(NoAreaList))
    else
      match Active(db, ActiveLists)
      case Err(e) => Err(e)
      case Ok(active) =>
        Ok(Collected(KeyByUuid(db[AreasList]), KeyByUuid(db[NoAreaList]),
                     KeyByUuid(OfKind(active, HeadingKind)), KeyByUuid(OfKind(active, ToDoKind))))
  }

  /** The comprehension succeeds exactly when every list is there and has statuses throughout. */
  lemma {:induction false} ActiveOkIff(db: map<string, seq<Item>>, keys: seq<string>)
    ensures Active(db, keys).Ok? <==> forall j | 0 <= j < |keys| :: keys[j] in db && HasStatuses(db[keys[j]])
  {
    if keys != [] {
      ActiveOkIff(db, keys[1..]);
      assert forall j | 1 <= j < |keys| :: keys[j] == keys[1..][j - 1];
    }
  }

  /** The records it returns are exactly the incomplete records of the listed lists. */
  lemma {:induction false} ActiveMembers(db: map<string, seq<Item>>, keys: seq<string>)
    requires Active(db, keys).Ok?
    ensures forall x :: x in Active(db, keys).value <==>
      x.status == Some(IncompleteStatus) && exists j | 0 <= j < |keys| :: keys[j] in db && x in db[keys[j]]
  {
    if keys != [] {
      ActiveMembers(db, keys[1..]);
      assert forall j | 1 <= j < |keys| :: keys[j] == keys[1..][j - 1];
      forall x: Item | x.status == Some(IncompleteStatus) && (exists j | 0 <= j < |keys| :: keys[j] in db && x in db[keys[j]])
        ensures x in Active(db, keys).value
      {
        var j :| 0 <= j < |keys| && keys[j] in db && x in db[keys[j]];
        if j > 0 {
          assert keys[1..][j - 1] == keys[j];
        }
      }
    }
  }

  /** `collect_by_type` returns exactly when all eight lists exist and the six active ones have statuses. */
  lemma CollectOkIff(db: map<string, seq<Item>>)
    ensures CollectByType(db).Ok? <==>
      && AreasList in db && NoAreaList in db
      && forall j | 0 <= j < |ActiveLists| :: ActiveLists[j] in db && HasStatuses(db[ActiveLists[j]])
  {
    ActiveOkIff(db, ActiveLists);
  }

  /** A record that is in an active list, incomplete, and of type `kind`. */
  predicate ActiveOfKind(db: map<string, seq<Item>>, x: Item, kind: string) {
    && x.kind == kind && x.status == Some(IncompleteStatus)
    && exists j | 0 <= j < |ActiveLists| :: ActiveLists[j] in db && x in db[ActiveLists[j]]
  }

  /**
   * Areas and projects are the 'Areas' and 'No Area' lists keyed by UUID, the last
   * record with a UUID winning.
   */
  lemma CollectAreasProjects(db: map<string, seq<Item>>)
    requires CollectByType(db).Ok?
    ensures var c, areas, projects := CollectByType(db).value, db[AreasList], db[NoAreaList];
      && (forall u :: u in c.areas <==> exists i | 0 <= i < |areas| :: areas[i].uuid == u)
      && (forall u :: u in c.projects <==> exists i | 0 <= i < |projects| :: projects[i].uuid == u)
      && (forall i | 0 <= i < |areas| && LastOf(areas, i) :: c.areas[areas[i].uuid] == areas[i])
      && (forall i | 0 <= i < |projects| && LastOf(projects, i) :: c.projects[projects[i].uuid] == projects[i])
  {
    KeyByUuidKeys(db[AreasList]);
    KeyByUuidKeys(db[NoAreaList]);
    KeyByUuidLast(db[AreasList]);
    KeyByUuidLast(db[NoAreaList]);
  }

  /**
   * Headings and to-dos hold exactly the incomplete records of those types from the
   * six active lists, each under its own UUID.
   */
  lemma CollectActive(db: map<string, seq<Item>>)
    requires CollectByType(db).Ok?
    ensures var c := CollectByType(db).value;
      && (forall k | k in c.headings :: c.headings[k].uuid == k && ActiveOfKind(db, c.headings[k], HeadingKind))
      && (forall k | k in c.todos :: c.todos[k].uuid == k && ActiveOfKind(db, c.todos[k], ToDoKind))
      && (forall x | ActiveOfKind(db, x, HeadingKind) :: x.uuid in c.headings)
      && (forall x | ActiveOfKind(db, x, ToDoKind) :: x.uuid in c.todos)
  {
    var c, active := CollectByType(db).value, Active(db, ActiveLists).value;
    assert c.headings == KeyByUuid(OfKind(active, HeadingKind));
    assert c.todos == KeyByUuid(OfKind(active, ToDoKind));
    KeyedActive(db, HeadingKind);
    KeyedActive(db, ToDoKind);
  }

  /** The active records of one type, keyed by UUID, are exactly the records `ActiveOfKind` names. */
  lemma KeyedActive(db: map<string, seq<Item>>, kind: string)
    requires Active(db, ActiveLists).Ok?
    ensures var r := KeyByUuid(OfKind(Active(db, ActiveLists).value, kind));
      && (forall k | k in r :: ActiveOfKind(db, r[k], kind))
      && (forall x | ActiveOfKind(db, x, kind) :: x.uuid in r)
  {
    ActiveMembers(db, ActiveLists);
    var xs := OfKind(Active(db, ActiveLists).value, kind);
    KeyByUuidKeys(xs);
    forall k | k in KeyByUuid(xs) ensures ActiveOfKind(db, KeyByUuid(xs)[k], kind) {
      KeyedFromList(xs, k);
    }
    forall x | ActiveOfKind(db, x, kind) ensures x.uuid in KeyByUuid(xs) {
      assert x in xs;
      var i :| 0 <= i < |xs| && xs[i] == x;
    }
  }

  /** Every value of `KeyByUuid(xs)` is a record of `xs`. */
  lemma KeyedFromList(xs: seq<Item>, k: string)
    requires k in KeyByUuid(xs)
    ensures KeyByUuid(xs)[k] in xs
  {
    KeyByUuidKeys(xs);
    KeyByUuidLast(xs);
    var i :| 0 <= i < |xs| && xs[i].uuid == k;
    var last := LastIndex(xs, i);
  }

  /** The last record of `xs` with the UUID of record `i`. */
  lemma {:induction false} LastIndex(xs: seq<Item>, i: int) returns (j: int)
    requires 0 <= i < |xs|
    ensures i <= j < |xs| && xs[j].uuid == xs[i].uuid && LastOf(xs, j)
    decreases |xs| - i
  {
    if LastOf(xs, i) {
      j := i;
    } else {
      var j' :| i < j' < |xs| && xs[j'].uuid == xs[i].uuid;
      j := LastIndex(xs, j');
    }
  }

  // ---------------------------------------------------------------------------
  // The container of a to-do (convert.py:66-73)
  // ---------------------------------------------------------------------------

  /** Where a to-do's file goes: under a heading, a project, an area, or in the inbox. */
  datatype Container = UnderHeading(heading: Item) | UnderProject(project: Item) | UnderArea(area: Item) | InInbox

  /** The first reference among heading, project and area, looked up in its dictionary. */
  function ContainerOf(todo: Item, c: Collected): Result<Container, KeyError> {
    if todo.heading.Some? then
      (if todo.heading.value in c.headings then Ok(UnderHeading(c.headings[todo.heading.value]))
       else Err(MissingKey(todo.heading.value)))
    else if todo.project.Some? then
      (if todo.project.value in c.projects then Ok(UnderProject(c.projects[todo.project.value]))
       else Err(MissingKey(todo.project.value)))
    else if todo.area.Some? then
      (if todo.area.value in c.areas then Ok(UnderArea(c.areas[todo.area.value]))
       else Err(MissingKey(todo.area.value)))
    else Ok(InInbox)
  }

  /** The UUID of the container, none for the inbox. */
  function ContainerKey(ct: Container): Option<string> {
    match ct
    case UnderHeading(h) => Some(h.uuid)
    case UnderProject(p) => Some(p.uuid)
    case UnderArea(a) => Some(a.uuid)
    case InInbox => None
  }

  /** Every dictionary of `c` holds each record under its own UUID. */
  predicate WellKeyed(c: Collected) {
    && (forall k | k in c.areas :: c.areas[k].uuid == k)
    && (forall k | k in c.projects :: c.projects[k].uuid == k)
    && (forall k | k in c.headings :: c.headings[k].uuid == k)
    && (forall k | k in c.todos :: c.todos[k].uuid == k)
  }

  lemma CollectWellKeyed(db: map<string, seq<Item>>)
    requires CollectByType(db).Ok?
    ensures WellKeyed(CollectByType(db).value)
  {
  }

  /**
   * The container is the record the first present reference names, of the matching
   * kind; the lookup fails exactly when that record is missing; a to-do without
   * references goes to the inbox.
   */
  lemma ContainerChoice(todo: Item, c: Collected)
    requires WellKeyed(c)
    ensures var r := ContainerOf(todo, c);
      && (todo.heading.Some? ==> (r.Ok? <==> todo.heading.value in c.headings) && (r.Ok? ==> r.value.UnderHeading? && ContainerKey(r.value) == todo.heading))
      && (todo.heading.None? && todo.project.Some? ==> (r.Ok? <==> todo.project.value in c.projects) && (r.Ok? ==> r.value.UnderProject? && ContainerKey(r.value) == todo.project))
      && (todo.heading.None? && todo.project.None? && todo.area.Some? ==> (r.Ok? <==> todo.area.value in c.areas) && (r.Ok? ==> r.value.UnderArea? && ContainerKey(r.value) == todo.area))
      && (todo.heading.None? && todo.project.None? && todo.area.None? ==> r == Ok(InInbox))
  {
  }

  /**
   * convert.py and things2md.py pick the same parent for a to-do with a reference.
   * Without one, convert.py always picks the inbox, while things2md.py picks 'Inbox'
   * only when the Inbox list names the to-do.
   */
  lemma ParentChoicesAgree(todo: Item, c: Collected, m: map<string, Entry>)
    requires WellKeyed(c) && ContainerOf(todo, c).Ok?
    ensures todo.heading.Some? || todo.project.Some? || todo.area.Some? ==>
      Hierarchy.ParentOf(Registry.Dry(todo), m) == Ok(ContainerKey(ContainerOf(todo, c).value))
    ensures todo.heading.None? && todo.project.None? && todo.area.None? ==>
      && ContainerOf(todo, c) == Ok(InInbox)
      && Hierarchy.ParentOf(Registry.Dry(todo), m) in {Err(MissingInbox), Ok(Some(InboxKey)), Ok(None)}
  {
    ContainerChoice(todo, c);
  }
}
