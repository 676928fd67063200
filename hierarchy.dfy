/**
 * Filenames and parent links (things2md.py:63-72): every registry entry gets a
 * filename derived from its title and the key of its parent.
 */
module Hierarchy {
  import opened ThingsData

  // ---------------------------------------------------------------------------
  // Filenames (things2md.py:64-65)
  // ---------------------------------------------------------------------------

  /** U+A789 MODIFIER LETTER COLON, which stands in for ':'. */
  const ColonLookalike: char := '\U{A789}'
  /** U+2215 DIVISION SLASH, which stands in for '/'. */
  const SlashLookalike: char := '\U{2215}'

  /** `str.replace` for one character. */
  function Replace(s: string, from: char, to: char): (r: string)
    ensures |r| == |s|
    ensures forall i | 0 <= i < |s| :: r[i] == (if s[i] == from then to else s[i])
  {
    if s == [] then [] else Replace(s[..|s| - 1], from, to) + [if s[|s| - 1] == from then to else s[|s| - 1]]
  }

  /** The title with ':' and then '/' replaced by their look-alikes. */
  function Substitute(title: string): string {
    Replace(Replace(title, ':', ColonLookalike), '/', SlashLookalike)
  }

  /** The reverse substitution. */
  function Unsubstitute(name: string): string {
    Replace(Replace(name, SlashLookalike, '/'), ColonLookalike, ':')
  }

  /** A filename keeps the title's length and holds neither ':' nor '/'. */
  lemma SubstituteIsSafe(title: string)
    ensures |Substitute(title)| == |title|
    ensures ':' !in Substitute(title) && '/' !in Substitute(title)
  {
    var r := Substitute(title);
    forall i | 0 <= i < |r| ensures r[i] != ':' && r[i] != '/' {
    }
  }

  /** On titles without the two look-alikes the substitution is undone by `Unsubstitute`. */
  lemma SubstituteRoundTrip(title: string)
    requires ColonLookalike !in title && SlashLookalike !in title
    ensures Unsubstitute(Substitute(title)) == title
  {
    var r := Unsubstitute(Substitute(title));
    assert |r| == |title|;
    forall i | 0 <= i < |title| ensures r[i] == title[i] {
      assert title[i] != ColonLookalike && title[i] != SlashLookalike;
    }
  }

  /** Hence two such titles never share a filename. */
  lemma SubstituteInjective(a: string, b: string)
    requires ColonLookalike !in a && SlashLookalike !in a
    requires ColonLookalike !in b && SlashLookalike !in b
    requires Substitute(a) == Substitute(b)
    ensures a == b
  {
    SubstituteRoundTrip(a);
    SubstituteRoundTrip(b);
  }

  /** Without that restriction two titles can share a filename: ":" and the look-alike itself. */
  lemma SubstituteNotInjective()
    ensures Substitute(":") == Substitute([ColonLookalike]) && ":" != [ColonLookalike]
  {
    assert Substitute(":")[0] == ColonLookalike;
  }

  /** The filename of an entry: the substituted title, or '' for a heading. */
  function FilenameOf(e: Entry): string {
    if e.kind != HeadingKind then Substitute(e.title) else ""
  }

  // ---------------------------------------------------------------------------
  // Parent resolution (things2md.py:66-72)
  // ---------------------------------------------------------------------------

  /**
   * The parent key of `e`: the first reference among heading, project and area, else
   * 'Inbox' when the Inbox entry lists the entry's UUID, else none. Reaching the
   * Inbox test without an Inbox entry (or one without `items`) is the source's KeyError.
   */
  function ParentOf(e: Entry, m: map<string, Entry>): Result<Option<string>, Error> {
    if e.heading.Some? then Ok(Some(e.heading.value))
    else if e.project.Some? then Ok(Some(e.project.value))
    else if e.area.Some? then Ok(Some(e.area.value))
    else if InboxKey !in m || m[InboxKey].items.None? then Err(MissingInbox)
    else if e.uuid in m[InboxKey].items.value then Ok(Some(InboxKey))
    else Ok(None)
  }

  /** The entry with its filename and parent filled in. */
  function Link(e: Entry, m: map<string, Entry>): Entry
    requires ParentOf(e, m).Ok?
  {
    e.(filename := FilenameOf(e), parent := ParentOf(e, m).value)
  }

  /** The registry after the loop of things2md.py:63-72. */
  function LinkAll(m: map<string, Entry>): Result<map<string, Entry>, Error> {
    if exists k | k in m :: ParentOf(m[k], m).Err? then Err(MissingInbox)
    else Ok(map k | k in m :: Link(m[k], m))
  }

  /** The `match` of things2md.py:66-72 for one entry. */
  method ChooseParent(item: Entry, uuids: map<string, Entry>) returns (r: Result<Option<string>, Error>)
    ensures r == ParentOf(item, uuids)
  {
    if item.heading.Some? {
      r := Ok(item.heading);
    } else if item.project.Some? {
      r := Ok(item.project);
    } else if item.area.Some? {
      r := Ok(item.area);
    } else if InboxKey !in uuids || uuids[InboxKey].items.None? {
      r := Err(MissingInbox);
    } else if item.uuid in uuids[InboxKey].items.value {
      r := Ok(Some(InboxKey));
    } else {
      r := Ok(None);
    }
  }

  /** The loop of things2md.py:63-72 over every registry entry. */
  method AssignParents(m: map<string, Entry>) returns (r: Result<map<string, Entry>, Error>)
    ensures r == LinkAll(m)
  {
    var uuids := m;
    var todo := m.Keys;
    while todo != {}
      invariant todo <= m.Keys
      invariant uuids.Keys == m.Keys
      invariant forall k | k in m && k !in todo :: ParentOf(m[k], m).Ok? && uuids[k] == Link(m[k], m)
      invariant forall k | k in todo :: uuids[k] == m[k]
      decreases |todo|
    {
      var k :| k in todo;
      var item := uuids[k];
      var filename := Substitute(item.title);
      // the Inbox entry's `items` is never changed by this loop, so `uuids` and `m` agree on it
      var parent := ChooseParent(item, m);
      if parent.Err? {
        return Err(MissingInbox);
      }
      uuids := uuids[k := item.(filename := if item.kind != HeadingKind then filename else "", parent := parent.value)];
      todo := todo - {k};
    }
    LinkAllOk(m, uuids);
    r := Ok(uuids);
  }

  /** A registry linked entry by entry is the one `LinkAll` describes. */
  lemma LinkAllOk(m: map<string, Entry>, uuids: map<string, Entry>)
    requires uuids.Keys == m.Keys
    requires forall k | k in m :: ParentOf(m[k], m).Ok? && uuids[k] == Link(m[k], m)
    ensures LinkAll(m) == Ok(uuids)
  {
    assert uuids == map k | k in m :: Link(m[k], m);
  }

  /**
   * Linking only adds the filename and the parent: every other field of every entry,
   * and the set of keys, stay as they were.
   */
  lemma LinkAllKeepsRecords(m: map<string, Entry>)
    requires LinkAll(m).Ok?
    ensures LinkAll(m).value.Keys == m.Keys
    ensures forall k | k in m ::
      LinkAll(m).value[k] == m[k].(filename := LinkAll(m).value[k].filename, parent := LinkAll(m).value[k].parent)
  {
  }

  /**
   * Where linking succeeds, each entry's parent follows the precedence heading,
   * project, area, Inbox membership, none; linking fails exactly when some entry
   * with no reference meets a registry without a usable Inbox entry.
   */
  lemma LinkAllParents(m: map<string, Entry>)
    ensures LinkAll(m).Err? <==>
      (InboxKey !in m || m[InboxKey].items.None?) &&
      exists k | k in m :: m[k].heading.None? && m[k].project.None? && m[k].area.None?
    ensures LinkAll(m).Ok? ==> forall k | k in m ::
      var e, p := m[k], LinkAll(m).value[k].parent;
      && (e.heading.Some? ==> p == e.heading)
      && (e.heading.None? && e.project.Some? ==> p == e.project)
      && (e.heading.None? && e.project.None? && e.area.Some? ==> p == e.area)
      && (e.heading.None? && e.project.None? && e.area.None? ==>
            (p == Some(InboxKey) <==> e.uuid in m[InboxKey].items.value) && (p.None? <==> e.uuid !in m[InboxKey].items.value))
  {
  }
}
