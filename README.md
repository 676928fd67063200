# things2md in Dafny

things2md turns a Things3 export, as written by `things-cli -j all`, into a tree of
Markdown files. The export is a list of named lists (Inbox, Today, Upcoming, Anytime,
Someday, Logbook, No Area, Areas). Each list holds records: to-dos, projects, areas and
headings. Projects and areas nest their own records.

This project models the part of the program that decides what goes where.

`load_db` (things2md.py) builds one registry keyed by UUID. It runs these phases:

1. It keeps incomplete records unless `all_todos` is set.
2. It stores one record per UUID and fails on two different records with the same UUID.
3. It reduces nested records to UUID lists.
4. It adds one entry per list and fails on a list that names a UUID twice.
5. It gives every record a filename and a parent.
6. It walks each record's parent chain to build its relative path.
7. It appends `-<uuid>` to every path that two or more records share.
8. It fails when a path is 256 characters or longer.

From the older convert.py the model covers three pure pieces:

- `sanitize_path`, the slug used for file names;
- `collect_by_type`, which splits an export into areas, projects, headings and to-dos;
- the choice of a to-do's container in `create_todos`.

Modules:

- `ThingsData` (things_data.dfy) holds the records, lists, registry entries and error kinds.
- `Registry` (registry.dfy) covers phases 1-4.
- `Hierarchy` (hierarchy.dfy) covers phase 5.
- `Paths` (paths.dfy) covers phase 6.
- `Collisions` (collisions.dfy) covers phases 7 and 8.
- `LoadDb` (load_db.dfy) covers the whole of `load_db`.
- `Convert` (convert.dfy) covers the three convert.py pieces.

`load_db` is imperative, so each of its loops is a Dafny `method` with a `while` loop and
loop invariants. Each method is proved equal to a specification function:

| method | specification function |
|---|---|
| `RegisterAll` | `Register` |
| `DryChildLists` | `DryAll` |
| `IndexAll` | `IndexLists` |
| `AssignParents` | `LinkAll` |
| `BuildPaths` | `ResolvePaths` |
| `DedupePaths` | `Dedupe` |
| `CheckLengths` | `ShortEnough` |

`LoadDb.LoadDb` chains these methods. Its postcondition ties it to `LoadDb.Load`, and the
lemmas of `LoadDb` state what a load promises and why a load fails.

A failed Python `assert` or `KeyError` is an `Err` carrying the phase's error kind.

## Model

| member | source | states |
|---|---|---|
| ThingsData.Uuids | things2md.py:59 | the UUIDs of a list of records, one per record, in input order |
| Registry.RegisterList | things2md.py:44-52 | one list's records, filtered and checked against the registry so far, give the registry of everything seen up to and including that list |
| Registry.RegisterAll | things2md.py:42-52 | the registry loop over all lists yields `Register` of every record of every list, in list order |
| Registry.RegisterErrKind | things2md.py:50 | the registry loop can fail only with a divergent duplicate |
| Registry.RegisterErrMeaning | things2md.py:48-52 | a failed registry implies two kept records with the same UUID that differ |
| Registry.RegisterOkKeys | things2md.py:45-52 | the registry's keys are exactly the UUIDs of the records that pass the status filter |
| Registry.RegisterOkContents | things2md.py:48-52 | every kept record is stored under its UUID, and the stored record equals it |
| Registry.RegisterOkMeaning | things2md.py:45-52 | a successful registry comes from consistent records, is keyed by the kept UUIDs, and holds each kept record under its UUID |
| Registry.RegisterKeyed | things2md.py:48-56 | the registry holds each record under its own UUID, before and after its children are reduced to UUIDs |
| Registry.RegisterOkIffConsistent | things2md.py:48-52 | the registry succeeds if and only if any two kept records with the same UUID are equal |
| Registry.RegisterErrSticky | things2md.py:50 | after a failed duplicate check, later records do not change the outcome |
| Registry.DryChildLists | things2md.py:54-56 | every registry record is replaced by its dry form, and the keys stay the same |
| Registry.DryKeepsRecord | things2md.py:55-56 | the dry form keeps UUID, type and status, and lists the nested records' UUIDs in order |
| Registry.NoRepeatsIffDistinct | things2md.py:60 | `len(ids) == len(set(ids))` holds if and only if no UUID occurs twice in the list |
| Registry.IndexAll | things2md.py:58-61 | the list loop yields `IndexLists`: one entry per list, or a failure on the first list with a repeated UUID |
| Registry.IndexListsErr | things2md.py:59-60 | a failed list loop implies some list that names a UUID twice |
| Registry.IndexListsOkDistinct | things2md.py:59-60 | after a successful list loop, every list names each UUID at most once |
| Registry.IndexListsOkIff | things2md.py:59-60 | the list loop succeeds if and only if every raw list, including records the filter dropped, names each UUID at most once |
| Registry.IndexListsErrKind | things2md.py:60 | the list loop can fail only with a repeated list member |
| Registry.IndexListsKeyed | things2md.py:58-61 | a list entry takes its title as UUID, so the list loop keeps a registry keyed by UUID |
| Registry.IndexListsOkKeys | things2md.py:58-61 | the list loop adds exactly the list titles as keys and leaves every other entry unchanged |
| Registry.IndexListsOkEntries | things2md.py:59-61 | a list title maps to an entry with that title as UUID, type and title, and with the members of the last list of that title in input order |
| Registry.IndexErrSticky | things2md.py:60 | after a failed list check, later lists do not change the outcome |
| Hierarchy.Replace | things2md.py:64 | `str.replace` of one character keeps the length and changes exactly the occurrences of that character |
| Hierarchy.SubstituteIsSafe | things2md.py:64 | a filename has the title's length and contains neither ':' nor '/' |
| Hierarchy.SubstituteRoundTrip | things2md.py:64 | on titles without U+A789 and U+2215, reversing the substitution gives back the title |
| Hierarchy.SubstituteInjective | things2md.py:64 | two titles without U+A789 and U+2215 that give the same filename are equal |
| Hierarchy.SubstituteNotInjective | things2md.py:64 | without that restriction, the title ":" and the one-character title U+A789 give the same filename |
| Hierarchy.ChooseParent | things2md.py:66-72 | the imperative rendering of the `match`, proved equal to `ParentOf`, whose precedence (heading, project, area, 'Inbox' for Inbox members, none, failure when the Inbox entry is missing) `Hierarchy.LinkAllParents` states |
| Hierarchy.AssignParents | things2md.py:63-72 | the loop gives every entry its filename ('' for headings) and its parent, or fails when an entry without references meets a missing Inbox entry |
| Hierarchy.LinkAllKeepsRecords | things2md.py:63-72 | linking keeps the keys and every field except `filename` and `parent` |
| Hierarchy.LinkAllParents | things2md.py:66-72 | linking fails exactly when some entry has no reference and there is no usable Inbox entry; otherwise each parent follows the precedence heading, project, area, Inbox membership, none (both directions for the last two) |
| Paths.SelfParentIsCyclic | things2md.py:80-81 | an entry that names itself as parent violates the acyclicity the walk needs to end |
| Paths.WalkUp | things2md.py:79-84 | the `while` walk returns the non-heading ancestors' filenames, root first, then the entry's own filename, or fails at a missing parent |
| Paths.BuildPaths | things2md.py:74-84 | the loop gives headings no path and every other entry the path `PathOf` describes, or fails at a missing parent |
| Paths.AboveFuel | things2md.py:80-83 | the walk's result does not depend on how many extra steps it may take |
| Paths.RootPath | things2md.py:79-80 | an entry without a parent that is not a heading has its own filename as its path |
| Paths.ChildPath | things2md.py:80-83 | under a parent that is not a heading, the path is the parent's path plus the entry's own filename, and a failing parent walk makes this walk fail too |
| Paths.HeadingChildPath | things2md.py:82-83 | a heading adds no segment: under a heading, an entry sits directly under the heading's container, or at the top if the heading has no parent |
| Paths.ResolvePathsShape | things2md.py:74-84 | the walk keeps every key and field except `fullpath`, and exactly the headings end without a path |
| Collisions.TwoSharers | things2md.py:86-89 | two different entries with the same path make that path a duplicate |
| Collisions.SharedIffOther | things2md.py:86-89 | a path is in `path_counts - deduped` if and only if another entry has the same path |
| Collisions.CountPaths | things2md.py:86-87 | the Counter maps each path to the number of entries that have it (0 when absent) |
| Collisions.RenameShared | things2md.py:90-93 | given exactly the shared paths, the loop renames each entry as `Dedupe` describes |
| Collisions.DedupePaths | things2md.py:86-93 | counting and then renaming yields `Dedupe`, or leaves the registry unchanged when no path is shared |
| Collisions.DedupeRewritesShared | things2md.py:86-93 | a path changes if and only if two or more entries have it; a changed path gets '-' and the entry's UUID appended to its last segment; no other field changes |
| Collisions.DedupeSeparatesSharers | things2md.py:90-93 | entries that shared a path end with different paths |
| Collisions.DedupeStrandsChildren | things2md.py:86-93 | renaming changes only the shared paths themselves: two projects at "P" become "P-p1" and "P-p2", while a to-do of "p1" stays at "P/t" |
| Collisions.DedupeCanClash | things2md.py:86-93 | a single renaming pass can give two entries the same path (see Findings) |
| Collisions.ResolveCollisions | things2md.py:86-93 | a successful resolution has pairwise different paths; it agrees with the source's pass whenever that pass fails or already yields different paths |
| Collisions.CheckDistinct | things2md.py:86-93 | the check succeeds if and only if no two entries share a path |
| Collisions.ResolveAll | things2md.py:86-93 | the source's pass followed by the uniqueness check yields `ResolveCollisions` |
| Collisions.JoinSlashLength | things2md.py:96 | `str()` of a path of several segments has the segments' characters plus one '/' between each pair of neighbours |
| Collisions.CheckLengths | things2md.py:95-96 | the check succeeds if and only if `str()` of every path, "None" for headings, has fewer than 256 characters |
| LoadDb.LoadDb | things2md.py:42-98 | on input whose parent links are acyclic, the phases in sequence return `Load`: the final registry or the first failing check |
| LoadDb.LoadStages | things2md.py:42-98 | a successful load passed linking, the walk and the renaming, and returns the renamed registry |
| LoadDb.LoadKeepsLinked | things2md.py:74-96 | the phases after linking keep every key and every field except `fullpath`, and exactly the headings have no path |
| LoadDb.LinkedShape | things2md.py:42-72 | before linking, the keys are the kept UUIDs plus the list titles; each kept record not shadowed by a title is in dry form, and each title holds its last list |
| LoadDb.LinkedKeyed | things2md.py:42-72 | every entry of the linked registry is stored under its own UUID, which the renaming relies on |
| LoadDb.LinkedRecords | things2md.py:42-72 | linking keeps every kept record not shadowed by a list title, with its filename and its parent chosen by precedence |
| LoadDb.LoadRecords | things2md.py:42-72 | after a successful load, every kept record whose UUID no list title shares is present with its fields, its children's UUIDs, its filename, and its parent chosen by heading, project, area, then Inbox membership |
| LoadDb.LoadLists | things2md.py:58-61 | after a successful load, each list title maps to an entry of that type whose items are the UUIDs of the last list with that title, in order |
| LoadDb.LoadKeys | things2md.py:42-61 | the result's keys are the kept UUIDs plus the list titles; without `all_todos`, no record with a status other than 'incomplete' is present |
| LoadDb.LoadSeparatesSharers | things2md.py:86-93 | two registry entries the path walk put at the same path leave the renaming with different paths |
| LoadDb.LoadPaths | things2md.py:86-96 | in a successful load, no two entries share a path and every path is shorter than 256 characters |
| LoadDb.LoadLateErrors | things2md.py:74-96 | once linking succeeds, a load can fail only with a missing parent, a refused rename, a path clash or a path that is too long |
| LoadDb.LinkedEarlyErrors | things2md.py:42-61 | linking fails with a divergent duplicate if and only if two kept records share a UUID but differ; it fails with a repeated list member if and only if there is no such pair but some list names a UUID twice |
| LoadDb.LoadEarlyErrors | things2md.py:42-61 | the same two conditions decide the two early failures of the whole load, in both directions |
| Convert.AsciiOnly | convert.py:18 | the ASCII filter keeps only ASCII characters and leaves ASCII text unchanged; a single character is kept exactly when it is ASCII |
| Convert.AsciiOnlyAppend | convert.py:18 | the filter works on each piece of a concatenation separately; with the one-character case, it keeps exactly the input's ASCII characters, in order |
| Convert.Lower | convert.py:19 | lower-casing maps 'A'-'Z' to 'a'-'z' and keeps every other character and the length |
| Convert.DropDisallowed | convert.py:19 | the deletion keeps only word characters, whitespace and '-', each taken from the input, and leaves text made only of those unchanged; a single character is kept exactly when it is one of those |
| Convert.DropDisallowedAppend | convert.py:19 | the deletion works on each piece of a concatenation separately; with the one-character case, it keeps exactly the input's word characters, whitespace and '-', in order |
| Convert.Collapse | convert.py:20 | collapsing runs of '-' and whitespace leaves no "--"; it starts with '-' exactly when the input starts with a separator; when the input holds only slug characters and whitespace, the result holds only slug characters |
| Convert.CollapseRun | convert.py:20 | a non-empty run made only of '-' and whitespace becomes a single '-' |
| Convert.DropSepsSplit | convert.py:20 | skipping a leading run of '-' and whitespace stops at the first other character and keeps everything from there on |
| Convert.CollapseSplit | convert.py:20 | a character other than '-' and whitespace survives collapsing and splits it: each side collapses on its own; with `CollapseRun` this fixes the result of every input |
| Convert.StripLeft | convert.py:20 | the result is a suffix of the input that does not start with '-' or '_'; only '-' and '_' were removed |
| Convert.StripRight | convert.py:20 | the result is a prefix of the input that does not end with '-' or '_'; only '-' and '_' were removed |
| Convert.Truncate | convert.py:21 | `value[:n]` is a prefix of the value: for `0 <= n` it has `min(n, len(value))` characters, so it is the whole value once `n` reaches its length; for negative `n` it drops the last `-n` characters, leaving nothing when those are all of them |
| Convert.SanitizePath | convert.py:8-21 | the result is a prefix of the slug with exactly `max_length` characters when the slug has at least that many, ASCII, made of a-z, 0-9, '_' and '-', without "--", not starting with '-' or '_'; untruncated it is the whole slug and does not end with '-' or '_' |
| Convert.DefaultLeavesRoomForUuid | convert.py:8-12 | with the default `max_length` of 232, a sanitized name followed by '-' and a 22-character Things UUID has at most 255 characters |
| Convert.TruncatedSlug | convert.py:21 | a truncated slug stays clean, ASCII, and free of a leading '-' or '_' |
| Convert.CollapsedIsClean | convert.py:18-20 | before stripping, the text is made of slug characters and has no "--" |
| Convert.StripIsSlug | convert.py:20 | stripping clean text gives text with neither a leading nor a trailing '-' or '_' |
| Convert.SlugIsSlug | convert.py:18-20 | every slug is clean, with no '-' or '_' at either end |
| Convert.CollapseFixed | convert.py:20 | text without whitespace or "--" is unchanged by collapsing |
| Convert.SlugOfSlug | convert.py:18-20 | a string in slug form is its own slug |
| Convert.SlugIdempotent | convert.py:18-20 | slugging twice is slugging once |
| Convert.SanitizePathIdempotent | convert.py:8-21 | when nothing is truncated, sanitizing twice is sanitizing once |
| Convert.SlugDropsTrailingHyphen | convert.py:20 | a trailing '-' is stripped: "a-" becomes "a" |
| Convert.TruncationCanEndInHyphen | convert.py:20-21 | truncation after stripping can leave a trailing '-': "a-b" cut to 2 is "a-", which a second pass turns into "a" |
| Convert.SlugKeepsAlnums | convert.py:18-20 | the slug keeps every ASCII letter and digit of the lower-cased input, in order |
| Convert.KeyByUuid | convert.py:33-34 | each value of the dict comprehension is stored under its own UUID |
| Convert.KeyByUuidKeys | convert.py:33-34 | the keys are exactly the UUIDs of the records |
| Convert.KeyByUuidLast | convert.py:33-34 | each UUID maps to the last record that carries it |
| Convert.IncompleteIn | convert.py:37 | the filter keeps exactly the records whose status is 'incomplete' |
| Convert.OfKind | convert.py:38-39 | the filter keeps exactly the records of the given type |
| Convert.ActiveOkIff | convert.py:36-37 | the comprehension succeeds if and only if every named list exists and all its records have a status |
| Convert.ActiveMembers | convert.py:36-37 | the comprehension returns exactly the incomplete records of the named lists |
| Convert.CollectOkIff | convert.py:32-41 | `collect_by_type` succeeds if and only if 'Areas', 'No Area' and the six active lists exist and the active lists' records all have a status |
| Convert.CollectAreasProjects | convert.py:33-34 | `areas` and `projects` are keyed by the UUIDs of the 'Areas' and 'No Area' lists, with the last record per UUID |
| Convert.KeyedActive | convert.py:37-39 | the active records of one type, keyed by UUID, are exactly the incomplete records of that type in the six active lists |
| Convert.CollectActive | convert.py:36-39 | `headings` and `todos` hold exactly the incomplete headings and to-dos of the six active lists, each under its own UUID |
| Convert.CollectWellKeyed | convert.py:32-41 | all four dictionaries hold each record under its own UUID |
| Convert.ContainerChoice | convert.py:66-73 | the container is the record that the first present reference (heading, project, area) names, of the matching kind, and the lookup fails exactly when that record is missing; a to-do without a reference goes to the inbox |
| Convert.ParentChoicesAgree | convert.py:66-73 | with a reference, convert.py's container and things2md.py's parent are the same UUID; without one, convert.py always picks the inbox and things2md.py picks 'Inbox', none, or fails |

## Left out

- Reading the JSON export, bottle templates and every `.md` write are left out because they are I/O. The model starts from the parsed lists.
- `create_directories`, the `Path.exists()` clash handling, `mkdir` and `touch` are left out because they depend on the live filesystem.
- `create_upcoming` and `create_today` are left out because they depend on the clock and on date formatting.
- The argument parser, `os.system` and commented-out code are left out; they are command-line glue.
- `unicodedata.normalize` is left out because it needs Unicode tables. Likewise the `allow_unicode=True` branch of `sanitize_path`.
- Convert.SanitizePath: the input is taken to be already in NFKD form. `str(value)` of a non-string is not modelled.
- Convert.Slug: `\w`, `\s` and `lower()` are modelled on ASCII text only. This is exactly the text left after the ASCII filter.
- pathlib is modelled as a sequence of segments, with `str()` joining them by '/'.
  - Only the behaviour `load_db` relies on is kept: '' and '.' segments vanish, and `with_name` refuses an empty path or a bad name.
- A record field that is absent is `None` in the model.
  - A reference or status key present with the JSON value null is not distinguished from an absent one.
  - Python's `match` would take such a null reference as the parent, where the model falls through to the next reference.
- Titles are strings; `str()` of a non-string title is not modelled.
- Fields the model does not read are one opaque map (notes, dates, indexes, checklist). They take part in the duplicate check and are otherwise carried unchanged.
- Python records are dictionaries updated in place and shared between the raw lists and the registry.
  - The model keeps each record as a value and replaces it in the map.
  - Nothing in `load_db` reads an updated field back through the raw lists, so no result depends on the sharing.
- The `uuids` dictionary is a local variable of `load_db`, not a field of an object.
  - It is a local map in each phase's method, and the phases pass it from one to the next.
- Dict iteration order is not modelled. Every loop over `uuids.values()` can fail in only one way, so the outcome does not depend on the order.
- Errors carry their kind but not the assertion message or the missing key (except in `collect_by_type`, whose `KeyError` keeps the key).
- LoadDb.LoadDb requires an acyclic parent chain.
  - On a cycle the `while` walk of things2md.py:80-83 never ends, and the model does not describe a run that does not end.
  - `Paths.SelfParentIsCyclic` shows one such input.
- LoadDb.LoadDb renames with the uniqueness check of `Collisions.ResolveAll` (see Findings). The source's own pass is `Collisions.DedupePaths`.
- Collisions.CheckLengths counts characters of `str(path)` (`< 256`, things2md.py:95-96), as the code does. The comment there names the 255-character limit of APFS; a limit in bytes would differ on non-ASCII names and is not modelled.
- The Inbox entry keeps the members of the Inbox list in list order (things2md.py:59-61); nothing sorts them.
- A list entry replaces any record whose UUID equals the list's title (things2md.py:61). The comment on line 58 relies on titles never being well-formed UUIDs; the model does not check that, and `LoadDb.LoadRecords` makes no promise for such a record.
- A renamed path is not carried into the paths of the entries below it (`Collisions.DedupeStrandsChildren`), as in the source. The model keeps that behaviour, because the source does not say where such children are meant to go.
- `collect_by_type` takes every record to have a `type` field, as the export always provides one. A missing `type` is not modelled as a `KeyError`.

## Findings

| source | as written | input that shows it | evidently intended | confidence | as-written member | corrected member |
|---|---|---|---|---|---|---|
| things2md.py:86-93 | one pass appends `-<uuid>` only to paths that occurred twice or more, then never looks again | three to-dos at the top level: UUID "a" titled "x-b", UUIDs "b" and "c" both titled "x"; "b" is renamed to "x-b", the path "a" already has | after renaming, no two entries share a path (the length check and the file writes rely on one file per entry) | not executed | Collisions.DedupeCanClash | Collisions.ResolveCollisions |

`Collisions.Dedupe` and `Collisions.DedupePaths` are the source's pass as written.
`Collisions.DedupeCanClash` proves that on the input above two entries end with the path
`x-b`. `Collisions.ResolveCollisions` (run by `Collisions.ResolveAll`) adds the fatal check
that no two entries share a path. A clash is reported as `PathClash`, like the source's
other integrity failures. `LoadDb.Load` uses it, and `LoadDb.LoadPaths` proves that every
successful load has pairwise distinct paths.
