/**
 * The records of a Things3 export and of the registry that `load_db`
 * builds from it (things2md.py), shared by every other module.
 */
module ThingsData {

  datatype Option<+T> = None | Some(value: T)

  datatype Result<+T, +E> = Ok(value: T) | Err(error: E)

  /** One record of the export as parsed from JSON: a to-do, project, area or heading. */
  datatype Item = Item(
    uuid: string,
    kind: string,               // the record's `type` field
    title: string,
    status: Option<string>,     // absent on areas and headings
    heading: Option<string>,    // reference fields, present only when set
    project: Option<string>,
    area: Option<string>,
    items: Option<seq<Item>>,   // the nested records of a project or an area
    other: map<string, string>  // every further field (notes, dates, indexes), opaque here
  )

  /** One named list of the export (Inbox, Today, Areas, No Area, ...). */
  datatype SourceList = SourceList(title: string, items: seq<Item>)

  /** A path as the sequence of its segments, root first. */
  type Path = seq<string>

  /**
   * A registry record: the fields of an `Item` with its nested records reduced to
   * their UUIDs, plus the three fields `load_db` derives (empty until assigned).
   */
  datatype Entry = Entry(
    uuid: string,
    kind: string,
    title: string,
    status: Option<string>,
    heading: Option<string>,
    project: Option<string>,
    area: Option<string>,
    items: Option<seq<string>>,
    other: map<string, string>,
    filename: string,
    parent: Option<string>,
    fullpath: Option<Path>
  )

  /** The ways `load_db` stops without a registry. */
  datatype Error =
    | DivergentDuplicate   // one UUID, two different records
    | DuplicateInList      // one list names the same UUID twice
    | MissingInbox         // the `Inbox` entry or its `items` is absent
    | MissingParent        // a parent reference names no registry entry
    | InvalidRename        // `with_name` refuses to rename a clashing path
    | PathClash            // two entries still share a path after renaming
    | PathTooLong          // a path has 256 characters or more

  const HeadingKind := "heading"
  const InboxKey := "Inbox"

  /** True when every record is stored under its own UUID. */
  predicate KeyedByUuid(m: map<string, Entry>) {
    forall k | k in m :: m[k].uuid == k
  }

  /** The UUIDs of a list of records, in order. */
  function Uuids(xs: seq<Item>): (r: seq<string>)
    ensures |r| == |xs|
    ensures forall i | 0 <= i < |xs| :: r[i] == xs[i].uuid
  {
    if xs == [] then [] else Uuids(xs[..|xs| - 1]) + [xs[|xs| - 1].uuid]
  }
}
