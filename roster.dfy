/**
 * The roster load: every entry of the backend's `employees` array, a bare
 * name or a partial record, becomes a complete `Employee`.
 */
module Roster {
  import opened Optional
  import opened Chat
  import Seqs
  import Uri

  /**
   * One element of the backend's `employees` array. `NullEntry` is a `null`
   * element: reading its `name` throws, which aborts the whole load.
   * Any other non-string element reads like a record with every field absent.
   */
  datatype RosterEntry =
    | BareName(bare: string)
    | Partial(
        name: Option<string>,
        lastMessage: Option<string>,
        lastTimestamp: Option<string>,
        avatar: Option<string>,
        online: Option<bool>)
    | NullEntry

  /** The `employees` field of the roster response: an array, or anything else. */
  datatype RosterPayload = EntryList(entries: seq<RosterEntry>) | EntriesNotAList

  /** The text `encodeURIComponent` sees for a record's name: an absent name converts to "undefined". */
  function NameText(name: Option<string>): (text: string)
    ensures name.Some? ==> text == name.value
    ensures name.None? ==> text == "undefined"
  {
    if name.Some? then name.value else "undefined"
  }

  /** The callback of the roster `map`. */
  function NormalizeEntry(entry: RosterEntry): (r: Option<Employee>)
    ensures r.None? <==> entry.NullEntry?
    ensures entry.BareName? ==> r.Some? && r.value.name == Some(entry.bare)
    ensures entry.Partial? ==> r.Some? && r.value.name == entry.name
    ensures r.Some? ==> r.value.avatar != ""
  {
    match entry
    case BareName(s) =>
      Some(Employee(Some(s), "", "", Uri.AvatarFor(s), false))
    case Partial(name, lastMessage, lastTimestamp, avatar, online) =>
      Some(Employee(
        name,
        OrElse(lastMessage, ""),
        OrElse(lastTimestamp, ""),
        OrElse(avatar, Uri.AvatarFor(NameText(name))),
        Coalesce(online, false)))
    case NullEntry =>
      None
  }

  /**
   * The roster after a successful response: a non-array `employees` field
   * gives the empty roster; an array is mapped entry by entry, and a `null`
   * entry makes the whole mapping throw.
   */
  function NormalizeRoster(payload: RosterPayload): (r: Option<seq<Employee>>)
    ensures payload.EntriesNotAList? ==> r == Some([])
    ensures payload.EntryList? ==>
      (r.Some? <==> forall i :: 0 <= i < |payload.entries| ==> payload.entries[i] != NullEntry)
    ensures payload.EntryList? && r.Some? ==>
      |r.value| == |payload.entries| &&
      forall i :: 0 <= i < |payload.entries| ==> NormalizeEntry(payload.entries[i]) == Some(r.value[i])
  {
    match payload
    case EntriesNotAList => Some([])
    case EntryList(entries) => Seqs.MapAll((entry: RosterEntry, index: nat) => NormalizeEntry(entry), entries)
  }

  /** A bare name gets empty previews, the avatar derived from it, and is offline. */
  lemma BareNameDefaults(s: string)
    ensures NormalizeEntry(BareName(s)) == Some(Employee(Some(s), "", "", Uri.AvatarFor(s), false))
    ensures NormalizeEntry(BareName(s)) == NormalizeEntry(Partial(Some(s), None, None, None, None))
  {
  }

  /**
   * A record keeps its name and every non-empty string field, and `online`
   * whenever it is present; an empty or absent string field becomes "" (the
   * avatar: the one derived from the name), an absent `online` becomes false.
   */
  lemma PartialDefaults(
    name: Option<string>, lastMessage: Option<string>, lastTimestamp: Option<string>,
    avatar: Option<string>, online: Option<bool>)
    ensures var e := NormalizeEntry(Partial(name, lastMessage, lastTimestamp, avatar, online)).value;
      && e.name == name
      && (lastMessage.Some? && lastMessage.value != "" ==> e.lastMessage == lastMessage.value)
      && (lastMessage.None? || lastMessage.value == "" ==> e.lastMessage == "")
      && (lastTimestamp.Some? && lastTimestamp.value != "" ==> e.lastTimestamp == lastTimestamp.value)
      && (lastTimestamp.None? || lastTimestamp.value == "" ==> e.lastTimestamp == "")
      && (avatar.Some? && avatar.value != "" ==> e.avatar == avatar.value)
      && (avatar.None? || avatar.value == "" ==> e.avatar == Uri.AvatarFor(NameText(name)))
      && (online.Some? ==> e.online == online.value)
      && (online.None? ==> !e.online)
  {
  }

  /**
   * `||` and `??` differ: an empty string reads like an absent one, but a
   * present `online: false` is kept exactly like an absent `online`, while
   * `online: true` is kept as true.
   */
  lemma EmptyStringsReadAsAbsent(name: Option<string>, online: Option<bool>)
    ensures NormalizeEntry(Partial(name, Some(""), Some(""), Some(""), online)) ==
            NormalizeEntry(Partial(name, None, None, None, online))
    ensures NormalizeEntry(Partial(name, None, None, None, Some(true))).value.online
  {
  }

  /** The record form of a complete employee, as the backend could send it back. */
  function AsEntry(e: Employee): RosterEntry {
    Partial(e.name, Some(e.lastMessage), Some(e.lastTimestamp), Some(e.avatar), Some(e.online))
  }

  /** Normalising is idempotent: a normalised employee sent back as a record normalises to itself. */
  lemma RenormalizeEntry(entry: RosterEntry)
    requires entry != NullEntry
    ensures NormalizeEntry(AsEntry(NormalizeEntry(entry).value)) == NormalizeEntry(entry)
  {
  }

  /** A normalised roster sent back as a list of records normalises to itself, in the same order. */
  lemma RenormalizeRoster(payload: RosterPayload)
    requires NormalizeRoster(payload).Some?
    ensures var roster := NormalizeRoster(payload).value;
      NormalizeRoster(EntryList(seq(|roster|, i requires 0 <= i < |roster| => AsEntry(roster[i])))) == Some(roster)
  {
    var roster := NormalizeRoster(payload).value;
    var back := seq(|roster|, i requires 0 <= i < |roster| => AsEntry(roster[i]));
    forall i | 0 <= i < |back|
      ensures NormalizeEntry(back[i]) == Some(roster[i])
    {
      var entry := payload.entries[i];
      RenormalizeEntry(entry);
    }
    var again := NormalizeRoster(EntryList(back));
    assert again.Some?;
    assert again.value == roster;
  }
}
