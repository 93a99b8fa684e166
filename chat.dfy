/**
 * The two records the dashboard works with, the JavaScript defaulting
 * operators its normalisers use, and the timestamp formatter.
 *
 * A field the backend may leave out is an `Option`; a field value of the
 * wrong JavaScript type is treated like an absent one.
 */
module Chat {
  import opened Optional

  /** The sender tag of pinned instructions. */
  const BOSS: string := "Boss"
  /** The sender tag of messages typed on this dashboard. */
  const AGENT: string := "Agent"
  /** The message type given to typed messages and to messages that come without one. */
  const TEXT: string := "text"

  /**
   * One chat turn. `sender`, `text` and `document` are whatever the backend
   * sent (the code never checks the sender against `Employee | Agent | Boss`).
   */
  datatype Message = Message(
    sender: Option<string>,
    text: Option<string>,
    timestamp: string,
    kind: string,
    document: Option<string>)

  /** A roster contact. The name is absent when a record entry came without one. */
  datatype Employee = Employee(
    name: Option<string>,
    lastMessage: string,
    lastTimestamp: string,
    avatar: string,
    online: bool)

  /** What a `fetch(...).then(res => res.json())` chain delivered: a decoded body, or a rejection. */
  datatype Response<+T> = Received(body: T) | Failed

  /** `v || fallback` on a value that is a string or absent: the empty string is falsy too. */
  function OrElse(v: Option<string>, fallback: string): (r: string)
    ensures v.Some? && v.value != "" ==> r == v.value
    ensures v.None? || v.value == "" ==> r == fallback
  {
    if v.Some? && v.value != "" then v.value else fallback
  }

  /** `v ?? fallback`: only an absent value is replaced. */
  function Coalesce(v: Option<bool>, fallback: bool): (r: bool)
    ensures v.Some? ==> r == v.value
    ensures v.None? ==> r == fallback
  {
    if v.Some? then v.value else fallback
  }

  /**
   * `formatTimestamp(iso)`: the empty string stays empty; any other input is
   * rendered as a local time of day by `localTime`, which stands for
   * `new Date(iso).toLocaleTimeString(...)`.
   */
  function FormatTimestamp(iso: string, localTime: string -> string): (r: string)
    ensures iso == "" ==> r == ""
    ensures iso != "" ==> r == localTime(iso)
  {
    if iso == "" then "" else localTime(iso)
  }
}
