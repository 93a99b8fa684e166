# Chat dashboard session state, in Dafny

This project models the session-state core of a single-page chat dashboard
(`app/dashboard.tsx`). A human Agent chats with a roster of Employees, and a
third party, the Boss, can pin instructions into a conversation. The model
covers the state that the React component keeps in `useState` and the events
that change it:

- **Roster load.** Each element of the backend's `employees` array is either a
  bare name or a partial record. It becomes a complete `Employee`. Missing
  fields are filled with the JavaScript defaults `||` and `??`. The avatar is
  derived from the name with `encodeURIComponent` and a fixed service prefix.
  A non-array field gives the empty roster.
- **Conversation load.** The backend's `messages` are normalised: the
  timestamp defaults to the current instant and the type defaults to
  `"text"`. The Boss messages are picked out as the pinned instructions. The
  transcript view renders the other messages.
- **Search.** The sidebar lists, in roster order, the entries whose non-empty
  string name, lowercased, contains the lowercased search term.
- **Send.** A guarded update. Nothing happens when the compose text is blank
  after trimming or nobody is selected. Otherwise the Agent's message is
  appended, the compose box is cleared, and every roster entry carrying the
  selected name shows the new preview text and time.

Files, one module each: `optional.dfy` (`Optional`), `seqs.dfy` (`Seqs`, the
`filter`/`map` combinators), `text.dfy` (`trim`, `toLowerCase`, `includes`),
`uri.dfy` (`encodeURIComponent` and the avatar address), `chat.dfy` (the
`Message` and `Employee` records, `formatTimestamp`), `roster.dfy`,
`conversation.dfy`, `search.dfy`, `outbound.dfy` (the pieces of the send
handler) and `session.dfy` (class `Dashboard`, the component state).

JavaScript's dynamic payloads are modelled as datatypes. A field that may be
missing is an `Option`. A `null` array element is a case of its own
(`NullEntry`, `NullMessage`). Reading a property of it throws, the `.catch`
swallows the error, and the state stays as it was. A whole request that
rejects (a network error, a body that is not JSON) is `Response.Failed` and
also leaves the state unchanged. The clock (`new Date().toISOString()`) is a
parameter. In the send handler it is read once, as `now`. In the conversation
load it is read inside the `map` callback, once per message that lacks a string
timestamp, so the load takes `now: nat -> string`: `now(i)` is the reading
taken while message `i` is normalised. The locale time rendering inside
`formatTimestamp` is a `localTime` function parameter.

Where the system's design description and the code disagree, the model follows
the code:

- The design says `formatTimestamp` returns unparseable input unchanged. In the
  code, `new Date(...)` never throws, so the `catch` is not reached. Only
  `"" -> ""` is fixed; everything else is `localTime`.
- The design says a malformed timestamp is replaced by "now". The code
  replaces it only when it is not a string; any string, even `""`, is kept.
- The design calls names unique and senders a closed set. The code enforces
  neither: a send updates every entry with the selected name, and senders are
  passed through unchecked.

## Model

| member | source | states |
|---|---|---|
| `Seqs.Filter` | app/dashboard.tsx:87 | `Array.prototype.filter`: the result is no longer than the input, every kept element satisfies the predicate, every satisfying element of the input is kept, and nothing outside the input appears |
| `Seqs.MapAll` | app/dashboard.tsx:47-67 | a `map` whose callback gets each element with its index and can throw: it succeeds exactly when the callback succeeds on every element, and then the result has the input's length and its i-th element is the callback's result on the i-th input at index i |
| `Seqs.FilterIsSubsequence` | app/dashboard.tsx:87 | a filter keeps the original relative order (the result is a subsequence of the input) |
| `Seqs.FilterCounts` | app/dashboard.tsx:87 | a filter keeps every occurrence of a satisfying element and no occurrence of any other element |
| `Seqs.FilterPartition` | app/dashboard.tsx:302 | two complementary filters together hold every element exactly as often as the input does |
| `Text.TrimStart` | app/dashboard.tsx:101 | drops exactly the leading whitespace: the result is a suffix, everything dropped is whitespace, and the result does not start with whitespace |
| `Text.TrimEnd` | app/dashboard.tsx:101 | drops exactly the trailing whitespace: the result is a prefix, everything dropped is whitespace, and the result does not end with whitespace |
| `Text.Trim` | app/dashboard.tsx:101 | `trim()` never lengthens its input, leaves no whitespace at either end, and gives `""` only for a blank input |
| `Text.TrimEmptyIffBlank` | app/dashboard.tsx:101 | `s.trim()` is empty (falsy) exactly when every character of `s` is ECMAScript whitespace or a line terminator |
| `Text.Lower` | app/dashboard.tsx:96 | `toLowerCase` keeps the length and lowercases character by character |
| `Text.LowerIdempotent` | app/dashboard.tsx:93 | lowercasing twice equals lowercasing once, and no upper-case ASCII letter remains |
| `Text.Includes` | app/dashboard.tsx:96 | `includes` finds only a needle no longer than the haystack, and always finds the empty needle |
| `Text.IncludesIff` | app/dashboard.tsx:96 | `h.includes(n)` is true exactly when `n` occurs in `h` at some index |
| `Uri.EncodeURIComponent` | app/dashboard.tsx:54 | the encoding contains only unreserved characters and `%`, and is at least as long as its input |
| `Uri.EncodeUnreservedIdentity` | app/dashboard.tsx:54 | a name made only of unreserved characters is its own encoding |
| `Uri.EncodeInjective` | app/dashboard.tsx:54 | different strings have different encodings |
| `Uri.AvatarFor` | app/dashboard.tsx:54 | the derived avatar address starts with the service prefix, and everything after the prefix is URL-safe |
| `Uri.AvatarForInjective` | app/dashboard.tsx:62 | two different names never share a derived avatar address |
| `Chat.OrElse` | app/dashboard.tsx:60-62 | the logical-or default on a string field keeps a present non-empty string and gives the fallback for an absent or empty one, since the empty string is falsy |
| `Chat.Coalesce` | app/dashboard.tsx:63 | the nullish-coalescing default keeps any present value, `false` included, and gives the fallback only for an absent one |
| `Chat.FormatTimestamp` | app/dashboard.tsx:22-30 | the empty string formats to the empty string; any other input gets the locale time-of-day rendering |
| `Roster.NameText` | app/dashboard.tsx:62 | the text `encodeURIComponent(emp.name)` encodes: the name itself, or `"undefined"` when the record has no name |
| `Roster.NormalizeEntry` | app/dashboard.tsx:48-66 | only a `null` entry fails; a bare name keeps its text as the name and a record keeps its own name; the avatar is never empty |
| `Roster.NormalizeRoster` | app/dashboard.tsx:47-67 | a non-array field gives the empty roster; an array succeeds exactly when no entry is `null`, and then the roster has the same length and order, with entry i the normalisation of element i |
| `Roster.BareNameDefaults` | app/dashboard.tsx:49-56 | a bare name `s` becomes name `s`, empty previews, the avatar derived from `s`, offline; this is the same employee as a record holding only the name |
| `Roster.PartialDefaults` | app/dashboard.tsx:57-64 | a record keeps its name, its non-empty string fields and any present `online`; an empty or absent string field becomes `""` or, for the avatar, the one derived from the name; an absent `online` becomes false |
| `Roster.EmptyStringsReadAsAbsent` | app/dashboard.tsx:60-63 | `||` treats an empty string like an absent field, while `online: true` survives `??` |
| `Roster.RenormalizeEntry` | app/dashboard.tsx:48-66 | normalisation is idempotent: a normalised employee sent back as a record normalises to itself |
| `Roster.RenormalizeRoster` | app/dashboard.tsx:47-67 | a normalised roster sent back as records normalises to itself, in the same order |
| `Conversation.NormalizeMessage` | app/dashboard.tsx:79-85 | only a `null` message fails, and a normalised message always has a non-empty type |
| `Conversation.NormalizeMessages` | app/dashboard.tsx:79-85 | an absent or falsy `messages` field gives `[]`; a non-array truthy one fails; an array succeeds exactly when no element is `null`, and then keeps length and order, message i being normalised at the clock reading `now(i)`; a message without a string timestamp is stamped `now(i)` |
| `Conversation.MessageFields` | app/dashboard.tsx:80-84 | sender, text and document pass through unchanged; the timestamp is kept exactly when it is a string and is the clock reading taken for this message otherwise; an absent or empty type becomes `"text"` |
| `Conversation.RenormalizeMessage` | app/dashboard.tsx:82-83 | normalising a normalised message again changes nothing, at any later clock reading |
| `Conversation.BossInstructions` | app/dashboard.tsx:87 | the pinned instructions are no more than the messages, and each of them is a message of the list sent by the Boss |
| `Conversation.Transcript` | app/dashboard.tsx:301-302 | the rendered transcript is no more than the messages, and each of them is a message of the list not sent by the Boss |
| `Conversation.PinnedAndTranscriptSplit` | app/dashboard.tsx:86-87 | the pinned instructions and the rendered transcript are both subsequences of the message list; each Boss message is pinned as often as the list holds it and each other message rendered as often; together they hold every message exactly once |
| `Search.HasName` | app/dashboard.tsx:95 | the `emp?.name && typeof emp.name === "string"` test holds exactly when the name is truthy, the same truthiness the logical-or defaults use |
| `Search.Matches` | app/dashboard.tsx:95-97 | the filter callback accepts only a named entry whose name is at least as long as the term, and accepts every named entry for the empty term |
| `Search.FilterEmployees` | app/dashboard.tsx:93-98 | `filteredEmployees` is no longer than the roster and lists only roster entries that have a name at least as long as the term |
| `Search.MatchesIffHit` | app/dashboard.tsx:94-97 | the filter callback accepts an entry exactly when its name is a non-empty string whose lowercase form contains the lowercased term at some index |
| `Search.SearchKeepsOrder` | app/dashboard.tsx:94 | the sidebar list is a subsequence of the roster, in roster order |
| `Search.SearchSound` | app/dashboard.tsx:95-96 | every listed entry has a non-empty string name containing the term, both lowercased |
| `Search.SearchComplete` | app/dashboard.tsx:94-98 | every roster entry that matches is listed, as often as the roster holds it |
| `Search.UnnamedNeverListed` | app/dashboard.tsx:95-97 | an entry whose name is missing, not a string, or empty is never listed |
| `Search.EmptySearchListsNamed` | app/dashboard.tsx:93-98 | an empty search term lists exactly the entries that have a non-empty string name |
| `Search.SearchIgnoresTermCase` | app/dashboard.tsx:93 | searching for a term and for its lowercase form gives the same list |
| `Search.SearchExample` | app/dashboard.tsx:93-98 | the term "da" over Dana, Alex, dave lists Dana and dave, in that order |
| `Outbound.ShouldSend` | app/dashboard.tsx:101 | a send goes ahead only with a non-empty compose text and a selection |
| `Outbound.ShouldSendIff` | app/dashboard.tsx:101 | a send goes ahead exactly when the compose text has a non-whitespace character and the selection is a non-empty name |
| `Outbound.AgentMessage` | app/dashboard.tsx:103-109 | the sent message is from the Agent, carries the untrimmed text, the send's clock reading and type `"text"`, so it is rendered and never pinned |
| `Outbound.TouchEntry` | app/dashboard.tsx:127-130 | an entry with the selected name gets the new previews and keeps name, avatar and presence; any other entry is returned unchanged |
| `Outbound.TouchRoster` | app/dashboard.tsx:126-132 | the roster keeps its length and order; every entry with the selected name shows the sent text and time and keeps its name, avatar and presence; every other entry is unchanged |
| `Outbound.SendKeepsPinned` | app/dashboard.tsx:111 | appending the Agent's message leaves the pinned instructions unchanged and adds exactly that message at the end of the rendered transcript |
| `Outbound.SearchAfterSend` | app/dashboard.tsx:126-132 | a send never changes which entries the sidebar lists: the new list is the old one with its previews updated |
| `Session.Dashboard.constructor` | app/dashboard.tsx:33-39 | a mounted dashboard starts with an empty roster, no selection, no messages, no pinned instructions and empty input boxes |
| `Session.Dashboard.LoadRoster` | app/dashboard.tsx:43-71 | a received and normalisable roster replaces the old one; a failed request or a `null` entry leaves it; no other field changes |
| `Session.Dashboard.Select` | app/dashboard.tsx:201-205 | clicking a listed entry selects its name, which is a non-empty string; nothing else changes and the pinned-instruction invariant is kept |
| `Session.Dashboard.LoadConversation` | app/dashboard.tsx:73-91 | a received and normalisable message list, normalised with one clock reading per message, replaces the old one and the pinned instructions are its Boss messages; otherwise both stay; roster, selection and inputs stay |
| `Session.Dashboard.SetSearchTerm` | app/dashboard.tsx:192 | typing in the search box sets the term and keeps the pinned-instruction invariant |
| `Session.Dashboard.SetNewMessage` | app/dashboard.tsx:348 | typing in the compose box sets the text and keeps the pinned-instruction invariant |
| `Session.Dashboard.Send` | app/dashboard.tsx:100-133 | with a blank text or no selection nothing changes. Otherwise exactly the Agent's untrimmed text message, stamped `now`, is appended, the compose box becomes `""`, and the roster is `TouchRoster` with the formatted time. Selection, pinned instructions and search term are kept, and the pinned instructions stay the Boss messages of the list |
| `Session.SendToOnlyContact` | app/dashboard.tsx:100-132 | on a freshly loaded roster `[name]` with a non-empty name, selecting the contact and sending a non-blank text leaves exactly the Agent's message in the message list, an empty compose box and the text as the contact's preview |
| `Session.SendHelloToDana` | app/dashboard.tsx:100-132 | on a freshly loaded roster `["Dana"]`, selecting Dana and sending "hello" leaves exactly the Agent's "hello" in the message list, an empty compose box and "hello" as Dana's preview |

## Left out

- Network I/O (app/dashboard.tsx:44-45, 70, 76-77, 89, 114-124): `fetch`, `.json()`, error logging, and the POST that delivers a sent message (its body and its failure handling). A load is modelled as a transition on the decoded body. A rejected request is `Response.Failed` and changes nothing. A send is modelled by its local effect only; the delivery request it issues is not represented.
- Effect scheduling: the roster load running once at mount, and the conversation fetch starting when the selection changes. `LoadConversation` applies whatever response it is given. The stale-response race, where a slow response for an earlier selection overwrites a later one, is therefore not excluded. The code has no guard against it.
- Chat.FormatTimestamp: the locale rendering (`new Date(iso).toLocaleTimeString`) is the `localTime` parameter. Only the empty-input case is fixed.
- Text.Lower: lowercases ASCII letters only. JavaScript's `toLowerCase` also lowercases other Unicode letters, so the modelled search is case-insensitive only for ASCII.
- Uri.EncodeURIComponent: a JavaScript string holding a lone surrogate makes `encodeURIComponent` throw. Dafny strings hold Unicode scalar values only, so such a name cannot occur in the model.
- Non-string field values: a field of the wrong JavaScript type is modelled as absent. This shows in three places. `||` would keep a truthy non-string value, such as a numeric `lastMessage`, as it is. A record whose `name` is a non-string or `null` gets, in the model, the avatar derived from `"undefined"`; the code encodes `String(name)`, for example `"42"` or `"null"`, and only an absent name gives `"undefined"`. A non-boolean `online` (a string, say) survives `??` in the code, but the model, whose `online` is a boolean, makes it `false`.
- Sender validation and name uniqueness: neither is enforced by the code, so neither is assumed.
- Rendering: JSX, dark mode, sidebar and mobile toggles, avatar images, and the Enter-key handler that calls the send handler. The roster preview's time is formatted again when rendered (app/dashboard.tsx:233), after the send handler has already stored a formatted time.
