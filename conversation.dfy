/**
 * The conversation load: the backend's `messages` array becomes a list of
 * `Message`s, and the Boss-authored ones are picked out as the pinned
 * instructions; the transcript shows the others.
 */
module Conversation {
  import opened Optional
  import opened Chat
  import opened Seqs

  /**
   * One element of the backend's `messages` array. `NullMessage` is a `null`
   * element: reading its `sender` throws, which aborts the whole load.
   */
  datatype RawMessage =
    | RawMessage(
        sender: Option<string>,
        text: Option<string>,
        timestamp: Option<string>,
        kind: Option<string>,
        document: Option<string>)
    | NullMessage

  /**
   * The `messages` field of the conversation response, as `data.messages || []`
   * sees it: an array, a falsy value (absent, null, ...) that becomes `[]`, or
   * a truthy non-array, on which `.map` throws.
   */
  datatype MessagesPayload = MessageList(items: seq<RawMessage>) | MessagesMissing | MessagesNotAList

  /** The callback of the message `map`; `now` is the ISO time `new Date().toISOString()` gives. */
  function NormalizeMessage(m: RawMessage, now: string): (r: Option<Message>)
    ensures r.None? <==> m.NullMessage?
    ensures r.Some? ==> r.value.kind != ""
  {
    match m
    case RawMessage(sender, text, timestamp, kind, document) =>
      Some(Message(
        sender,
        text,
        if timestamp.Some? then timestamp.value else now,
        OrElse(kind, TEXT),
        document))
    case NullMessage =>
      None
  }

  /**
   * The `map` callback over the whole array: the clock is read afresh for each
   * element, and `now(i)` is the reading taken while element `i` is normalised.
   */
  function Normalizer(now: nat -> string): (RawMessage, nat) -> Option<Message> {
    (m: RawMessage, i: nat) => NormalizeMessage(m, now(i))
  }

  /**
   * The message list after a successful response, or `None` when the mapping
   * throws. Each message that lacks a string timestamp is stamped with the
   * clock reading taken at its own position, so two such messages may differ.
   */
  function NormalizeMessages(payload: MessagesPayload, now: nat -> string): (r: Option<seq<Message>>)
    ensures payload.MessagesMissing? ==> r == Some([])
    ensures payload.MessagesNotAList? ==> r == None
    ensures payload.MessageList? ==>
      (r.Some? <==> forall i :: 0 <= i < |payload.items| ==> payload.items[i].RawMessage?)
    ensures payload.MessageList? && r.Some? ==>
      |r.value| == |payload.items| &&
      forall i :: 0 <= i < |payload.items| ==> NormalizeMessage(payload.items[i], now(i)) == Some(r.value[i])
    ensures payload.MessageList? && r.Some? ==>
      forall i :: 0 <= i < |payload.items| && payload.items[i].timestamp.None? ==> r.value[i].timestamp == now(i)
  {
    match payload
    case MessagesMissing => Some([])
    case MessagesNotAList => None
    case MessageList(items) =>
      assert forall i :: 0 <= i < |items| ==>
        Normalizer(now)(items[i], i) == NormalizeMessage(items[i], now(i));
      MapAll(Normalizer(now), items)
  }

  /**
   * Sender, text and document pass through; a timestamp is kept exactly when
   * it is a string (the empty string included) and is `now` otherwise; an
   * absent or empty type becomes "text".
   */
  lemma MessageFields(m: RawMessage, now: string)
    requires m.RawMessage?
    ensures var n := NormalizeMessage(m, now).value;
      && n.sender == m.sender && n.text == m.text && n.document == m.document
      && (m.timestamp.Some? ==> n.timestamp == m.timestamp.value)
      && (m.timestamp.None? ==> n.timestamp == now)
      && (m.kind.Some? && m.kind.value != "" ==> n.kind == m.kind.value)
      && (m.kind.None? || m.kind.value == "" ==> n.kind == TEXT)
  {
  }

  /** The raw form of a normalised message, as the backend could send it back. */
  function AsRaw(m: Message): RawMessage {
    RawMessage(m.sender, m.text, Some(m.timestamp), Some(m.kind), m.document)
  }

  /** Normalising a normalised message again changes nothing, whatever the clock reads then. */
  lemma RenormalizeMessage(m: RawMessage, now: string, later: string)
    requires m.RawMessage?
    ensures NormalizeMessage(AsRaw(NormalizeMessage(m, now).value), later) == NormalizeMessage(m, now)
  {
  }

  /** The message is a pinned instruction: `m.sender === "Boss"`. */
  predicate IsBoss(m: Message) {
    m.sender == Some(BOSS)
  }

  /** The message belongs in the rendered transcript: `m.sender !== "Boss"`. */
  predicate IsShown(m: Message) {
    m.sender != Some(BOSS)
  }

  /** `msgs.filter((m) => m.sender === "Boss")`. */
  function BossInstructions(messages: seq<Message>): (pinned: seq<Message>)
    ensures |pinned| <= |messages|
    ensures forall i :: 0 <= i < |pinned| ==> pinned[i].sender == Some(BOSS) && pinned[i] in messages
  {
    Filter(IsBoss, messages)
  }

  /** `messages.filter((m) => m.sender !== "Boss")`, the messages rendered in the main view. */
  function Transcript(messages: seq<Message>): (shown: seq<Message>)
    ensures |shown| <= |messages|
    ensures forall i :: 0 <= i < |shown| ==> shown[i].sender != Some(BOSS) && shown[i] in messages
  {
    Filter(IsShown, messages)
  }

  /**
   * The pinned instructions and the transcript split the message list: each
   * keeps its own messages in their original relative order; every Boss
   * message is pinned and every other one rendered, as often as the list holds
   * it; and between them every message appears exactly as often as in the list.
   */
  lemma PinnedAndTranscriptSplit(messages: seq<Message>)
    ensures IsSubsequence(BossInstructions(messages), messages)
    ensures IsSubsequence(Transcript(messages), messages)
    ensures multiset(BossInstructions(messages)) + multiset(Transcript(messages)) == multiset(messages)
    ensures |BossInstructions(messages)| + |Transcript(messages)| == |messages|
    ensures forall i :: 0 <= i < |messages| && IsBoss(messages[i]) ==>
      multiset(BossInstructions(messages))[messages[i]] == multiset(messages)[messages[i]]
    ensures forall i :: 0 <= i < |messages| && !IsBoss(messages[i]) ==>
      multiset(Transcript(messages))[messages[i]] == multiset(messages)[messages[i]]
  {
    FilterIsSubsequence(IsBoss, messages);
    FilterIsSubsequence(IsShown, messages);
    FilterPartition(IsBoss, IsShown, messages);
    FilterCounts(IsBoss, messages);
    FilterCounts(IsShown, messages);
  }
}
