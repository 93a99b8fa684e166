/**
 * The pieces of `handleSendMessage`: its guard, the message it appends, and
 * the update of the roster previews.
 */
module Outbound {
  import opened Optional
  import opened Chat
  import opened Text
  import opened Seqs
  import Conversation
  import Search

  /** `selectedEmployee` is truthy: a selection that is not the empty string. */
  predicate HasSelection(selected: Option<string>) {
    selected.Some? && selected.value != ""
  }

  /** The negation of the early return `!newMessage.trim() || !selectedEmployee`. */
  predicate ShouldSend(newMessage: string, selected: Option<string>)
    ensures ShouldSend(newMessage, selected) ==> newMessage != [] && selected.Some?
  {
    Trim(newMessage) != "" && HasSelection(selected)
  }

  /** A send goes ahead exactly when the compose text holds a non-whitespace character and someone is selected. */
  lemma ShouldSendIff(newMessage: string, selected: Option<string>)
    ensures ShouldSend(newMessage, selected) <==>
      (exists i :: 0 <= i < |newMessage| && !IsWhitespace(newMessage[i])) && HasSelection(selected)
  {
    TrimEmptyIffBlank(newMessage);
  }

  /** The message a send appends: from the Agent, of type "text", with the untrimmed compose text. */
  function AgentMessage(text: string, now: string): (m: Message)
    ensures !Conversation.IsBoss(m) && Conversation.IsShown(m)
    ensures m.sender == Some(AGENT) && m.text == Some(text) && m.timestamp == now && m.kind == TEXT
  {
    Message(Some(AGENT), Some(text), now, TEXT, None)
  }

  /** The `map` callback: the selected employee's entry gets the new previews, any other one is returned as is. */
  function TouchEntry(e: Employee, name: string, text: string, stamp: string): (r: Employee)
    ensures r.name == e.name && r.avatar == e.avatar && r.online == e.online
    ensures e.name == Some(name) ==> r.lastMessage == text && r.lastTimestamp == stamp
    ensures e.name != Some(name) ==> r == e
  {
    if e.name == Some(name) then e.(lastMessage := text, lastTimestamp := stamp) else e
  }

  /**
   * The roster after a send to `name`: same length and order; every entry
   * named `name` shows `text` and `stamp` as its previews and keeps its other
   * fields; every other entry is left as it was.
   */
  function TouchRoster(employees: seq<Employee>, name: string, text: string, stamp: string): (r: seq<Employee>)
    ensures |r| == |employees|
    ensures forall i :: 0 <= i < |r| ==>
      r[i].name == employees[i].name && r[i].avatar == employees[i].avatar && r[i].online == employees[i].online
    ensures forall i :: 0 <= i < |r| && employees[i].name == Some(name) ==>
      r[i].lastMessage == text && r[i].lastTimestamp == stamp
    ensures forall i :: 0 <= i < |r| && employees[i].name != Some(name) ==> r[i] == employees[i]
  {
    if employees == [] then []
    else [TouchEntry(employees[0], name, text, stamp)] + TouchRoster(employees[1..], name, text, stamp)
  }

  /**
   * Appending the Agent's message leaves the pinned instructions as they were
   * and adds the message at the end of the rendered transcript.
   */
  lemma SendKeepsPinned(messages: seq<Message>, text: string, now: string)
    ensures Conversation.BossInstructions(messages + [AgentMessage(text, now)]) ==
            Conversation.BossInstructions(messages)
    ensures Conversation.Transcript(messages + [AgentMessage(text, now)]) ==
            Conversation.Transcript(messages) + [AgentMessage(text, now)]
  {
    var m := AgentMessage(text, now);
    FilterAppend(Conversation.IsBoss, messages, [m]);
    FilterAppend(Conversation.IsShown, messages, [m]);
    assert [m][1..] == [];
  }

  /**
   * A send never changes which entries the sidebar lists: searching the
   * updated roster gives the previous search result with its previews updated.
   */
  lemma {:induction false} SearchAfterSend(
    employees: seq<Employee>, name: string, text: string, stamp: string, searchTerm: string)
    ensures Search.FilterEmployees(TouchRoster(employees, name, text, stamp), searchTerm) ==
            TouchRoster(Search.FilterEmployees(employees, searchTerm), name, text, stamp)
  {
    if employees != [] {
      SearchAfterSend(employees[1..], name, text, stamp, searchTerm);
      var p := Search.MatchesSearch(Lower(searchTerm));
      var e := employees[0];
      assert p(TouchEntry(e, name, text, stamp)) == p(e);
      assert TouchRoster(employees, name, text, stamp)[1..] == TouchRoster(employees[1..], name, text, stamp);
    }
  }
}
