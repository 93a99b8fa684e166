/**
 * The dashboard component's state and the events that change it: the
 * roster response, a click on a roster entry, the conversation response,
 * typing in the search and compose boxes, and sending.
 */
module Session {
  import opened Optional
  import opened Chat
  import Roster
  import Conversation
  import Search
  import Outbound
  import Text

  /** The `useState` slots of the dashboard that hold chat state. */
  class Dashboard {
    var employees: seq<Employee>
    var selected: Option<string>
    var messages: seq<Message>
    var bossInstructions: seq<Message>
    var newMessage: string
    var searchTerm: string

    /** The pinned instructions are always the Boss messages of the current message list. */
    ghost predicate Valid()
      reads this
    {
      bossInstructions == Conversation.BossInstructions(messages)
    }

    /** The state of a freshly mounted dashboard: everything empty, nobody selected. */
    constructor ()
      ensures Valid()
      ensures employees == [] && selected == None && messages == [] && bossInstructions == []
      ensures newMessage == "" && searchTerm == ""
    {
      employees := [];
      selected := None;
      messages := [];
      bossInstructions := [];
      newMessage := "";
      searchTerm := "";
    }

    /**
     * The roster response arrives: a normalised roster replaces the old one;
     * a failed request or a `null` entry leaves it as it was.
     */
    method LoadRoster(response: Response<Roster.RosterPayload>)
      requires Valid()
      modifies this
      ensures Valid()
      ensures response.Received? && Roster.NormalizeRoster(response.body).Some? ==>
        employees == Roster.NormalizeRoster(response.body).value
      ensures response.Failed? || Roster.NormalizeRoster(response.body).None? ==>
        employees == old(employees)
      ensures selected == old(selected) && messages == old(messages)
      ensures bossInstructions == old(bossInstructions)
      ensures newMessage == old(newMessage) && searchTerm == old(searchTerm)
    {
      if response.Received? {
        var roster := Roster.NormalizeRoster(response.body);
        if roster.Some? {
          employees := roster.value;
        }
      }
    }

    /** A click on the `index`-th entry of the sidebar list selects that employee's name. */
    method Select(index: nat)
      requires Valid()
      requires index < |Search.FilterEmployees(employees, searchTerm)|
      modifies this
      ensures Valid()
      ensures Outbound.HasSelection(selected)
      ensures selected == Some(Search.FilterEmployees(old(employees), old(searchTerm))[index].name.value)
      ensures employees == old(employees) && messages == old(messages)
      ensures bossInstructions == old(bossInstructions)
      ensures newMessage == old(newMessage) && searchTerm == old(searchTerm)
    {
      var listed := Search.FilterEmployees(employees, searchTerm);
      assert Search.MatchesSearch(Text.Lower(searchTerm))(listed[index]);
      selected := Some(listed[index].name.value);
    }

    /**
     * The conversation response arrives: a normalised message list replaces
     * the old one and the pinned instructions are recomputed from it; a failed
     * request or a `null`/non-array message list leaves both as they were.
     * `now(i)` is the clock reading taken while the `i`-th message is normalised.
     */
    method LoadConversation(response: Response<Conversation.MessagesPayload>, now: nat -> string)
      requires Valid()
      modifies this
      ensures Valid()
      ensures response.Received? && Conversation.NormalizeMessages(response.body, now).Some? ==>
        messages == Conversation.NormalizeMessages(response.body, now).value
      ensures response.Failed? || Conversation.NormalizeMessages(response.body, now).None? ==>
        messages == old(messages) && bossInstructions == old(bossInstructions)
      ensures employees == old(employees) && selected == old(selected)
      ensures newMessage == old(newMessage) && searchTerm == old(searchTerm)
    {
      if response.Received? {
        var msgs := Conversation.NormalizeMessages(response.body, now);
        if msgs.Some? {
          messages := msgs.value;
          bossInstructions := Conversation.BossInstructions(msgs.value);
        }
      }
    }

    /** Typing in the search box. */
    method SetSearchTerm(term: string)
      requires Valid()
      modifies this`searchTerm
      ensures Valid()
      ensures searchTerm == term
    {
      searchTerm := term;
    }

    /** Typing in the compose box. */
    method SetNewMessage(text: string)
      requires Valid()
      modifies this`newMessage
      ensures Valid()
      ensures newMessage == text
    {
      newMessage := text;
    }

    /**
     * `handleSendMessage`, at the clock reading `now` (ISO form), with
     * `localTime` standing for the locale time-of-day rendering.
     * A blank compose text or no selection changes nothing. Otherwise the
     * Agent's message is appended, the compose box is cleared and the
     * selected employee's previews show the text and the formatted time;
     * the selection, the pinned instructions and the search are kept.
     */
    method Send(now: string, localTime: string -> string)
      requires Valid()
      modifies this
      ensures Valid()
      ensures !Outbound.ShouldSend(old(newMessage), old(selected)) ==>
        employees == old(employees) && messages == old(messages) && newMessage == old(newMessage)
      ensures Outbound.ShouldSend(old(newMessage), old(selected)) ==>
        && messages == old(messages) + [Outbound.AgentMessage(old(newMessage), now)]
        && newMessage == ""
        && employees == Outbound.TouchRoster(
             old(employees), old(selected).value, old(newMessage), FormatTimestamp(now, localTime))
      ensures selected == old(selected) && bossInstructions == old(bossInstructions)
      ensures searchTerm == old(searchTerm)
    {
      if !Outbound.ShouldSend(newMessage, selected) {
        return;
      }
      var message := Outbound.AgentMessage(newMessage, now);
      Outbound.SendKeepsPinned(messages, newMessage, now);
      messages := messages + [message];
      var text := newMessage;
      newMessage := "";
      employees := Outbound.TouchRoster(employees, selected.value, text, FormatTimestamp(now, localTime));
    }
  }

  /**
   * Sending a non-blank text to the only contact of a freshly loaded roster
   * `[name]`: the message list holds exactly the Agent's message, the compose
   * box empties, and the contact's preview shows the text at once.
   */
  method SendToOnlyContact(name: string, text: string, now: string, localTime: string -> string)
    returns (messages: seq<Message>, compose: string, preview: string)
    requires name != "" && !Text.IsBlank(text)
    ensures messages == [Outbound.AgentMessage(text, now)]
    ensures compose == "" && preview == text
  {
    var dashboard := new Dashboard();
    OnlyContactIsListed(name);
    dashboard.LoadRoster(Received(Roster.EntryList([Roster.BareName(name)])));
    dashboard.Select(0);
    dashboard.SetNewMessage(text);
    Text.TrimEmptyIffBlank(text);
    dashboard.Send(now, localTime);
    messages := dashboard.messages;
    compose := dashboard.newMessage;
    preview := dashboard.employees[0].lastMessage;
  }

  /** The roster `[name]` normalises to one entry named `name`, which an empty search lists. */
  lemma OnlyContactIsListed(name: string)
    requires name != ""
    ensures var roster := Roster.NormalizeRoster(Roster.EntryList([Roster.BareName(name)]));
      && roster.Some? && |roster.value| == 1 && roster.value[0].name == Some(name)
      && Search.FilterEmployees(roster.value, "") == roster.value
  {
    var roster := Roster.NormalizeRoster(Roster.EntryList([Roster.BareName(name)])).value;
    Search.EmptySearchListsNamed(roster);
    assert roster[1..] == [];
  }

  /** The concrete case: sending "hello" to Dana. */
  method SendHelloToDana(now: string, localTime: string -> string)
    returns (messages: seq<Message>, compose: string, preview: string)
    ensures messages == [Outbound.AgentMessage("hello", now)]
    ensures compose == "" && preview == "hello"
  {
    assert !Text.IsWhitespace("hello"[0]);
    messages, compose, preview := SendToOnlyContact("Dana", "hello", now, localTime);
  }
}
