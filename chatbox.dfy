/** The `Chatbox` component (Chatbox.tsx) as an object: its four pieces of
    state are fields, and each handler is a method that updates them in the
    order the handler calls its setters. `setMessages(prev => ...)` becomes
    an assignment to `messages` made at once. The send handler's stream is
    what a collaborator returns for the text and the history; the two clock
    readings that name the new messages are parameters. */
module ChatboxWidget {
  import opened Types
  import opened JsString
  import opened ChatSession
  import opened ChatMessages

  class Chatbox {
    var isOpen: bool
    var isExpanded: bool
    var messages: seq<Message>
    var isLoading: bool

    /** The transcript state the handlers share. */
    function State(): Session
      reads this
    {
      Session(messages, isLoading)
    }

    /** The panel is only ever expanded while it is open. */
    predicate PanelConsistent()
      reads this
    {
      isExpanded ==> isOpen
    }

    /** The initial `useState` values: closed, not expanded, the welcome
        message, not loading. */
    constructor ()
      ensures !isOpen && !isExpanded
      ensures State() == InitialSession()
      ensures PanelConsistent()
    {
      isOpen := false;
      isExpanded := false;
      messages := [WelcomeMessage()];
      isLoading := false;
    }

    /** `handleSendMessage(text)`. Returns the history handed to the
        collaborator, or `None` when the blank text was refused. */
    method HandleSendMessage(text: string, userStamp: nat, aiStamp: nat, collaborator: Collaborator)
      returns (history: Option<seq<HistoryEntry>>)
      modifies this
      ensures State() == AfterSend(old(State()), text, userStamp, aiStamp, collaborator)
      ensures history == if IsBlank(text) then None else Some(ChatHistory(old(messages)))
      ensures isOpen == old(isOpen) && isExpanded == old(isExpanded)
    {
      if IsBlank(text) {
        return None;
      }
      var before := messages;
      var userMsg := UserMessage(text, userStamp);
      messages := messages + [userMsg];
      var aiMsgId := AiId(aiStamp);
      var initialAiMsg := AiMessage(aiMsgId);
      isLoading := true;
      ghost var submitted := Progress(State(), StartReply(aiMsgId));

      var chatHistory := ChatHistory(before);
      var stream := collaborator(text, chatHistory);
      var fullContent := "";
      var isFirstChunk := true;
      for i := 0 to |stream.chunks|
        invariant Drain(submitted, stream.chunks[..i])
               == Progress(State(), Reply(aiMsgId, fullContent, isFirstChunk))
        invariant isOpen == old(isOpen) && isExpanded == old(isExpanded)
      {
        var chunk := stream.chunks[i];
        DrainStep(submitted, stream.chunks, i);
        if isFirstChunk {
          messages := messages + [initialAiMsg];
          isLoading := false;
          isFirstChunk := false;
        }
        fullContent := fullContent + chunk;
        messages := SetContentById(messages, aiMsgId, fullContent);
      }
      assert stream.chunks[..|stream.chunks|] == stream.chunks;
      if stream.fails {
        isLoading := false;
      }
      history := Some(chatHistory);
    }

    /** `handleQuickReply(reply)`: a quick reply is sent like typed text. */
    method HandleQuickReply(reply: string, userStamp: nat, aiStamp: nat, collaborator: Collaborator)
      modifies this
      ensures State() == AfterSend(old(State()), reply, userStamp, aiStamp, collaborator)
      ensures isOpen == old(isOpen) && isExpanded == old(isExpanded)
    {
      var _ := HandleSendMessage(reply, userStamp, aiStamp, collaborator);
    }

    /** `onReset`: only the transcript is replaced. */
    method Reset()
      modifies this
      ensures State() == AfterReset(old(State()))
      ensures isOpen == old(isOpen) && isExpanded == old(isExpanded)
    {
      messages := [WelcomeMessage()];
    }

    /** The floating button: flip `isOpen`, and collapse when it was open. */
    method ToggleOpen()
      modifies this
      ensures isOpen == !old(isOpen)
      ensures isExpanded == (if old(isOpen) then false else old(isExpanded))
      ensures State() == old(State())
      ensures old(PanelConsistent()) ==> PanelConsistent()
    {
      var wasOpen := isOpen;
      isOpen := !wasOpen;
      if wasOpen {
        isExpanded := false;
      }
    }

    /** `toggleExpand`, offered by the header, which exists only while the
        panel is open. */
    method ToggleExpand()
      modifies this
      ensures isExpanded == !old(isExpanded)
      ensures isOpen == old(isOpen) && State() == old(State())
      ensures old(isOpen) ==> PanelConsistent()
    {
      isExpanded := !isExpanded;
    }

    /** `onClose` of the header: closed and collapsed. */
    method Close()
      modifies this
      ensures !isOpen && !isExpanded
      ensures State() == old(State())
      ensures PanelConsistent()
    {
      isOpen := false;
      isExpanded := false;
    }
  }

  // ---------------------------------------------------------------------------
  // What the user sees after the handlers

  /** Right after a reset the greeting stands alone with the quick replies
      under it, and the typing indicator is as it was before. */
  lemma ResetShowsQuickReplies(s: Session, quickReplies: seq<string>, renderMarkdown: bool)
    ensures var v := RenderChat(AfterReset(s).messages, AfterReset(s).isLoading, quickReplies, renderMarkdown);
      && |v.bubbles| == 1
      && v.bubbles[0].quickReplies == Some(quickReplies)
      && v.bubbles[0].body == RenderBody(renderMarkdown, WelcomeMessage())
      && v.showsTypingIndicator == s.isLoading
  {
  }

  /** After a non-blank send the quick replies are gone, whatever the stream
      does. */
  lemma SendHidesQuickReplies(s: Session, text: string, userStamp: nat, aiStamp: nat,
                              collaborator: Collaborator, quickReplies: seq<string>, renderMarkdown: bool)
    requires !IsBlank(text)
    ensures var after := AfterSend(s, text, userStamp, aiStamp, collaborator);
      var v := RenderChat(after.messages, after.isLoading, quickReplies, renderMarkdown);
      forall i | 0 <= i < |v.bubbles| :: v.bubbles[i].quickReplies.None?
  {
    var after := AfterSend(s, text, userStamp, aiStamp, collaborator);
    assert after.messages[|s.messages|] == UserMessage(text, userStamp);
  }

  /** When the collaborator ends without a chunk and without an error, the
      typing indicator stays up under the user's message, and a reset does
      not take it down. */
  lemma EmptyAnswerKeepsTypingIndicator(s: Session, text: string, userStamp: nat, aiStamp: nat,
                                        collaborator: Collaborator, quickReplies: seq<string>,
                                        renderMarkdown: bool)
    requires !IsBlank(text)
    requires collaborator(text, ChatHistory(s.messages)) == Stream([], false)
    ensures var after := AfterSend(s, text, userStamp, aiStamp, collaborator);
      var v := RenderChat(after.messages, after.isLoading, quickReplies, renderMarkdown);
      && v.showsTypingIndicator
      && after.messages == s.messages + [UserMessage(text, userStamp)]
      && AfterReset(after).isLoading
  {
  }

  /** A stream that fails, after any number of chunks, takes the typing
      indicator down and keeps whatever text had arrived. */
  lemma FailureClearsTypingIndicator(s: Session, text: string, userStamp: nat, aiStamp: nat,
                                     collaborator: Collaborator, quickReplies: seq<string>,
                                     renderMarkdown: bool)
    requires !IsBlank(text) && IdAbsent(s.messages, AiId(aiStamp))
    requires collaborator(text, ChatHistory(s.messages)).fails
    ensures var stream := collaborator(text, ChatHistory(s.messages));
      var after := AfterSend(s, text, userStamp, aiStamp, collaborator);
      && !RenderChat(after.messages, after.isLoading, quickReplies, renderMarkdown).showsTypingIndicator
      && |after.messages| == |s.messages| + 1 + (if stream.chunks == [] then 0 else 1)
      && (stream.chunks != [] ==> after.messages[|after.messages| - 1].content == Concat(stream.chunks))
  {
    SendSpec(s, text, userStamp, aiStamp, collaborator);
  }
}
