/** The transcript state machine of the chat widget (Chatbox.tsx), as pure
    functions over the two pieces of state its handlers change: the message
    list and the loading flag. The send handler is modelled step by step: the
    user message and the loading flag first, then one step per streamed
    chunk, then the error path. Because every React update in the handler is
    a functional update (`setMessages(prev => ...)`), each step is a function
    of the state it finds, which may have been changed by another handler
    (a reset) in between. */
module ChatSession {
  import opened Types
  import opened JsString

  /** The greeting shown on mount and after a reset (Chatbox.tsx:22 and 140
      hold the same literal). */
  const WelcomeText: string :=
    "Chào bạn, mình là trợ lý AI của FPTShop!\n"
    + "Bạn cần hỗ trợ gì hoặc có thể chọn một trong các chủ đề dưới đây nhé\n"
    + "Trong quá trình tư vấn, nếu chưa hài lòng với câu trả lời của Bitu, "
    + "bạn vui lòng chat \"Tôi muốn gặp tư vấn viên\" để được hỗ trợ."

  function WelcomeMessage(): Message {
    Message(Welcome, Text, Ai, WelcomeText, None)
  }

  /** The state the handlers share. */
  datatype Session = Session(messages: seq<Message>, isLoading: bool)

  function InitialSession(): Session {
    Session([WelcomeMessage()], false)
  }

  // ---------------------------------------------------------------------------
  // The history handed to the model

  /** One turn of the conversation as the collaborator receives it. */
  datatype HistoryEntry = HistoryEntry(role: string, text: string)

  function ToHistoryEntry(m: Message): (e: HistoryEntry)
    ensures e.text == m.content
    ensures e.role == "user" || e.role == "model"
    ensures e.role == "user" <==> m.sender == User
  {
    HistoryEntry(if m.sender == User then "user" else "model", m.content)
  }

  /** `messages.filter(m => m.type === TEXT).map(...)`. */
  function ChatHistory(ms: seq<Message>): (h: seq<HistoryEntry>)
    ensures |h| <= |ms|
    decreases |ms|
  {
    if ms == [] then []
    else
      var last := ms[|ms| - 1];
      ChatHistory(ms[..|ms| - 1]) + (if last.msgType == Text then [ToHistoryEntry(last)] else [])
  }

  /** The positions of the text messages, in increasing order. */
  ghost function TextPositions(ms: seq<Message>): (ps: seq<nat>)
    ensures |ps| <= |ms|
    ensures forall j | 0 <= j < |ps| :: ps[j] < |ms| && ms[ps[j]].msgType == Text
    decreases |ms|
  {
    if ms == [] then []
    else TextPositions(ms[..|ms| - 1]) + (if ms[|ms| - 1].msgType == Text then [|ms| - 1] else [])
  }

  /** The history is the text messages, each turned into an entry, in order:
      entry `j` comes from the `j`-th text message, the positions increase,
      and no text message is skipped. */
  lemma {:induction false} ChatHistoryIsTextMessages(ms: seq<Message>)
    ensures var h, ps := ChatHistory(ms), TextPositions(ms);
      && |h| == |ps|
      && (forall j | 0 <= j < |h| :: h[j] == ToHistoryEntry(ms[ps[j]]))
      && (forall j, k | 0 <= j < k < |ps| :: ps[j] < ps[k])
      && (forall i | 0 <= i < |ms| && ms[i].msgType == Text :: i in ps)
    decreases |ms|
  {
    if ms != [] {
      var init := ms[..|ms| - 1];
      ChatHistoryIsTextMessages(init);
      var ps := TextPositions(ms);
      forall i | 0 <= i < |ms| && ms[i].msgType == Text ensures i in ps {
        if i < |ms| - 1 {
          assert init[i] == ms[i];
          assert i in TextPositions(init);
        } else {
          assert ps[|ps| - 1] == i;
        }
      }
      forall j | 0 <= j < |ChatHistory(ms)| ensures ChatHistory(ms)[j] == ToHistoryEntry(ms[ps[j]]) {
        if j < |ChatHistory(init)| {
          assert init[TextPositions(init)[j]] == ms[ps[j]];
        }
      }
    }
  }

  /** The history of a longer transcript extends the history of a shorter one. */
  lemma {:induction false} ChatHistoryAppend(a: seq<Message>, b: seq<Message>)
    ensures ChatHistory(a + b) == ChatHistory(a) + ChatHistory(b)
    decreases |b|
  {
    if b == [] {
      assert a + b == a;
    } else {
      var b0 := b[..|b| - 1];
      ChatHistoryAppend(a, b0);
      assert (a + b)[..|a + b| - 1] == a + b0;
      assert (a + b)[|a + b| - 1] == b[|b| - 1];
    }
  }

  // ---------------------------------------------------------------------------
  // Sending

  /** The message `handleSendMessage` appends for the submitted text. */
  function UserMessage(text: string, stamp: nat): Message {
    Message(UserId(stamp), Text, User, text, None)
  }

  /** The AI message added on the first chunk, still empty. */
  function AiMessage(id: MessageId): Message {
    Message(id, Text, Ai, "", None)
  }

  /** The handler's own variables during a reply: the id it gave the AI
      message, the text received so far, and whether a chunk has arrived. */
  datatype Reply = Reply(aiId: MessageId, fullContent: string, isFirstChunk: bool)

  function StartReply(aiId: MessageId): Reply {
    Reply(aiId, "", true)
  }

  /** The shared state and the handler's variables, together. */
  datatype Progress = Progress(session: Session, reply: Reply)

  /** The messages with every message carrying `id` given `content`. */
  function SetContentById(ms: seq<Message>, id: MessageId, content: string): seq<Message> {
    seq(|ms|, i requires 0 <= i < |ms| => if ms[i].id == id then ms[i].(content := content) else ms[i])
  }

  predicate IdAbsent(ms: seq<Message>, id: MessageId) {
    forall i | 0 <= i < |ms| :: ms[i].id != id
  }

  /** Only the last message, which carries `id`, is rewritten. */
  lemma SetContentByIdLast(ms: seq<Message>, m: Message, content: string)
    requires IdAbsent(ms, m.id)
    ensures SetContentById(ms + [m], m.id, content) == ms + [m.(content := content)]
  {
  }

  /** Rewriting an id nobody carries changes nothing. */
  lemma SetContentByIdAbsent(ms: seq<Message>, id: MessageId, content: string)
    requires IdAbsent(ms, id)
    ensures SetContentById(ms, id, content) == ms
  {
  }

  /** One iteration of the `for await` loop: on the first chunk append the
      empty AI message and clear the loading flag, then add the chunk to the
      text so far and write that text into the message carrying the id. */
  function AfterChunk(p: Progress, chunk: string): (r: Progress)
    ensures r.reply == Reply(p.reply.aiId, p.reply.fullContent + chunk, false)
    ensures |r.session.messages| == |p.session.messages| + (if p.reply.isFirstChunk then 1 else 0)
    ensures r.session.isLoading <==> p.session.isLoading && !p.reply.isFirstChunk
    ensures forall i | 0 <= i < |p.session.messages| && p.session.messages[i].id != p.reply.aiId ::
      r.session.messages[i] == p.session.messages[i]
  {
    var r := p.reply;
    var s := if r.isFirstChunk then Session(p.session.messages + [AiMessage(r.aiId)], false)
             else p.session;
    var content := r.fullContent + chunk;
    Progress(Session(SetContentById(s.messages, r.aiId, content), s.isLoading),
             Reply(r.aiId, content, false))
  }

  /** The loop run over `chunks`, in order. */
  function Drain(p: Progress, chunks: seq<string>): (r: Progress)
    ensures r.reply.aiId == p.reply.aiId
    ensures r.reply.fullContent == p.reply.fullContent + Concat(chunks)
    ensures r.reply.isFirstChunk <==> p.reply.isFirstChunk && chunks == []
    ensures |r.session.messages|
         == |p.session.messages| + (if p.reply.isFirstChunk && chunks != [] then 1 else 0)
    ensures r.session.isLoading <==> p.session.isLoading && !(p.reply.isFirstChunk && chunks != [])
    ensures forall i | 0 <= i < |p.session.messages| && p.session.messages[i].id != p.reply.aiId ::
      r.session.messages[i] == p.session.messages[i]
    decreases |chunks|
  {
    if chunks == [] then p
    else AfterChunk(Drain(p, chunks[..|chunks| - 1]), chunks[|chunks| - 1])
  }

  /** One more chunk is one more step. */
  lemma DrainStep(p: Progress, chunks: seq<string>, i: nat)
    requires i < |chunks|
    ensures Drain(p, chunks[..i + 1]) == AfterChunk(Drain(p, chunks[..i]), chunks[i])
  {
    assert chunks[..i + 1][..i] == chunks[..i];
  }

  /** The chunks joined in order. */
  function Concat(chunks: seq<string>): string
    decreases |chunks|
  {
    if chunks == [] then "" else Concat(chunks[..|chunks| - 1]) + chunks[|chunks| - 1]
  }

  /** `catch`: only the loading flag is cleared. */
  function AfterFailure(s: Session): (r: Session)
    ensures r.messages == s.messages && !r.isLoading
  {
    s.(isLoading := false)
  }

  /** What the collaborator returns: the chunks it yields, in order, and
      whether it then throws instead of finishing. */
  datatype Stream = Stream(chunks: seq<string>, fails: bool)

  /** The model service, as a function of the submitted text and the history. */
  type Collaborator = (string, seq<HistoryEntry>) -> Stream

  /** The state the user message and the loading flag leave. */
  function Submitted(s: Session, text: string, userStamp: nat): (r: Session)
    ensures |r.messages| == |s.messages| + 1 && r.messages[..|s.messages|] == s.messages
    ensures var m := r.messages[|s.messages|];
      m.msgType == Text && m.sender == User && m.content == text && m.id.UserId?
    ensures r.isLoading
  {
    Session(s.messages + [UserMessage(text, userStamp)], true)
  }

  /** `handleSendMessage(text)` run to its end without another handler in
      between; `userStamp` and `aiStamp` are the two clock readings that
      name the new messages. The history sent is built from the messages
      before the submission. */
  function AfterSend(s: Session, text: string, userStamp: nat, aiStamp: nat,
                     collaborator: Collaborator): (r: Session)
    ensures IsBlank(text) ==> r == s
    ensures !IsBlank(text) ==>
      var stream := collaborator(text, ChatHistory(s.messages));
      && |r.messages| == |s.messages| + 1 + (if stream.chunks == [] then 0 else 1)
      && r.messages[|s.messages|] == UserMessage(text, userStamp)
      && (forall i | 0 <= i < |s.messages| && s.messages[i].id != AiId(aiStamp) ::
            r.messages[i] == s.messages[i])
      && (r.isLoading <==> stream.chunks == [] && !stream.fails)
  {
    if IsBlank(text) then s
    else
      var stream := collaborator(text, ChatHistory(s.messages));
      var p := Drain(Progress(Submitted(s, text, userStamp), StartReply(AiId(aiStamp))), stream.chunks);
      if stream.fails then AfterFailure(p.session) else p.session
  }

  /** `onReset`: the transcript becomes the welcome message again; the loading
      flag and any stream still running are left alone. */
  function AfterReset(s: Session): (r: Session)
    ensures r == InitialSession().(isLoading := s.isLoading)
  {
    s.(messages := [WelcomeMessage()])
  }

  // ---------------------------------------------------------------------------
  // What sending does

  /** Draining a fresh reply over a transcript without its id appends one AI
      message holding all the chunks and clears the loading flag, when there
      is at least one chunk. */
  lemma {:induction false} DrainFromFresh(ms: seq<Message>, loading: bool, id: MessageId, chunks: seq<string>)
    requires IdAbsent(ms, id) && chunks != []
    ensures Drain(Progress(Session(ms, loading), StartReply(id)), chunks)
         == Progress(Session(ms + [AiMessage(id).(content := Concat(chunks))], false),
                     Reply(id, Concat(chunks), false))
    decreases |chunks|
  {
    var init := chunks[..|chunks| - 1];
    var p := Progress(Session(ms, loading), StartReply(id));
    if init == [] {
      assert Drain(p, init) == p;
      assert Concat(chunks) == Concat(init) + chunks[0];
      SetContentByIdLast(ms, AiMessage(id), chunks[0]);
    } else {
      DrainFromFresh(ms, loading, id, init);
      SetContentByIdLast(ms, AiMessage(id), Concat(chunks));
      assert AiMessage(id).(content := Concat(init)).(content := Concat(chunks))
          == AiMessage(id).(content := Concat(chunks));
      assert SetContentById(ms + [AiMessage(id).(content := Concat(init))], id, Concat(chunks))
          == ms + [AiMessage(id).(content := Concat(chunks))];
    }
  }

  /** A reply whose first chunk has arrived, but whose message is gone (a
      reset removed it), changes nothing any more: later chunks only extend
      the handler's own text. */
  lemma {:induction false} OrphanedReplyChangesNothing(p: Progress, chunks: seq<string>)
    requires !p.reply.isFirstChunk && IdAbsent(p.session.messages, p.reply.aiId)
    ensures Drain(p, chunks).session == p.session
    ensures Drain(p, chunks).reply == p.reply.(fullContent := p.reply.fullContent + Concat(chunks))
    decreases |chunks|
  {
    if chunks != [] {
      var init := chunks[..|chunks| - 1];
      OrphanedReplyChangesNothing(p, init);
      SetContentByIdAbsent(p.session.messages, p.reply.aiId,
                           p.reply.fullContent + Concat(init) + chunks[|chunks| - 1]);
    }
  }

  /** The whole send: a blank text changes nothing; otherwise the user message
      is appended, then one AI message holding every chunk in order when
      there was at least one, and nothing else changes; the loading flag ends
      true exactly when no chunk came and no error was thrown. */
  lemma SendSpec(s: Session, text: string, userStamp: nat, aiStamp: nat, collaborator: Collaborator)
    requires IdAbsent(s.messages, AiId(aiStamp))
    ensures var stream := collaborator(text, ChatHistory(s.messages));
      var after := AfterSend(s, text, userStamp, aiStamp, collaborator);
      if IsBlank(text) then after == s
      else
        && after.messages == s.messages + [UserMessage(text, userStamp)]
             + (if stream.chunks == [] then [] else [Message(AiId(aiStamp), Text, Ai, Concat(stream.chunks), None)])
        && (after.isLoading <==> stream.chunks == [] && !stream.fails)
  {
    if !IsBlank(text) {
      var stream := collaborator(text, ChatHistory(s.messages));
      var sub := Submitted(s, text, userStamp);
      if stream.chunks != [] {
        DrainFromFresh(sub.messages, true, AiId(aiStamp), stream.chunks);
      }
    }
  }

  /** The history sent leaves out the message just submitted: the history of
      the transcript after submission is that history plus one user entry. */
  lemma HistoryExcludesSubmitted(ms: seq<Message>, text: string, userStamp: nat)
    ensures ChatHistory(ms + [UserMessage(text, userStamp)])
         == ChatHistory(ms) + [HistoryEntry("user", text)]
  {
    assert (ms + [UserMessage(text, userStamp)])[..|ms|] == ms;
  }

  // ---------------------------------------------------------------------------
  // A reset while a reply streams

  /** A reset before the first chunk: the reply still lands, right after the
      welcome message. */
  lemma ResetBeforeFirstChunk(s: Session, id: MessageId, chunks: seq<string>)
    requires id != Welcome && chunks != []
    ensures Drain(Progress(AfterReset(s), StartReply(id)), chunks).session
         == Session([WelcomeMessage(), Message(id, Text, Ai, Concat(chunks), None)], false)
  {
    DrainFromFresh([WelcomeMessage()], s.isLoading, id, chunks);
  }

  /** A reset after the first chunk: the rest of the reply is lost, and the
      transcript stays the welcome message alone. */
  lemma ResetAfterFirstChunk(p: Progress, chunks: seq<string>)
    requires !p.reply.isFirstChunk && p.reply.aiId != Welcome
    ensures Drain(Progress(AfterReset(p.session), p.reply), chunks).session == AfterReset(p.session)
  {
    OrphanedReplyChangesNothing(Progress(AfterReset(p.session), p.reply), chunks);
  }
}
