/** The message list of the chat widget (ChatMessages.tsx): one bubble per
    message, in order, each showing the raw text or its `MarkdownLite` rows,
    the product carousel and the quick-reply buttons where they apply, and a
    typing indicator after the list while loading. Avatars, the hero header
    and styling are not modelled. */
module ChatMessages {
  import opened Types
  import opened JsString
  import opened MarkdownLite

  /** `renderMarkdown = false`: the default, which the widget never overrides. */
  const DefaultRenderMarkdown: bool := false

  /** What a bubble displays: the content as it is, or its rendered rows. */
  datatype Body = Raw(text: string) | Markup(rows: seq<Row>)

  /** One rendered message: its body, the products of its carousel when one
      is shown, and the quick replies offered under it when they are. */
  datatype Bubble = Bubble(
    sender: SenderType,
    body: Body,
    carousel: Option<seq<Product>>,
    quickReplies: Option<seq<string>>)

  datatype ChatView = ChatView(bubbles: seq<Bubble>, showsTypingIndicator: bool)

  /** `renderMarkdown && msg.sender === AI`. */
  predicate UsesMarkdown(renderMarkdown: bool, m: Message) {
    renderMarkdown && m.sender == Ai
  }

  /** `msg.type === PRODUCT_LIST && msg.products`: any array, even an empty
      one, is truthy. */
  predicate ShowsProducts(m: Message) {
    m.msgType == ProductList && m.products.Some?
  }

  /** `index === 0 && messages.length === 1 && msg.sender === AI`. */
  predicate ShowsQuickReplies(ms: seq<Message>, index: nat)
    requires index < |ms|
  {
    index == 0 && |ms| == 1 && ms[index].sender == Ai
  }

  function RenderBody(renderMarkdown: bool, m: Message): Body {
    if UsesMarkdown(renderMarkdown, m) then Markup(Render(m.content)) else Raw(m.content)
  }

  /** Bubble `index`: everything it shows comes from message `index`, except
      the quick replies, which only the first bubble can carry. */
  function RenderBubble(ms: seq<Message>, index: nat, quickReplies: seq<string>,
                        renderMarkdown: bool): (b: Bubble)
    requires index < |ms|
    ensures b.sender == ms[index].sender
    ensures b.body.Raw? <==> !UsesMarkdown(renderMarkdown, ms[index])
    ensures b.body.Raw? ==> b.body.text == ms[index].content
    ensures b.carousel.Some? ==> ms[index].msgType == ProductList && b.carousel == ms[index].products
    ensures b.quickReplies.Some? ==> index == 0 && |ms| == 1 && b.quickReplies == Some(quickReplies)
  {
    var m := ms[index];
    Bubble(m.sender,
           RenderBody(renderMarkdown, m),
           if ShowsProducts(m) then m.products else None,
           if ShowsQuickReplies(ms, index) then Some(quickReplies) else None)
  }

  /** `<ChatMessages messages isLoading quickReplies renderMarkdown />`. */
  function RenderChat(ms: seq<Message>, isLoading: bool, quickReplies: seq<string>,
                      renderMarkdown: bool): (v: ChatView)
    ensures |v.bubbles| == |ms|
    ensures v.showsTypingIndicator == isLoading
  {
    ChatView(seq(|ms|, i requires 0 <= i < |ms| => RenderBubble(ms, i, quickReplies, renderMarkdown)),
             isLoading)
  }

  /** Markup is used exactly for AI messages when the gate is on, and it
      loses nothing: its rows, with their `**` pairs and line breaks put
      back, are the message's text. Otherwise the text is shown as it is. */
  lemma MarkupOnlyForAi(ms: seq<Message>, isLoading: bool, quickReplies: seq<string>,
                        renderMarkdown: bool, i: nat)
    requires i < |ms|
    ensures var b := RenderChat(ms, isLoading, quickReplies, renderMarkdown).bubbles[i];
      && (b.body.Markup? <==> renderMarkdown && ms[i].sender == Ai)
      && (b.body.Raw? ==> b.body.text == ms[i].content)
      && (b.body.Markup? ==> Join(RestoredLines(b.body.rows), '\n') == ms[i].content)
  {
    RenderRestoresText(ms[i].content);
  }

  /** As the widget mounts the list, with the default gate, every message is
      shown as its raw text. */
  lemma DefaultShowsRawText(ms: seq<Message>, isLoading: bool, quickReplies: seq<string>)
    ensures forall i | 0 <= i < |ms| ::
      RenderChat(ms, isLoading, quickReplies, DefaultRenderMarkdown).bubbles[i].body == Raw(ms[i].content)
  {
  }

  /** The quick replies appear under at most one bubble, the first, and only
      when the transcript is a single AI message. */
  lemma QuickRepliesOnlyForLoneGreeting(ms: seq<Message>, isLoading: bool, quickReplies: seq<string>,
                                        renderMarkdown: bool)
    ensures var v := RenderChat(ms, isLoading, quickReplies, renderMarkdown);
      && (forall i | 0 <= i < |ms| && v.bubbles[i].quickReplies.Some? ::
            i == 0 && v.bubbles[i].quickReplies.value == quickReplies)
      && ((exists i | 0 <= i < |ms| :: v.bubbles[i].quickReplies.Some?)
            <==> |ms| == 1 && ms[0].sender == Ai)
  {
    var v := RenderChat(ms, isLoading, quickReplies, renderMarkdown);
    if |ms| == 1 && ms[0].sender == Ai {
      assert v.bubbles[0].quickReplies.Some?;
    }
  }

  /** A carousel is shown exactly for a product-list message that carries a
      product array, and it holds that array's products in order. */
  lemma CarouselOnlyForProductLists(ms: seq<Message>, isLoading: bool, quickReplies: seq<string>,
                                    renderMarkdown: bool, i: nat)
    requires i < |ms|
    ensures var b := RenderChat(ms, isLoading, quickReplies, renderMarkdown).bubbles[i];
      && (b.carousel.Some? <==> ms[i].msgType == ProductList && ms[i].products.Some?)
      && (b.carousel.Some? ==> b.carousel == ms[i].products)
  {
  }
}
