# Chatbox widget core, modelled in Dafny

This project models the core of the `react-sigma-chatbox` chat widget. It has two parts:

- **The transcript state machine of `Chatbox`.** The widget keeps four pieces of state:
  - `isOpen` and `isExpanded`, which govern the panel;
  - `messages`, the transcript;
  - `isLoading`, which shows the typing indicator.

  `handleSendMessage` refuses blank text and appends the user's message. It raises the loading flag and asks the model service for a reply stream. On the first chunk it appends an empty AI message and lowers the flag. It accumulates the chunks into that message, found by its id. On an error it logs the error to the console and lowers the flag; the transcript is left as it is. The reset button puts the welcome message back. The history sent to the model is the text messages from before the submission, each turned into a `{role, text}` entry.
- **The message list of `ChatMessages`.** It has one bubble per message, a product carousel for product-list messages, and quick-reply buttons under a lone greeting. It also holds the `MarkdownLite` renderer:
  - the text is cut into lines on `'\n'`;
  - each line is cut into plain and bold parts by `line.split(/\*\*(.*?)\*\*/g)`;
  - a line is a bullet when its trimmed form starts with `"* "` or `"- "`;
  - a line break follows every row that is neither a bullet nor the last one.

## Files

- `types.dfy` (`Types`): the `Message`, `MessageType`, `SenderType` and `Product` shapes of `types.ts`. Message ids are abstract: the welcome id, `user-<stamp>` or `ai-<stamp>`.
- `js_string.dfy` (`JsString`): the ECMA-262 string operations the widget relies on: `trim` with its whitespace set, `startsWith`, and `split` on one character, plus `Join` for the round-trip lemmas about `split`.
- `markdown_lite.dfy` (`MarkdownLite`): the bold regular expression and its `@@split` algorithm, bullets and rows.
- `chat_messages.dfy` (`ChatMessages`): the bubbles and the visibility rules.
- `session.dfy` (`ChatSession`): the transcript as pure state-transition functions. Every `setMessages(prev => …)` is a function of the state it finds, so a reset between two chunks can be described.
- `chatbox.dfy` (`ChatboxWidget`): the `Chatbox` component as a class whose handler methods update its fields. `HandleSendMessage` keeps the handler's `for await` loop as a `for` loop. Each method is proved against the `ChatSession` functions. The module also holds the lemmas about what the user sees after each handler.

## Model

| member | source | states |
|---|---|---|
| JsString.BlankIffAllWhitespace | components/Chatbox/Chatbox.tsx:45 | `!text.trim()` holds exactly when every character of the text is JavaScript whitespace or a line terminator |
| JsString.Trim | components/Chatbox/ChatMessages.tsx:39 | `trim` returns the slice between the leading and trailing whitespace; the slice starts and ends with a non-whitespace character |
| JsString.Split | components/Chatbox/ChatMessages.tsx:21 | `text.split('\n')` gives one more piece than there are `'\n'`, and no piece contains a `'\n'` |
| JsString.JoinSplit | components/Chatbox/ChatMessages.tsx:21 | joining the pieces of `text.split('\n')` with `'\n'` gives the text back |
| JsString.SplitJoin | components/Chatbox/ChatMessages.tsx:21 | splitting a join of newline-free lines gives those lines back |
| MarkdownLite.FindClose | components/Chatbox/ChatMessages.tsx:29 | the backtracking search of `(.*?)\*\*` from a position: when it succeeds, a `**` stands at the position it returns, at or after the start |
| MarkdownLite.MatchAt | components/Chatbox/ChatMessages.tsx:29-31 | one sticky attempt of the regex at a position: a match has a `**` at that position and a closing `**` at least two characters later |
| MarkdownLite.SplitFrom | components/Chatbox/ChatMessages.tsx:31 | the `@@split` loop of ECMA-262, which pushes the text before each match and its capture: it always yields an odd number of parts |
| MarkdownLite.BoldSplit | components/Chatbox/ChatMessages.tsx:26-33 | a line's content, the line itself when `test` fails and the split otherwise: an odd number of parts that give the line back once each bold part gets its `**` pair |
| MarkdownLite.FindCloseIsLazy | components/Chatbox/ChatMessages.tsx:29 | the lazy `(.*?)\*\*` closes at the first `**` that has no line terminator before it, and fails exactly when no such `**` exists |
| MarkdownLite.MatchAtIsLazy | components/Chatbox/ChatMessages.tsx:29-31 | a match anchored at a position is a `**` there followed by the lazy close |
| MarkdownLite.SplitFromAlternates | components/Chatbox/ChatMessages.tsx:31-32 | the split yields an odd number of parts; exactly the odd-indexed ones are bold |
| MarkdownLite.SplitFromRestores | components/Chatbox/ChatMessages.tsx:31-32 | putting each bold part back between `**` pairs and concatenating gives the rest of the line unchanged |
| MarkdownLite.SplitFromPlainHasNoMatch | components/Chatbox/ChatMessages.tsx:31 | matches are leftmost: no match of the regex starts inside a plain part |
| MarkdownLite.SplitFromBoldIsMatch | components/Chatbox/ChatMessages.tsx:29-32 | every bold part is the capture of the match that starts at its opening `**` |
| MarkdownLite.SplitFromIsLazy | components/Chatbox/ChatMessages.tsx:29-32 | every bold part contains no line terminator and no `**`, and does not end in `*` |
| MarkdownLite.BoldSplitIsSplit | components/Chatbox/ChatMessages.tsx:30-33 | the `test` guard changes nothing: the rendered parts are always the split |
| MarkdownLite.BoldSplitSound | components/Chatbox/ChatMessages.tsx:26-33 | for k matches, a line renders as 2k+1 alternating parts. The bold parts are the lazy captures from left to right, and no match starts in a plain part. Restoring the `**` pairs gives the line, so no character is lost or added |
| MarkdownLite.NoMatchRendersLine | components/Chatbox/ChatMessages.tsx:26-30 | a line in which no `**` is followed by a lazy close renders as the line itself, in one plain part |
| MarkdownLite.IsBullet | components/Chatbox/ChatMessages.tsx:39 | the bullet test on the trimmed line: a bullet has content after its two-character marker, so a blank line is never a bullet |
| MarkdownLite.BulletHasMarker | components/Chatbox/ChatMessages.tsx:39 | a bullet's first non-whitespace character is `*` or `-`, followed by a space, and a non-whitespace character comes later |
| MarkdownLite.BulletIffMarker | components/Chatbox/ChatMessages.tsx:39 | a line is a bullet if and only if it is leading whitespace, then `* ` or `- `, then at least one non-whitespace character |
| MarkdownLite.OtherMarkerIsNotBullet | components/Chatbox/ChatMessages.tsx:39 | a line whose first non-whitespace character is not `*` or `-` (a `+`, say) is never a bullet |
| MarkdownLite.RenderLine | components/Chatbox/ChatMessages.tsx:25-46 | row `idx`: it is a bullet iff the line is, its parts give the line back, and a break follows iff it is no bullet and not the last row |
| MarkdownLite.Render | components/Chatbox/ChatMessages.tsx:21-47 | there are as many rows as `'\n'` plus one; a row is followed by a line break iff it is not a bullet and not the last row |
| MarkdownLite.RowsFollowLines | components/Chatbox/ChatMessages.tsx:21-45 | row i stands for line i: it is a bullet exactly when that line is, and its parts restore that line, marker included |
| MarkdownLite.RenderRestoresText | components/Chatbox/ChatMessages.tsx:21-47 | joining the restored rows with `'\n'` gives the whole text back |
| ChatMessages.RenderChat | components/Chatbox/ChatMessages.tsx:87-160 | one bubble per message, in order; the typing indicator is shown exactly while loading |
| ChatMessages.RenderBubble | components/Chatbox/ChatMessages.tsx:87-141 | bubble `index` shows message `index`'s sender. Its body is raw exactly when the markdown gate (`UsesMarkdown`) is off, and a raw body is the content. A carousel (`ShowsProducts`) belongs to a product list and shows its products. Quick replies (`ShowsQuickReplies`) appear only under the only bubble and are the configured list |
| ChatMessages.MarkupOnlyForAi | components/Chatbox/ChatMessages.tsx:112-116 | markup is used iff the gate is on and the sender is the AI. Raw bodies are the content, and markup rows rejoin to the content |
| ChatMessages.DefaultShowsRawText | components/Chatbox/ChatMessages.tsx:112-116 | with the default gate, which `Chatbox` never overrides, every message shows its raw content |
| ChatMessages.QuickRepliesOnlyForLoneGreeting | components/Chatbox/ChatMessages.tsx:129-141 | quick replies appear only under bubble 0, holding the configured replies. Some bubble has them iff the transcript is exactly one AI message |
| ChatMessages.CarouselOnlyForProductLists | components/Chatbox/ChatMessages.tsx:119-127 | a carousel appears iff the message is a product list that carries a products array, and it shows that array |
| ChatSession.ChatHistory | components/Chatbox/Chatbox.tsx:68-73 | the filter/map of the messages into history entries: at most one entry per message (`ChatHistoryIsTextMessages` says which) |
| ChatSession.ToHistoryEntry | components/Chatbox/Chatbox.tsx:70-73 | an entry's text is the content; its role is `user` iff the sender is the user, and `model` otherwise |
| ChatSession.ChatHistoryIsTextMessages | components/Chatbox/Chatbox.tsx:68-73 | the history has exactly the text messages, each converted, in their original order, none skipped |
| ChatSession.ChatHistoryAppend | components/Chatbox/Chatbox.tsx:68-73 | the history of a concatenation is the concatenation of the histories |
| ChatSession.HistoryExcludesSubmitted | components/Chatbox/Chatbox.tsx:54-75 | the history of the transcript after the submission is the pre-submission history plus one user entry holding the text |
| ChatSession.Submitted | components/Chatbox/Chatbox.tsx:47-65 | the user message is appended: text type, user sender, the text as content, a user id; earlier messages are unchanged and loading is raised |
| ChatSession.AfterChunk | components/Chatbox/Chatbox.tsx:80-91 | one loop iteration. The text so far grows by the chunk and the first-chunk flag ends false. Only the first chunk appends a message and lowers loading. Messages not carrying the reply's id are unchanged |
| ChatSession.Drain | components/Chatbox/Chatbox.tsx:77-92 | the loop over the chunks: the text so far grows by their in-order concatenation. Exactly one message is appended, and loading lowered, iff the reply was fresh and a chunk came. Messages not carrying the reply's id are unchanged |
| ChatSession.AfterFailure | components/Chatbox/Chatbox.tsx:93-96 | `catch`: the messages are unchanged and loading is lowered |
| ChatSession.AfterSend | components/Chatbox/Chatbox.tsx:44-97 | a blank text changes nothing. Otherwise the user message sits right after the old messages, and one more message follows iff a chunk came. Old messages not carrying the AI id are unchanged. Loading ends up iff no chunk came and no error was thrown |
| ChatSession.AfterReset | components/Chatbox/Chatbox.tsx:136-142 | the transcript is the initial one again; only the loading flag is kept |
| ChatSession.SetContentByIdLast | components/Chatbox/Chatbox.tsx:89-91 | rewriting by a fresh id changes only the message that carries it |
| ChatSession.SetContentByIdAbsent | components/Chatbox/Chatbox.tsx:89-91 | rewriting by an id no message carries changes nothing |
| ChatSession.DrainFromFresh | components/Chatbox/Chatbox.tsx:77-92 | one or more chunks on a fresh reply append exactly one AI text message. It holds the chunks concatenated in order, earlier messages are unchanged, and loading is cleared |
| ChatSession.OrphanedReplyChangesNothing | components/Chatbox/Chatbox.tsx:87-91 | once the reply's message is gone, later chunks change no message and only extend `fullContent` |
| ChatSession.SendSpec | components/Chatbox/Chatbox.tsx:44-97 | a blank text changes nothing. Otherwise the messages become the old ones, the user message, and, if any chunk came, one AI message with all chunks. Loading ends true iff no chunk came and no error was thrown |
| ChatSession.ResetBeforeFirstChunk | components/Chatbox/Chatbox.tsx:136-142 | after a reset, a reply whose first chunk is still to come lands right after the welcome message |
| ChatSession.ResetAfterFirstChunk | components/Chatbox/Chatbox.tsx:136-142 | a reset after the first chunk drops the rest of the reply; the transcript stays the welcome message alone |
| ChatboxWidget.Chatbox.constructor | components/Chatbox/Chatbox.tsx:15-26 | the panel starts closed and collapsed, the transcript is the welcome message, and loading is off |
| ChatboxWidget.Chatbox.HandleSendMessage | components/Chatbox/Chatbox.tsx:44-97 | the loop leaves the state `AfterSend` describes. The history handed to the collaborator is built from the messages before the submission, so it leaves out the message just sent. The panel flags are untouched |
| ChatboxWidget.Chatbox.HandleQuickReply | components/Chatbox/Chatbox.tsx:99-101 | a quick reply is sent exactly like typed text |
| ChatboxWidget.Chatbox.Reset | components/Chatbox/Chatbox.tsx:136-142 | the transcript becomes the welcome message; loading and the panel flags stay as they were |
| ChatboxWidget.Chatbox.ToggleOpen | components/Chatbox/Chatbox.tsx:118-123 | `isOpen` flips, closing also collapses the panel, and "expanded only while open" is preserved |
| ChatboxWidget.Chatbox.ToggleExpand | components/Chatbox/Chatbox.tsx:103-105 | `isExpanded` flips and nothing else changes |
| ChatboxWidget.Chatbox.Close | components/Chatbox/Chatbox.tsx:132-135 | the panel is closed and collapsed; the transcript is untouched |
| ChatboxWidget.ResetShowsQuickReplies | components/Chatbox/Chatbox.tsx:136-142 | after a reset the list is the greeting alone, with the quick replies under it, and the typing indicator is as before |
| ChatboxWidget.SendHidesQuickReplies | components/Chatbox/Chatbox.tsx:44-65 | after a non-blank send no bubble offers quick replies, whatever the stream does and whichever ids the messages carry |
| ChatboxWidget.EmptyAnswerKeepsTypingIndicator | components/Chatbox/Chatbox.tsx:65-92 | a stream that ends with no chunk and no error leaves the typing indicator up when the handler returns, under the user message, and a reset afterwards does not clear it. That only a later send receiving a chunk or failing clears it is `ChatSession.AfterSend`'s loading clause |
| ChatboxWidget.FailureClearsTypingIndicator | components/Chatbox/Chatbox.tsx:93-96 | a failing stream takes the indicator down. No message is added beyond the user's and the AI's; the AI message keeps the text received so far |

Behaviours of the code worth knowing:

- The configured `welcomeMessage` is never shown. The greeting on mount and after a reset is the literal hard-coded in Chatbox.tsx, which `ChatSession.WelcomeText` reproduces.
- A stream that ends without any chunk and without an error leaves `isLoading` true after the handler returns. A reset does not clear it; only a later send that receives a chunk or fails does.
- No error message is appended on failure.
- A reset neither stops a running stream nor clears `isLoading`. A reply whose first chunk arrives after a reset is appended to the fresh transcript.
- `renderMarkdown` defaults to false and `Chatbox` never passes it, so the renderer is reachable only through the gate.
- There are no `+` bullets, links or headings.

## Left out

- Auto-scroll (Chatbox.tsx:30-42): DOM measurement, with no effect on the state.
- The model service (`services/geminiService.ts`) is not part of this model. It is replaced by a `Collaborator` function from the text and the history to a finite chunk sequence, optionally followed by a failure.
- `App.tsx` is not part of this model. It is demo glue, and its `onGetAiResponse` prop is not read by `Chatbox`.
- Presentational components (`ChatInput`, `ChatHeader`, `FloatingButton`, `ProductCard`), CSS classes, animations, avatars and the hero header carry no state this model tracks.
- `Date.now()` ids and `new Date()` timestamps: clock readings are `nat` parameters, and timestamps are dropped.
- ChatSession.SendSpec: requires the new AI id to be absent from the transcript, instead of modelling two sends within the same millisecond.
- Asynchrony and React batching: each state setter is treated as an immediate update, in the order the handler calls it. Interleavings are described only for a reset between chunks (`ResetBeforeFirstChunk`, `ResetAfterFirstChunk`), not for two concurrent sends.
- Characters stand for Unicode code points, where JavaScript counts UTF-16 code units. A character above U+FFFF is one character here and two code units there. The results are the same, because every character that `trim`, `split` and the bold regex look for lies in the Basic Multilingual Plane and none is a surrogate.
- `ChatboxConfig.primaryColor` and `ChatboxConfig.placeholder` only style the view and are not modelled. `botName`, `avatarUrl` and `welcomeMessage` are never read by `Chatbox` or `ChatMessages`. The header title (Chatbox.tsx:130), the avatar URLs (ChatMessages.tsx:61-62) and the greeting (Chatbox.tsx:22 and 140) are hard-coded literals, and the model uses the greeting literal.
- The `console.error` call in the send handler's `catch` (Chatbox.tsx:94) is console output and is not modelled.
- The `whitespace-pre-line` styling of raw bodies is left out. The model keeps the raw content string that is styled.
- ChatboxWidget.Chatbox.ToggleExpand: it keeps "expanded only while open" only when called while open. The header that offers it exists only then, and the method does not require it.
