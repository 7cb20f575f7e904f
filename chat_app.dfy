/**
 * The chat page (`ChatApp.tsx`): the message list of the open chat, sending a question and revealing the
 * answer line by line, starting a new chat, loading a saved one and saving a new one.
 */
module ChatApp {
  import opened Wrappers
  import opened Strings
  import opened Lists
  import SummarizeRoute
  import ChatSidebar

  /** A message as the page holds it; `timestamp` is the already formatted clock time. */
  datatype Message = Message(id: string, text: string, isUser: bool, timestamp: string)

  /**
   * What the call to the answer route gave back: the summary of a successful answer; a successful status
   * whose body has no `summary`, on which `data.summary.split` throws after the empty answer message is
   * added; or a failure (an error status, a network error or a body that is not JSON).
   */
  datatype Reply = Answered(summary: string) | Unsummarized | Failed

  const ErrorText: string := "Beklager, der opstod en fejl. Prøv venligst igen."
  const FallbackTitle: string := "Ny chat"

  /** The user's question as it is added to the list. */
  function Question(id: string, text: string, stamp: string): Message
  {
    Message(id, text, true, stamp)
  }

  /** The answer message as it is first added, still empty. */
  function Placeholder(id: string, stamp: string): Message
  {
    Message(id, "", false, stamp)
  }

  /** The message added when the call failed or its successful reply could not be read. */
  function Apology(id: string, stamp: string): Message
  {
    Message(id, ErrorText, false, stamp)
  }

  function MessageId(m: Message): string
  {
    m.id
  }

  /** `text.substring(0, 50) || 'Ny chat'`: the first 50 characters of the text, or "Ny chat" when it is empty. */
  function ChatTitle(text: string): (title: string)
    ensures 1 <= |title| <= 50
    ensures text == [] ==> title == FallbackTitle
    ensures text != [] ==> IsPrefix(title, text) && |title| == if |text| < 50 then |text| else 50
  {
    var head := Take(text, 50);
    if head != [] then head else FallbackTitle
  }

  /** `messages.map(msg => ({ text: msg.text, isUser: msg.isUser }))`: the history sent with a question. */
  function HistoryOf(messages: seq<Message>): (history: seq<SummarizeRoute.Turn>)
    ensures |history| == |messages|
    ensures forall i :: 0 <= i < |history| ==>
              history[i].text == messages[i].text && history[i].isUser == messages[i].isUser
  {
    seq(|messages|, i requires 0 <= i < |messages| => SummarizeRoute.Turn(messages[i].text, messages[i].isUser))
  }

  /** The history of a longer conversation extends the history of the shorter one by the new message. */
  lemma HistoryAppend(messages: seq<Message>, m: Message)
    ensures HistoryOf(messages + [m]) == HistoryOf(messages) + [SummarizeRoute.Turn(m.text, m.isUser)]
  {
    var a := HistoryOf(messages + [m]);
    var b := HistoryOf(messages) + [SummarizeRoute.Turn(m.text, m.isUser)];
    assert |a| == |b|;
    forall i | 0 <= i < |a| ensures a[i] == b[i] {
      if i < |messages| {
        assert (messages + [m])[i] == messages[i];
      }
    }
  }

  /** A line the reveal shows: one whose `trim()` is not empty. */
  predicate IsVisible(line: string)
  {
    !IsBlank(line)
  }

  /** The non-blank lines among `lines`, in order. */
  function Visible(lines: seq<string>): seq<string>
  {
    Filter(lines, IsVisible)
  }

  /** The non-blank lines of an answer, `summary.split('\n')` without the blank ones. */
  function AnswerLines(summary: string): seq<string>
  {
    Visible(Split(summary, '\n'))
  }

  /** `currentText` after the given lines: each line followed by a line break. */
  function Accumulate(lines: seq<string>): string
  {
    if lines == [] then "" else Accumulate(lines[..|lines| - 1]) + lines[|lines| - 1] + "\n"
  }

  /** The text the answer message shows when the reveal is over. */
  function RevealText(summary: string): string
  {
    Accumulate(AnswerLines(summary))
  }

  /** The texts published one after the other: after the first line, after the first two lines, and so on. */
  function Snapshots(lines: seq<string>): seq<string>
  {
    if lines == [] then [] else Snapshots(lines[..|lines| - 1]) + [Accumulate(lines)]
  }

  /** `80 + Math.min(line.length * 3, 200)`: the pause after showing a line, in milliseconds. */
  function Delay(line: string): (ms: int)
    ensures 80 <= ms <= 280
  {
    80 + if |line| * 3 < 200 then |line| * 3 else 200
  }

  /** The pauses taken, one per shown line. */
  function Delays(lines: seq<string>): (pauses: seq<int>)
    ensures |pauses| == |lines|
    ensures forall i :: 0 <= i < |pauses| ==> pauses[i] == Delay(lines[i])
  {
    seq(|lines|, i requires 0 <= i < |lines| => Delay(lines[i]))
  }

  /** One more shown line adds its pause at the end. */
  lemma DelaysAppend(lines: seq<string>, line: string)
    ensures Delays(lines + [line]) == Delays(lines) + [Delay(line)]
  {
    var a := Delays(lines + [line]);
    forall i | 0 <= i < |a| ensures a[i] == (Delays(lines) + [Delay(line)])[i] {
      if i < |lines| {
        assert (lines + [line])[i] == lines[i];
      }
    }
  }

  /** A longer line never gets a shorter pause. */
  lemma DelayMonotone(a: string, b: string)
    requires |a| <= |b|
    ensures Delay(a) <= Delay(b)
  {
  }

  /**
   * `prev.map(msg => msg.id === id ? { ...msg, text } : msg)`: the messages with that id get the text;
   * every message keeps its place, its id, its author and its time.
   */
  function SetText(messages: seq<Message>, id: string, text: string): (updated: seq<Message>)
    ensures |updated| == |messages|
    ensures forall i :: 0 <= i < |updated| && messages[i].id == id ==> updated[i] == messages[i].(text := text)
    ensures forall i :: 0 <= i < |updated| && messages[i].id != id ==> updated[i] == messages[i]
  {
    seq(|messages|, i requires 0 <= i < |messages| => if messages[i].id == id then messages[i].(text := text) else messages[i])
  }

  /** Only the last text set on an id matters. */
  lemma SetTextTwice(messages: seq<Message>, id: string, first: string, second: string)
    ensures SetText(SetText(messages, id, first), id, second) == SetText(messages, id, second)
  {
  }

  /** When only the last message has the id, setting the text changes that message alone. */
  lemma SetTextLast(messages: seq<Message>, m: Message, text: string)
    requires forall i :: 0 <= i < |messages| ==> messages[i].id != m.id
    ensures SetText(messages + [m], m.id, text) == messages + [m.(text := text)]
  {
    var a := SetText(messages + [m], m.id, text);
    var b := messages + [m.(text := text)];
    forall i | 0 <= i < |a| ensures a[i] == b[i] {
      if i < |messages| {
        assert (messages + [m])[i] == messages[i];
      }
    }
  }

  /** The non-blank lines of `lines[..i + 1]` are those of `lines[..i]` and `lines[i]` when it is not blank. */
  lemma VisibleStep(lines: seq<string>, i: int)
    requires 0 <= i < |lines|
    ensures IsVisible(lines[i]) ==> Visible(lines[..i + 1]) == Visible(lines[..i]) + [lines[i]]
    ensures !IsVisible(lines[i]) ==> Visible(lines[..i + 1]) == Visible(lines[..i])
  {
    FilterSnoc(lines, i, IsVisible);
    if !IsVisible(lines[i]) {
      assert Visible(lines[..i]) + [] == Visible(lines[..i]);
    }
  }

  /** Appending a line extends the accumulated text by that line and a line break. */
  lemma AccumulateAppend(lines: seq<string>, line: string)
    ensures Accumulate(lines + [line]) == Accumulate(lines) + line + "\n"
    ensures Snapshots(lines + [line]) == Snapshots(lines) + [Accumulate(lines) + line + "\n"]
  {
    assert (lines + [line])[..|lines|] == lines;
  }

  /** The accumulated text is the lines joined by line breaks, with one more line break at the end. */
  lemma {:induction false} AccumulateIsJoin(lines: seq<string>)
    requires lines != []
    ensures Accumulate(lines) == Join(lines, '\n') + "\n"
    decreases |lines|
  {
    if |lines| > 1 {
      var front := lines[..|lines| - 1];
      AccumulateIsJoin(front);
      assert lines == front + [lines[|lines| - 1]];
      JoinAppend(front, [lines[|lines| - 1]], '\n');
    }
  }

  /** Blank lines contribute nothing: dropping one from the answer changes neither the lines shown nor the text. */
  lemma BlankLineIgnored(before: seq<string>, line: string, after: seq<string>)
    requires IsBlank(line)
    ensures Visible(before + [line] + after) == Visible(before + after)
  {
    FilterSkip(before, line, after, IsVisible);
  }

  /** The revealed text splits back into the answer's non-blank lines, followed by an empty piece after the last break. */
  lemma RevealRoundTrip(summary: string)
    requires AnswerLines(summary) != []
    ensures Split(RevealText(summary), '\n') == AnswerLines(summary) + [""]
  {
    AnswerLinesUnbroken(summary);
    AccumulateRoundTrip(AnswerLines(summary));
  }

  /** A line holding no line break. */
  predicate Unbroken(line: string)
  {
    '\n' !in line
  }

  /** The answer's lines hold no line break. */
  lemma AnswerLinesUnbroken(summary: string)
    ensures forall i :: 0 <= i < |AnswerLines(summary)| ==> '\n' !in AnswerLines(summary)[i]
  {
    FilterKeeps(Split(summary, '\n'), IsVisible, Unbroken);
  }

  /** Lines without breaks, accumulated, split back into those lines and an empty piece after the last break. */
  lemma AccumulateRoundTrip(lines: seq<string>)
    requires lines != []
    requires forall i :: 0 <= i < |lines| ==> '\n' !in lines[i]
    ensures Split(Accumulate(lines), '\n') == lines + [""]
  {
    AccumulateIsJoin(lines);
    JoinAppend(lines, [""], '\n');
    assert Join([""], '\n') == "";
    assert Join(lines, '\n') + "\n" == Join(lines, '\n') + ['\n'] + "";
    assert forall i :: 0 <= i < |lines + [""]| ==> '\n' !in (lines + [""])[i];
    SplitJoin(lines + [""], '\n');
  }

  /** An answer without blank lines is revealed exactly, with one line break added at the end. */
  lemma RevealUnbroken(summary: string)
    requires forall i :: 0 <= i < |Split(summary, '\n')| ==> IsVisible(Split(summary, '\n')[i])
    ensures RevealText(summary) == summary + "\n"
  {
    FilterAll(Split(summary, '\n'), IsVisible);
    AccumulateIsJoin(Split(summary, '\n'));
    JoinSplit(summary, '\n');
  }

  /** An answer of only blank lines reveals nothing: the answer message keeps its empty text. */
  lemma RevealBlank(summary: string)
    requires forall i :: 0 <= i < |Split(summary, '\n')| ==> !IsVisible(Split(summary, '\n')[i])
    ensures RevealText(summary) == ""
  {
    FilterNone(Split(summary, '\n'), IsVisible);
  }

  /**
   * One update per shown line, each an extension of the one before, the last being the full revealed text:
   * the displayed answer only ever grows.
   */
  lemma {:induction false} SnapshotsGrow(lines: seq<string>)
    ensures |Snapshots(lines)| == |lines|
    ensures lines != [] ==> Snapshots(lines)[|lines| - 1] == Accumulate(lines)
    ensures forall i, j :: 0 <= i <= j < |lines| ==> IsPrefix(Snapshots(lines)[i], Snapshots(lines)[j])
    decreases |lines|
  {
    if lines != [] {
      var front := lines[..|lines| - 1];
      SnapshotsGrow(front);
      var s := Snapshots(lines);
      assert s == Snapshots(front) + [Accumulate(lines)];
      forall i, j | 0 <= i <= j < |lines| ensures IsPrefix(s[i], s[j]) {
        if j == |lines| - 1 && i < j {
          AccumulatePrefix(lines, i + 1);
          assert lines[..i + 1] == front[..i + 1];
          SnapshotAt(front, i);
        }
      }
    }
  }

  /** The `i`-th published text is the text after the first `i + 1` lines. */
  lemma {:induction false} SnapshotAt(lines: seq<string>, i: int)
    requires 0 <= i < |lines|
    ensures |Snapshots(lines)| == |lines|
    ensures Snapshots(lines)[i] == Accumulate(lines[..i + 1])
    decreases |lines|
  {
    var front := lines[..|lines| - 1];
    if i < |lines| - 1 {
      SnapshotAt(front, i);
      assert front[..i + 1] == lines[..i + 1];
    } else {
      if front != [] {
        SnapshotAt(front, 0);
      }
      assert lines[..i + 1] == lines;
    }
  }

  /** The text after the first `k` lines begins the text after all of them. */
  lemma {:induction false} AccumulatePrefix(lines: seq<string>, k: int)
    requires 0 <= k <= |lines|
    ensures IsPrefix(Accumulate(lines[..k]), Accumulate(lines))
    decreases |lines|
  {
    if k < |lines| {
      var front := lines[..|lines| - 1];
      AccumulatePrefix(front, k);
      assert front[..k] == lines[..k];
    } else {
      assert lines[..k] == lines;
    }
  }

  /**
   * What `saveChat` posts to create a chat, given the message list it sees: nothing for an empty list or when
   * a chat is already open, otherwise the title of the first message.
   */
  function CreateTitle(seen: seq<Message>, currentChatId: Option<string>): (title: Option<string>)
    ensures title.Some? <==> seen != [] && !Truthy(currentChatId)
    ensures title.Some? ==> title.value == ChatTitle(seen[0].text)
  {
    if seen == [] || Truthy(currentChatId) then None else Some(ChatTitle(seen[0].text))
  }

  /**
   * A new page's first question as `handleSendMessage` is written: its `saveChat` reads the list of the
   * render that sent the question, which is empty, so nothing is posted to create a chat, whatever id the
   * server would have given it. No chat is opened or saved to, and the sidebar's optimistic insert, which
   * needs both the new chat's id and its title, leaves the sidebar empty.
   */
  method StaleFirstSave(message: string, questionId: string, stamp: string, createdId: string, now: int)
    returns (title: Option<string>, openChat: Option<string>, saved: Option<string>, shown: seq<ChatSidebar.Chat>)
    ensures title == None && openChat == None && saved == None
    ensures shown == []
  {
    var page := new AppState();
    var sidebar := new ChatSidebar.SidebarState();
    var request;
    request, title, saved := page.Ask(message, questionId, stamp, Some(createdId));
    sidebar.AddOptimistic(page.newChatId, page.newChatTitle, now);
    openChat, shown := page.currentChatId, sidebar.chats;
  }

  /**
   * A new page's first question with `saveChat` reading the list that holds it: the chat is created under the
   * question's title, opened, saved to, and shown in the sidebar, pending.
   */
  method FirstSaveAnnouncesChat(message: string, questionId: string, stamp: string, createdId: string, now: int)
    returns (title: Option<string>, openChat: Option<string>, saved: Option<string>, shown: seq<ChatSidebar.Chat>)
    requires createdId != []
    ensures title == Some(ChatTitle(message)) && openChat == Some(createdId) && saved == Some(createdId)
    ensures shown == [ChatSidebar.Chat(createdId, ChatTitle(message), now, now, true)]
  {
    var page := new AppState();
    var sidebar := new ChatSidebar.SidebarState();
    var request;
    request, title, saved := page.AskIntended(message, questionId, stamp, Some(createdId));
    sidebar.AddOptimistic(page.newChatId, page.newChatTitle, now);
    openChat, shown := page.currentChatId, sidebar.chats;
  }

  /** The page's state. */
  class AppState {
    var messages: seq<Message>
    var isLoading: bool
    var currentChatId: Option<string>
    var newChatId: Option<string>
    var newChatTitle: Option<string>

    /** An empty chat, nothing loading, no chat open. */
    constructor ()
      ensures messages == [] && !isLoading
      ensures currentChatId == None && newChatId == None && newChatTitle == None
    {
      messages := [];
      isLoading := false;
      currentChatId := None;
      newChatId := None;
      newChatTitle := None;
    }

    /** `handleNewChat`: an empty list and no open, created or announced chat. */
    method NewChat()
      modifies this
      ensures messages == [] && currentChatId == None && newChatId == None && newChatTitle == None
      ensures isLoading == old(isLoading)
    {
      messages := [];
      currentChatId := None;
      newChatId := None;
      newChatTitle := None;
    }

    /**
     * `handleLoadChat`: `stored` is the chat's messages when the request succeeded. They replace the list,
     * keeping the first message of each id, and the chat becomes the open one. A failure changes nothing.
     */
    method LoadChat(chatId: string, stored: Option<seq<Message>>)
      modifies this
      ensures stored.Some? ==> messages == UniqueBy(stored.value, MessageId) && currentChatId == Some(chatId)
      ensures stored.None? ==> messages == old(messages) && currentChatId == old(currentChatId)
      ensures isLoading == old(isLoading) && newChatId == old(newChatId) && newChatTitle == old(newChatTitle)
    {
      if stored.Some? {
        messages := UniqueBy(stored.value, MessageId);
        currentChatId := Some(chatId);
      }
    }

    /**
     * `saveChat` reading the message list `seen`, the list of the render whose closure runs it: the current
     * list when the save button runs it, the list before the question when `handleSendMessage` does.
     * `created` is the new chat's id when the create request succeeded. Returns the title posted to create a
     * chat, if any, and the chat the messages are then posted to, if any.
     */
    method SaveChat(seen: seq<Message>, created: Option<string>) returns (title: Option<string>, savedTo: Option<string>)
      modifies this`currentChatId, this`newChatId
      ensures title == CreateTitle(seen, old(currentChatId))
      ensures title.Some? && created.Some? ==> currentChatId == created && newChatId == created
      ensures !(title.Some? && created.Some?) ==> currentChatId == old(currentChatId) && newChatId == old(newChatId)
      ensures seen == [] ==> savedTo == None
      ensures seen != [] ==> savedTo == if Truthy(currentChatId) then Some(currentChatId.value) else None
    {
      title := None;
      savedTo := None;
      if seen == [] {
        return;
      }
      var chatId := currentChatId;
      if !Truthy(chatId) {
        title := Some(ChatTitle(seen[0].text));
        if created.Some? {
          chatId := created;
          currentChatId := chatId;
          newChatId := chatId;
        }
      }
      if Truthy(chatId) {
        savedTo := Some(chatId.value);
      }
    }

    /**
     * `handleSendMessage`. The ids and the clock time are given, and so are the outcomes of the two requests:
     * `created` is the id the server would give a created chat, `reply` the answer route's reply. Returns the
     * request posted to the answer route, the title posted to create a chat and the chat saved to right after
     * the first question (never any, as the handler is written), the texts published to the answer message
     * one after the other with the pause after each, and the chat the messages are saved to once the answer
     * is shown (if any).
     */
    method SendMessage(message: string, questionId: string, aiId: string, errorId: string, stamp: string,
                       created: Option<string>, reply: Reply)
      returns (request: Option<SummarizeRoute.Request>, title: Option<string>, firstSave: Option<string>,
               published: seq<string>, delays: seq<int>, savedTo: Option<string>)
      modifies this`messages, this`isLoading, this`newChatTitle, this`currentChatId, this`newChatId
      ensures title == None && firstSave == None
      ensures currentChatId == old(currentChatId) && newChatId == old(newChatId)
      ensures IsBlank(message) ==>
                request == None && published == [] && delays == [] && savedTo == None
                && messages == old(messages) && isLoading == old(isLoading) && newChatTitle == old(newChatTitle)
      ensures !IsBlank(message) ==>
                request == Some(SummarizeRoute.Request(Some(message), Some(HistoryOf(old(messages))))) && !isLoading
      ensures !IsBlank(message) ==>
                newChatTitle == if old(messages) == [] then Some(ChatTitle(message)) else old(newChatTitle)
      ensures !IsBlank(message) && reply.Failed? ==>
                messages == old(messages) + [Question(questionId, message, stamp)] + [Apology(errorId, stamp)]
                && published == [] && delays == [] && savedTo == None
      ensures !IsBlank(message) && reply.Unsummarized? ==>
                messages == old(messages) + [Question(questionId, message, stamp)] + [Placeholder(aiId, stamp), Apology(errorId, stamp)]
                && published == [] && delays == [] && savedTo == None
      ensures !IsBlank(message) && reply.Answered? ==>
                var base := old(messages) + [Question(questionId, message, stamp)] + [Placeholder(aiId, stamp)];
                && published == Snapshots(AnswerLines(reply.summary))
                && delays == Delays(AnswerLines(reply.summary))
                && messages == (if published == [] then base else SetText(base, aiId, RevealText(reply.summary)))
                && savedTo == if Truthy(old(currentChatId)) then Some(old(currentChatId).value) else None
    {
      request, title, firstSave, published, delays, savedTo := None, None, None, [], [], None;
      if IsBlank(message) {
        return;
      }
      var chatIdAtSend := currentChatId;
      var sent;
      sent, title, firstSave := Ask(message, questionId, stamp, created);
      request := Some(sent);
      published, delays, savedTo := Answer(aiId, errorId, stamp, reply, chatIdAtSend);
      isLoading := false;
    }

    /**
     * The first half of `handleSendMessage` for a non-blank question: add it, mark the page loading and build
     * the request with the history before it. On the chat's first question it announces the new chat's title
     * and runs `saveChat`, but with the list of the render that sent the question, which is empty: nothing is
     * posted and neither chat id changes.
     */
    method Ask(message: string, questionId: string, stamp: string, created: Option<string>)
      returns (request: SummarizeRoute.Request, title: Option<string>, firstSave: Option<string>)
      modifies this`messages, this`isLoading, this`newChatTitle, this`currentChatId, this`newChatId
      ensures messages == old(messages) + [Question(questionId, message, stamp)] && isLoading
      ensures request == SummarizeRoute.Request(Some(message), Some(HistoryOf(old(messages))))
      ensures newChatTitle == if old(messages) == [] then Some(ChatTitle(message)) else old(newChatTitle)
      ensures title == None && firstSave == None
      ensures currentChatId == old(currentChatId) && newChatId == old(newChatId)
    {
      var seen := messages;
      messages := messages + [Question(questionId, message, stamp)];
      isLoading := true;
      title, firstSave := None, None;
      if |seen| == 0 {
        newChatTitle := Some(ChatTitle(message));
        title, firstSave := SaveChat(seen, created);
      }
      request := SummarizeRoute.Request(Some(message), Some(HistoryOf(seen)));
    }

    /**
     * `Ask` with the first save reading the list that already holds the question, as the comment before it
     * intends: a first question names the new chat, creates it when no chat is open, opens and announces the
     * created chat and saves to the open chat.
     */
    method AskIntended(message: string, questionId: string, stamp: string, created: Option<string>)
      returns (request: SummarizeRoute.Request, title: Option<string>, firstSave: Option<string>)
      modifies this`messages, this`isLoading, this`newChatTitle, this`currentChatId, this`newChatId
      ensures messages == old(messages) + [Question(questionId, message, stamp)] && isLoading
      ensures request == SummarizeRoute.Request(Some(message), Some(HistoryOf(old(messages))))
      ensures newChatTitle == if old(messages) == [] then Some(ChatTitle(message)) else old(newChatTitle)
      ensures title == if old(messages) == [] then CreateTitle([Question(questionId, message, stamp)], old(currentChatId)) else None
      ensures title.Some? && created.Some? ==> currentChatId == created && newChatId == created
      ensures !(title.Some? && created.Some?) ==> currentChatId == old(currentChatId) && newChatId == old(newChatId)
      ensures firstSave == if old(messages) == [] && Truthy(currentChatId) then Some(currentChatId.value) else None
    {
      var seen := messages;
      messages := messages + [Question(questionId, message, stamp)];
      isLoading := true;
      title, firstSave := None, None;
      if |seen| == 0 {
        newChatTitle := Some(ChatTitle(message));
        title, firstSave := SaveChat(messages, created);
      }
      request := SummarizeRoute.Request(Some(message), Some(HistoryOf(seen)));
    }

    /**
     * The second half of `handleSendMessage`: add the apology when the call failed; otherwise add the empty
     * answer message, then the apology when the reply has no summary, or else reveal the answer into it, and save the messages to `chatId`, the chat that was open
     * when the question was sent, if any.
     */
    method Answer(aiId: string, errorId: string, stamp: string, reply: Reply, chatId: Option<string>)
      returns (published: seq<string>, delays: seq<int>, savedTo: Option<string>)
      modifies this`messages
      ensures reply.Failed? ==>
                messages == old(messages) + [Apology(errorId, stamp)] && published == [] && delays == [] && savedTo == None
      ensures reply.Unsummarized? ==>
                messages == old(messages) + [Placeholder(aiId, stamp), Apology(errorId, stamp)]
                && published == [] && delays == [] && savedTo == None
      ensures reply.Answered? ==>
                && published == Snapshots(AnswerLines(reply.summary))
                && delays == Delays(AnswerLines(reply.summary))
                && messages == (if published == [] then old(messages) + [Placeholder(aiId, stamp)]
                                else SetText(old(messages) + [Placeholder(aiId, stamp)], aiId, RevealText(reply.summary)))
                && savedTo == if Truthy(chatId) then Some(chatId.value) else None
    {
      savedTo := None;
      if reply.Failed? {
        messages := messages + [Apology(errorId, stamp)];
        published, delays := [], [];
      } else if reply.Unsummarized? {
        messages := messages + [Placeholder(aiId, stamp)];
        messages := messages + [Apology(errorId, stamp)];
        published, delays := [], [];
      } else {
        messages := messages + [Placeholder(aiId, stamp)];
        published, delays := Reveal(aiId, reply.summary);
        if Truthy(chatId) {
          savedTo := Some(chatId.value);
        }
      }
    }

    /**
     * The reveal loop of `handleSendMessage`: for each non-blank line of the answer, extend the text by the
     * line and a line break and give it to the message with id `aiId`. Returns the texts published, in order,
     * and the pause taken after each.
     */
    method Reveal(aiId: string, summary: string) returns (published: seq<string>, delays: seq<int>)
      modifies this`messages
      ensures published == Snapshots(AnswerLines(summary))
      ensures delays == Delays(AnswerLines(summary))
      ensures messages == if published == [] then old(messages) else SetText(old(messages), aiId, RevealText(summary))
    {
      published, delays := [], [];
      var lines := Split(summary, '\n');
      var currentText := "";
      ghost var shown: seq<string> := [];
      var i := 0;
      while i < |lines|
        invariant 0 <= i <= |lines|
        invariant shown == Visible(lines[..i])
        invariant currentText == Accumulate(shown)
        invariant published == Snapshots(shown)
        invariant delays == Delays(shown)
        invariant messages == if published == [] then old(messages) else SetText(old(messages), aiId, currentText)
      {
        var line := lines[i];
        VisibleStep(lines, i);
        if IsVisible(line) {
          AccumulateAppend(shown, line);
          DelaysAppend(shown, line);
          SetTextTwice(old(messages), aiId, currentText, currentText + line + "\n");
          currentText := currentText + line + "\n";
          messages := SetText(messages, aiId, currentText);
          published := published + [currentText];
          delays := delays + [Delay(line)];
          shown := shown + [line];
        }
        i := i + 1;
      }
      assert shown == AnswerLines(summary) by {
        assert lines[..|lines|] == lines;
      }
    }
  }

  /**
   * With fresh ids, an answered question adds exactly two messages: the question, and the answer showing the
   * revealed text.
   */
  lemma AnsweredWithFreshIds(earlier: seq<Message>, user: Message, ai: Message, text: string)
    requires forall i :: 0 <= i < |earlier| ==> earlier[i].id != ai.id
    requires user.id != ai.id
    ensures SetText(earlier + [user, ai], ai.id, text) == earlier + [user, ai.(text := text)]
  {
    assert earlier + [user, ai] == (earlier + [user]) + [ai];
    assert earlier + [user, ai.(text := text)] == (earlier + [user]) + [ai.(text := text)];
    SetTextLast(earlier + [user], ai, text);
  }

  /** The route accepts every question the page sends: its text is never empty, so it never answers 400. */
  lemma SentQuestionHasText(message: string)
    requires !IsBlank(message)
    ensures Truthy(Some(message))
  {
  }
}
