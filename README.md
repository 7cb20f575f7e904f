# Legal-assistant chat: a verified model of the client and the answer route

This project models the logic of a browser chat in which a user asks legal questions and gets answers from a
generative-language provider. The answers are in Danish. It models five parts:

- **The chat page** (`ChatApp`, class `AppState`):
  - Sending a question ignores blank input, announces a new chat's title after its first question (at most 50
    characters, "Ny chat" when empty) and posts the question with the history before it. The first save runs
    with the list from before the question, as the handler is written, so it creates nothing (see Findings);
    the save as intended is modelled beside it.
  - The complete answer is revealed line by line. Blank lines are skipped. Each shown line is appended with a
    line break to the text of the answer message, found by id. Each line has a pause of 80 ms plus three per
    character, capped at 280 ms.
  - Also modelled: starting a new chat, loading a saved chat (duplicate message ids removed, first kept) and
    saving a new chat.
- **The sidebar** (`ChatSidebar`, class `SidebarState`):
  - The optimistic insert of a just-created chat.
  - The merge of the server's list with still-pending chats. Server chats come first; the first chat of each
    id is kept.
  - Delete by id.
  - Title truncation to 30 characters plus "...", and the "Uden titel" fallback.
- **The answer route** (`SummarizeRoute`): request validation (400 without text, 500 without an API key), the
  prompt builder, extraction of the first candidate's first part, and the mapping of a provider 503 to 503
  and of every other failure to 500.
- **Message rendering** (`ChatMessage`):
  - A line whose trimmed form starts and ends with `**` is a heading, shown with its inner text and a colon.
  - On every other line, each `**x**` on one line becomes `<strong>x</strong>`. This follows the global lazy
    expression `/\*\*(.*?)\*\*/g`.
- **The input box** (`ChatInput`, class `InputState`): submit sends the trimmed draft only when it is non-blank
  and no answer is pending, then clears the box. Enter without Shift submits.

Three helper modules hold the JavaScript semantics these parts rely on:

- `Wrappers`: optional values, and truthiness of an optional string.
- `Strings`: `trim` with ECMAScript's white-space set, `split` on one character, `substring(0, n)`.
- `Lists`: `filter`, `findIndex`, and the "keep the first element of each id" idiom.

Network calls are not modelled. The outcome of each request is an input of the operation that makes it:

- the created chat's id;
- the answer route's reply;
- the server's chat list;
- the provider's result.

What a component would send is an output. Clock times and random ids are parameters.

The prompt uses the labels the code writes: "Bruger:", "AI:", "Spørgsmål:", "Nuværende spørgsmål:" and "Svar:".

## Model

| member | source | states |
|---|---|---|
| `Strings.Trim` | src/components/ChatMessage.tsx:18 | `trim()` leaves a piece with no white space at either end, never longer than the input, and leaves a string already without white space at its ends unchanged (with `TrimSlice`, exactly the input less its white-space ends) |
| `Strings.TrimSlice` | src/components/ChatInput.tsx:17 | `trim()` gives a contiguous slice of the input, with only white space before it and after it |
| `Strings.TrimWithin` | src/components/ChatMessage.tsx:18 | every character of the trimmed string is a character of the original |
| `Strings.BlankIffWhitespace` | src/components/ChatApp.tsx:74 | `!s.trim()` holds exactly when every character of `s` is white space |
| `Strings.TrimIdempotent` | src/components/ChatInput.tsx:17 | trimming a trimmed string changes nothing |
| `Strings.Take` | src/components/ChatApp.tsx:91 | `substring(0, n)` is the prefix of length min(n, length) |
| `Strings.Split` | src/components/ChatApp.tsx:135 | `split('\n')` gives at least one piece and no piece holds the separator |
| `Strings.JoinSplit` | src/components/ChatMessage.tsx:17 | joining the pieces of a split with the separator gives back the string |
| `Strings.SplitJoin` | src/components/ChatMessage.tsx:17 | splitting a join of separator-free pieces gives back the pieces |
| `Strings.SplitCount` | src/components/ChatMessage.tsx:17 | a split has one piece more than the string has separators |
| `Lists.Filter` | src/components/chat/ChatSidebar.tsx:45 | `filter` keeps every occurrence of each element passing the test and nothing else, in order |
| `Lists.FilterIdempotent` | src/components/chat/ChatSidebar.tsx:45 | filtering twice with the same test is filtering once |
| `Lists.FindIndex` | src/components/ChatApp.tsx:219 | `findIndex` is the first position with the key, or -1 exactly when no element has it |
| `Lists.UniqueBy` | src/components/ChatApp.tsx:218-220 | the dedup leaves distinct keys, every key of the input, each as its first element with that key, in the order of first occurrence |
| `Lists.UniqueByDistinct` | src/components/ChatApp.tsx:218-220 | a list whose keys are already distinct is left unchanged |
| `Lists.UniqueByIdempotent` | src/components/ChatApp.tsx:218-220 | deduplicating twice is deduplicating once |
| `SummarizeRoute.TurnLine` | src/app/api/summarize/route.ts:31 | a history line is "Bruger: " for the user's turns and "AI: " otherwise, then the turn's text, then a line break |
| `SummarizeRoute.Transcript` | src/app/api/summarize/route.ts:30-32 | the history part of the prompt: the turns' lines, oldest first |
| `SummarizeRoute.Prompt` | src/app/api/summarize/route.ts:25-35 | the prompt: the instruction, then the history section and the current question when the history is non-empty, otherwise the plain question, then the answer cue |
| `SummarizeRoute.BuildPrompt` | src/app/api/summarize/route.ts:25-36 | the prompt built turn by turn equals the prompt definition for every history |
| `SummarizeRoute.PromptFraming` | src/app/api/summarize/route.ts:25-35 | every prompt starts with the fixed instruction and ends with "Svar:" |
| `SummarizeRoute.TranscriptIsJoin` | src/app/api/summarize/route.ts:30-32 | the history part is the turns' lines, one per turn in order, each ended by a line break |
| `SummarizeRoute.HistoryPromptIsJoin` | src/app/api/summarize/route.ts:28-33 | for every non-empty history, after the instruction the prompt is "Tidligere samtale:", each turn's label in order, an empty string, "Nuværende spørgsmål: " with the question, an empty string and "Svar:", joined by line breaks |
| `SummarizeRoute.PromptLinesWithHistory` | src/app/api/summarize/route.ts:28-33 | a corollary for a question and turns without line breaks of their own: splitting what follows the instruction on line breaks gives back exactly those lines (a turn whose text has line breaks, such as a revealed answer, spans several lines) |
| `SummarizeRoute.PromptLinesWithoutHistory` | src/app/api/summarize/route.ts:34-35 | for every question, after the instruction a prompt without (or with empty) history is "Spørgsmål: " with the question, two line breaks and "Svar:"; for a question without line breaks of its own, splitting that on line breaks gives exactly those three lines |
| `SummarizeRoute.FailureResponse` | src/app/api/summarize/route.ts:66-77 | a failure is 503 exactly when the provider answered 503, otherwise 500, each with its own message |
| `SummarizeRoute.Extract` | src/app/api/summarize/route.ts:58 | the summary is the first part of the first candidate; without one the handler fails with 500 |
| `SummarizeRoute.Post` | src/app/api/summarize/route.ts:4-79 | unparsable body gives 500, falsy text 400 and a missing key 500, all without calling the provider; otherwise the provider gets exactly the prompt and its result decides; the status is always 200, 400, 500 or 503 |
| `ChatMessage.Emphasize` | src/components/ChatMessage.tsx:36-38 | the global lazy replace of `**x**` by `<strong>x</strong>`, scanning left to right and resuming after each match; its lemmas below state what it does |
| `ChatMessage.Closing` | src/components/ChatMessage.tsx:36 | the lazy group ends at the first `**` reached without crossing a line terminator, and there is none when no `**` is reachable so |
| `ChatMessage.EmphasizeLonger` | src/components/ChatMessage.tsx:36-38 | the rewrite never shortens a line |
| `ChatMessage.EmphasizeWithoutPair` | src/components/ChatMessage.tsx:36-38 | a line with no `**…**` pair on it is rendered unchanged |
| `ChatMessage.EmphasizeWithPair` | src/components/ChatMessage.tsx:36-38 | a line with a pair gets longer |
| `ChatMessage.EmphasizeChangesIff` | src/components/ChatMessage.tsx:36-38 | the rewrite changes a line exactly when the expression has a match in it |
| `ChatMessage.EmphasizeStarFree` | src/components/ChatMessage.tsx:36-38 | text without asterisks passes through the rewrite untouched |
| `ChatMessage.EmphasizeWrapped` | src/components/ChatMessage.tsx:36-38 | `**x**` with star-free `x` on one line becomes `<strong>x</strong>` and the scan resumes after it |
| `ChatMessage.IsHeading` | src/components/ChatMessage.tsx:21 | a line is a heading when its trimmed form starts with `**` and ends with `**` |
| `ChatMessage.HeadingTitle` | src/components/ChatMessage.tsx:22 | `slice(2, -2)` drops two characters at each end, and gives "" for a trimmed line shorter than four |
| `ChatMessage.RenderLine` | src/components/ChatMessage.tsx:18-38 | a line is a heading exactly when its trimmed form starts and ends with `**`, the heading text being the trimmed line without those; otherwise it is the rewritten untrimmed line |
| `ChatMessage.Shown` | src/components/ChatMessage.tsx:29 | a heading shows its text followed by a colon |
| `ChatMessage.Render` | src/components/ChatMessage.tsx:17 | one block per line of the message, in order |
| `ChatMessage.RenderBlockCount` | src/components/ChatMessage.tsx:17 | there is one block more than there are line breaks |
| `ChatMessage.RenderBoldLine` | src/components/ChatMessage.tsx:18-22 | `**title**` without other stars is the heading `title` |
| `ChatMessage.RenderStarFreeLine` | src/components/ChatMessage.tsx:36-38 | a line without stars is a paragraph showing the line as it is |
| `ChatMessage.RenderHeadingThenLine` | src/components/ChatMessage.tsx:17-38 | a bold line followed by a plain line renders as that heading, with a colon, then that paragraph |
| `ChatMessage.RenderExample` | src/components/ChatMessage.tsx:17-38 | "**Svar**\nDette er et svar." renders as the heading "Svar" and the paragraph "Dette er et svar." |
| `ChatInput.Submission` | src/components/ChatInput.tsx:16-17 | something is sent exactly when the draft is not blank and nothing is loading; what is sent is the trimmed draft, so non-empty, with no white space at its ends and no longer than the draft |
| `ChatInput.SubmissionTrimmed` | src/components/ChatInput.tsx:17 | what is sent is already trimmed, so the page's own blank guard lets it through |
| `ChatInput.BlankNeverSent` | src/components/ChatInput.tsx:16 | a draft of only white space is never sent |
| `ChatInput.SubmitsOnKey` | src/components/ChatInput.tsx:23 | the key test: Enter without Shift |
| `ChatInput.OnlyPlainEnterSubmits` | src/components/ChatInput.tsx:22-27 | only Enter without Shift submits; Shift+Enter never does |
| `ChatInput.InputState.constructor` | src/components/ChatInput.tsx:11 | the box starts empty |
| `ChatInput.InputState.Change` | src/components/ChatInput.tsx:43 | the box holds exactly what was typed |
| `ChatInput.InputState.Submit` | src/components/ChatInput.tsx:14-20 | the submission is sent, and the box is cleared exactly when something was sent |
| `ChatInput.InputState.KeyPress` | src/components/ChatInput.tsx:22-27 | Enter without Shift is intercepted and submits; any other key sends nothing and leaves the box |
| `ChatInput.SubmitTwice` | src/components/ChatInput.tsx:14-20 | a second submit right after a send sends nothing |
| `ChatSidebar.WithOptimistic` | src/components/chat/ChatSidebar.tsx:34-49 | with id and title both set, the new chat goes first, pending, and the rest is exactly the old list with that id deleted; otherwise the list is unchanged |
| `ChatSidebar.OptimisticKeepsIdsDistinct` | src/components/chat/ChatSidebar.tsx:43-47 | the insert keeps ids distinct, so the new id occurs once |
| `ChatSidebar.OptimisticIdempotent` | src/components/chat/ChatSidebar.tsx:34-49 | running the insert effect twice gives the list of running it once |
| `ChatSidebar.Deleted` | src/components/chat/ChatSidebar.tsx:87 | deleting removes every chat with the id and keeps every occurrence of every other chat, in order |
| `ChatSidebar.DeleteUndoesInsert` | src/components/chat/ChatSidebar.tsx:87 | deleting an optimistically inserted chat leaves what deleting it from the old list leaves |
| `ChatSidebar.MarkLoaded` | src/components/chat/ChatSidebar.tsx:59-62 | each server chat, in order, keeps its id, title and dates and is marked not pending |
| `ChatSidebar.Merge` | src/components/chat/ChatSidebar.tsx:57-70 | the merged list has distinct ids |
| `ChatSidebar.MergeHasServerChats` | src/components/chat/ChatSidebar.tsx:57-70 | every id the server listed is on the merged list |
| `ChatSidebar.MergeKeepsPending` | src/components/chat/ChatSidebar.tsx:57-70 | every chat pending before the load keeps its id on the list |
| `ChatSidebar.MergeSource` | src/components/chat/ChatSidebar.tsx:57-70 | every merged chat is a confirmed server chat or a chat that was pending; non-pending client chats are dropped |
| `ChatSidebar.MergeServerWins` | src/components/chat/ChatSidebar.tsx:57-70 | on an id the server knows, the merged chat is the server's first chat with it, confirmed |
| `ChatSidebar.MergeServerFirst` | src/components/chat/ChatSidebar.tsx:65-68 | no chat the server knows is listed after one only the client knows |
| `ChatSidebar.TruncateTitle` | src/components/chat/ChatSidebar.tsx:102-104 | a title over 30 characters becomes its first 30 and "..." (33 in all); a shorter one is unchanged |
| `ChatSidebar.TruncateTitleIdempotent` | src/components/chat/ChatSidebar.tsx:102-104 | a shown title has at most 33 characters and truncating it again changes nothing |
| `ChatSidebar.DisplayTitle` | src/components/chat/ChatSidebar.tsx:143 | an empty title shows as "Uden titel" and any other title as its truncation; a shown title is never empty and at most 33 characters |
| `ChatSidebar.SidebarState.constructor` | src/components/chat/ChatSidebar.tsx:24-25 | the list starts empty and loading, with no id listed twice |
| `ChatSidebar.SidebarState.AddOptimistic` | src/components/chat/ChatSidebar.tsx:34-49 | the list becomes the optimistic insert of the old list, and ids stay distinct |
| `ChatSidebar.SidebarState.LoadChats` | src/components/chat/ChatSidebar.tsx:51-78 | a successful load replaces the list by the merge, a failed one keeps it; loading ends either way, and ids stay distinct |
| `ChatSidebar.SidebarState.DeleteChat` | src/components/chat/ChatSidebar.tsx:80-92 | the chat leaves the list only when the server confirmed the delete, and ids stay distinct |
| `ChatApp.ChatTitle` | src/components/ChatApp.tsx:91 | the title is the first min(50, length) characters of the question, "Ny chat" for an empty one, so 1 to 50 characters |
| `ChatApp.HistoryOf` | src/components/ChatApp.tsx:98-101 | one turn per earlier message, in order, with its text and author |
| `ChatApp.HistoryAppend` | src/components/ChatApp.tsx:98-101 | the history of a longer conversation extends the shorter one's by the new message |
| `ChatApp.Delay` | src/components/ChatApp.tsx:159-161 | every pause lies between 80 and 280 ms |
| `ChatApp.DelayMonotone` | src/components/ChatApp.tsx:159-161 | a longer line never gets a shorter pause |
| `ChatApp.Delays` | src/components/ChatApp.tsx:158-163 | one pause per shown line, each computed from its line |
| `ChatApp.SetText` | src/components/ChatApp.tsx:142-147 | the messages with the id get the text; every message keeps its place and every other message is unchanged |
| `ChatApp.SetTextTwice` | src/components/ChatApp.tsx:142-147 | only the last text set on an id matters |
| `ChatApp.SetTextLast` | src/components/ChatApp.tsx:142-147 | when only the last message has the id, only that message changes |
| `ChatApp.AnsweredWithFreshIds` | src/components/ChatApp.tsx:132-147 | with fresh ids, an answered question adds exactly the question and the answer showing the revealed text |
| `ChatApp.AnswerLines` | src/components/ChatApp.tsx:135-140 | the lines the reveal shows: the answer's lines split on line breaks, blank ones left out |
| `ChatApp.Accumulate` | src/components/ChatApp.tsx:141 | the text after revealing some lines: each line followed by a line break |
| `ChatApp.RevealText` | src/components/ChatApp.tsx:135-141 | the answer message's final text: all shown lines accumulated |
| `ChatApp.Snapshots` | src/components/ChatApp.tsx:138-148 | the texts published, one after each shown line |
| `ChatApp.VisibleStep` | src/components/ChatApp.tsx:138-141 | one more line adds itself to the shown lines exactly when it is not blank |
| `ChatApp.BlankLineIgnored` | src/components/ChatApp.tsx:140 | a blank line changes neither the lines shown nor the text |
| `ChatApp.AccumulateIsJoin` | src/components/ChatApp.tsx:141 | the revealed text is the shown lines joined by line breaks, with one more at the end |
| `ChatApp.AnswerLinesUnbroken` | src/components/ChatApp.tsx:135 | no shown line holds a line break |
| `ChatApp.RevealRoundTrip` | src/components/ChatApp.tsx:135-141 | splitting the revealed text on line breaks gives back the answer's non-blank lines and an empty piece after the last break |
| `ChatApp.RevealUnbroken` | src/components/ChatApp.tsx:135-141 | an answer without blank lines is revealed exactly, plus a final line break |
| `ChatApp.RevealBlank` | src/components/ChatApp.tsx:135-141 | an answer of blank lines reveals nothing |
| `ChatApp.SnapshotsGrow` | src/components/ChatApp.tsx:138-148 | one update per shown line; each published text is a prefix of every later one, and the last is the full text |
| `ChatApp.SnapshotAt` | src/components/ChatApp.tsx:138-148 | the i-th published text is the text after the first i+1 shown lines |
| `ChatApp.AccumulatePrefix` | src/components/ChatApp.tsx:141 | the text after the first k lines begins the text after all of them |
| `ChatApp.CreateTitle` | src/components/ChatApp.tsx:230-238 | `saveChat` creates a chat exactly when its list is non-empty and no chat is open, titled after the list's first message |
| `ChatApp.StaleFirstSave` | src/components/ChatApp.tsx:89-94 | on a new page, sending a first question through the handler as written posts no title and opens no chat, whatever id the server would give, and the sidebar stays empty |
| `ChatApp.FirstSaveAnnouncesChat` | src/components/ChatApp.tsx:89-94 | with the intended save, a new page's first question creates the chat under the question's title, opens it, saves to it, and the sidebar shows exactly that chat, pending |
| `ChatApp.SentQuestionHasText` | src/app/api/summarize/route.ts:8-13 | a question the page sends is never answered 400, since its text is never empty |
| `ChatApp.AppState.constructor` | src/components/ChatApp.tsx:20-26 | an empty chat, nothing loading and no chat open, created or announced |
| `ChatApp.AppState.NewChat` | src/components/ChatApp.tsx:195-200 | the list is emptied and no chat is open, created or announced |
| `ChatApp.AppState.LoadChat` | src/components/ChatApp.tsx:202-228 | a loaded chat replaces the list, deduplicated by id keeping first occurrences, and becomes the open chat; a failure changes nothing |
| `ChatApp.AppState.SaveChat` | src/components/ChatApp.tsx:230-263 | for the list the closure reads: an empty list posts nothing; otherwise a chat is created when none is open, the created id becomes the open and announced chat, and the messages are saved to the open chat if there is one |
| `ChatApp.AppState.SendMessage` | src/components/ChatApp.tsx:73-188 | a blank question changes nothing. Otherwise the question is added and the request carries the history before it. The first save posts nothing and leaves both chat ids. A failure adds the apology. A successful reply without a summary adds the empty answer message and then the apology. An answer adds the answer message, which ends up showing the revealed text. Loading ends. |
| `ChatApp.AppState.Ask` | src/components/ChatApp.tsx:86-101 | the question is appended, loading starts and the request carries the question and the earlier history; a first question announces the title, but its save reads the empty list, posts nothing and leaves both chat ids |
| `ChatApp.AppState.AskIntended` | src/components/ChatApp.tsx:86-101 | as `Ask`, but a first question's save reads the list holding it: it creates the chat under the question's title when none is open, opens and announces the created chat and saves to the open chat |
| `ChatApp.AppState.Answer` | src/components/ChatApp.tsx:116-184 | a failure appends the apology; a successful reply without a summary appends the empty answer message and then the apology, saving nothing; an answer appends the empty answer message, reveals into it and saves to the chat open at send time |
| `ChatApp.AppState.Reveal` | src/components/ChatApp.tsx:135-165 | publishes exactly the snapshots of the non-blank lines, with their pauses, and leaves the answer message showing the full revealed text; nothing changes for an all-blank answer |

## Left out

- Network, storage and timers are abstracted. These are the fetch and axios calls, the provider endpoint, the
  database, `setTimeout` pauses and the 50 ms scroll. Request outcomes are inputs; pauses are returned as values.
- String lengths count Unicode scalar values, not UTF-16 code units. `ChatApp.ChatTitle`,
  `ChatSidebar.TruncateTitle` and `ChatApp.Delay` therefore differ from the browser on text outside the Basic
  Multilingual Plane.
- ChatApp.AppState.SendMessage: the body `saveMessagesToChat` posts is not modelled, only the chat it is posted
  to. The source posts the message list captured by the render, which does not hold the new messages.
- ChatApp.AppState.Answer: the chat the messages are saved to after the reveal is the chat open when the
  question was sent, as the source's closure reads it. Even a chat created by the intended first save
  (`AppState.AskIntended`) would not be saved to here.
- The intended first save is modelled as `AppState.AskIntended` and exercised by `FirstSaveAnnouncesChat`;
  `AppState.SendMessage` keeps the handler as written.
- The route receives an already parsed body. Values of other JSON types (a number as `text`, a history that is
  not an array) are not modelled. Neither is a candidate part whose `text` is missing, in which case the route
  answers 200 with no summary; the page's handling of such a reply is modelled (`Reply.Unsummarized`).
- ChatApp.AppState.LoadChat: a stored message whose fields are missing is not modelled. Neither is the
  `createdAt` date formatting; timestamps are given already formatted.
- Random ids and clock times are parameters. All messages of one send share one formatted time.
- Dark mode, scrolling, textarea resizing, the animation delay (a float), date formatting in the sidebar and all
  markup are left out. They are UI side effects.
- The session-triggered sidebar load, authentication (`AuthGuard`), the profile sidebar, and the chats and
  registration routes are left out. The chats and registration routes delegate to the database client and to
  bcrypt.
- `React` batching and ordering of state updates are not modelled. Each handler's updates are applied in
  program order to the object's fields.

## Findings

| source | as written | input that shows it | evidently intended | confidence | as-written member | corrected member |
|---|---|---|---|---|---|---|
| src/components/ChatApp.tsx:90-94, 230-231 | `handleSendMessage` calls `saveChat` for the first question, but `saveChat` reads the `messages` of the render that sent it. That list is empty, so `saveChat` returns at once. No chat is created, `newChatId` stays unset, and the sidebar's optimistic insert (which needs id and title) never runs. `AppState.Ask` and `AppState.SendMessage` model this. | a first question "Hvad er lejeret?" in a new chat | the new chat is created under the question's title, becomes the open chat, and shows first in the sidebar, as `AppState.AskIntended` does | not executed | `ChatApp.StaleFirstSave` | `ChatApp.FirstSaveAnnouncesChat` |
