# AH runtime: verified model

AH is an agent harness: chat channels and schedules feed tasks, a main loop advances them frame by
frame, language models and tools work for them, and answers go back to the channels. This project
models the parts of it whose correctness depends on more than one function, and proves what they
promise. Objects that the program updates in place are classes here, loops are loops, protocols
between threads are step systems over all interleavings, and pure code is functions.

`dafny verify dfyconfig.toml` checks everything.

| file | what it models |
|---|---|
| `WakeProtocol` | producers and main loop: payload, flag, one-slot bell, swap, drain, block |
| `RuntimeDeadlines` | the deadline index kept in two maps |
| `ConversationOrder`, `ChannelClosing`, `FrontendInput` | numbering of inputs, per-channel order with command barriers, and the barrier of a closing task tree |
| `Conversation`, `RuntimeConversation`, `RequestLoop` | the tool-call protocol, the history kept at run time, the budget cut before a request, and the requests and responses around it |
| `ShortTermMemory`, `SummaryDelivery` | grouping and compression of the displayed history, and the way of a summary from its request to the memory it is delivered to |
| `TaskInbox`, `AutoWakeBudget` | the bounded, coalescing inbox and the limit on automatic wakes |
| `TelegramMarkdown`, `MarkdownOutput`, `TelegramHtml`, `FenceCursor` | the Markdown compiler, what it writes for each construct, the HTML it writes, the plain-text fallback, and its cursor behind code fences |
| `TelegramSplit`, `MarkdownChunks` | splitting of outgoing text and HTML |
| `QqMarkdown` | the converter back to Markdown |
| `Attachments`, `ImageBinding`, `BoundMessages`, `ImageCompleteness` | markers in text, the late binding of images to messages, and which mentions become images |
| `OutboundManager`, `StatusRecall` | delivery with receipts across shutdown, and rolling recall of status messages |
| `CatchUp`, `ClientSchedules` | missed runs, and transactional edits of schedules |
| `ToolNames`, `PromptTemplate`, `Watchdog` | name mapping, template filling, and the signals of the watchdog |
| `Base`, `Utf8`, `Markup` | shared definitions |

## Conventions

- Times are integers, ids are opaque, and the tokenizer, the cron search, the digest, the image
  loader and the file system are parameters: a statement about them holds for every choice.
- Strings are sequences of Unicode scalar values where the program works on characters, with byte
  lengths from `Utf8` (section 3 of RFC 3629); `TelegramSplit` works on bytes, because the code
  under it does.
- A step system has one step for each atomic action of the program: one queue operation, one lock,
  one atomic access. Lock attempts succeed.
- The widths of the counters that can matter are modelled: saturating 32-bit totals of the protocol
  history, wrapping ones of the displayed history, and the 64-bit input counter.

## Where the code does not do what it is for

Each of these is stated with the exact condition, or with a concrete run and the condition under
which the property does hold.

- The compiler places its cursor behind a code fence by adding bytes to characters
  (`src/channels/telegram.rs:1003`): right exactly for ASCII blocks; otherwise text behind the block
  is dropped (`FenceCursor`).
- The HTML splitter slices at the end of its window before it looks for a boundary
  (`src/channels/telegram.rs:1381`, `src/channels/telegram.rs:1392`): it aborts exactly when a window at
  one of its cuts, a condition on the text alone, ends inside a character; ASCII never does, and
  every long enough text of three-byte characters does (`TelegramSplit`).
- A summary is delivered to the first task with a memory, whichever task asked for it
  (`src/systems/summarization.rs:117-136`; its comment takes there to be one memory only, but every
  task gets one). What it removes is what was summarised exactly when the asking task is that first
  one, no other answer took entries from it, and no new group was opened in between; with two tasks
  one loses entries that were never summarised, without any edit. The command that asks for a
  summary renders all entries and leaves the old summary out, so what it renders is what its answer
  removes only when a new group was opened right behind, and the old summary is lost
  (`SummaryDelivery`).
- The limit on automatic wakes can be exceeded when the clock goes back. It holds as long as no call
  is granted less than one window away from a grant the queue has given up; exactly, when no call is
  granted into a window that earlier grants fill, one of them given up (`AutoWakeBudget`).
- The decision about a missed one-time schedule does not look at its last run, so it is not quiet
  after recording (`CatchUp`).
- A status message is recalled twice exactly when an event finds it remembered in the middle of its
  confirmation callback, which then finds its mark. A status is forgotten for good exactly when the
  removal of its key was meant for an earlier message. A status that nobody asks to recall is
  recalled exactly when a mark was left over at its enqueueing and nothing else takes it
  (`StatusRecall`).
- A schedule edit whose save fails can leave an owner on record: a creation that could not be
  written locks its id against all other users (`ClientSchedules`).
- Deleting a schedule removes every definition with its id, so it is isolated exactly when no other
  user's definition carries that id (`ClientSchedules`).
- Tool names with an underscore before an underscore or a colon do not come back (`ToolNames`).

## Model

| member | source | states |
|---|---|---|
| `WakeProtocol.StepKeepsInv` | src/contracts/wake.rs:45-57 | every atomic step of any producer or of the main loop keeps: a pending payload is announced by a flag, a taken reason or a producer about to set one; a set flag is backed by a full bell or someone about to ring it; nothing sent is lost or reordered |
| `WakeProtocol.NoLostWakeup` | src/app/run_loop.rs:60-161 | over every run: when the loop is blocked on an empty bell and no producer is inside a send, no flag is set and every payload, input and action ever sent has been handed over, in order |
| `WakeProtocol.HandoverIsFifo` | src/app/run_loop.rs:68-79 | at every moment what was handed over is a prefix of what was sent, for payloads, inputs and actions |
| `WakeProtocol.ConsumerAloneDelivers` | src/app/run_loop.rs:60-161 | from any state of the invariant, the loop's own steps deliver within the distance of its program point |
| `WakeProtocol.SixStepsDeliver` | src/app/run_loop.rs:60-161 | once producers rest, any six steps of the loop hand over every payload |
| `WakeProtocol.PendingPayloadKeepsLoopAwake` | src/app/run_loop.rs:112-161 | a pending payload always leaves the loop a step other than a timeout |
| `WakeProtocol.UpdateRunsIff` | src/app/run_loop.rs:60-79 | the loop updates exactly when it starts, was woken for work, has a deadline or poll that is due, or holds input or actions; a due deadline alone is enough, and the update hands over everything pending |
| `RuntimeDeadlines.HasFirst` | src/contracts/wake.rs:154-156 | a non-empty ordered index has exactly one least entry to pop |
| `RuntimeDeadlines.DueListUnique` | src/contracts/wake.rs:157-166 | the list of due keys in time order is determined by the key-to-time map |
| `RuntimeDeadlines.PoppedAllDue` | src/contracts/wake.rs:157-166 | popping the earliest entry until it is not due lists exactly the due keys in order and leaves exactly the later ones |
| `RuntimeDeadlines.Deadlines.constructor` | src/contracts/wake.rs:135-142 | the index starts empty and both maps agree |
| `RuntimeDeadlines.Deadlines.Set` | src/contracts/wake.rs:144-148 | setting replaces the key's time in the plain map and leaves no stale entry in the time index |
| `RuntimeDeadlines.Deadlines.Remove` | src/contracts/wake.rs:149-153 | removing deletes the key from both maps and nothing else |
| `RuntimeDeadlines.Deadlines.Next` | src/contracts/wake.rs:154-156 | the answer is the minimum time of the plain map, or none when it is empty |
| `RuntimeDeadlines.Deadlines.TakeDue` | src/contracts/wake.rs:157-166 | every due key exactly once in order of time and key; precisely the later keys remain |
| `ConversationOrder.MarkGroup` | src/systems/conversation.rs:127-144 | the barrier loop blocks exactly the inputs behind a command, commands that are not first, and ordinary inputs of a closing channel |
| `ConversationOrder.AdmittedIsTheUnblockedPrefix` | src/systems/conversation.rs:127-144 | the unblocked inputs of a channel are a prefix in sequence order |
| `ConversationOrder.SortSorts` | src/systems/conversation.rs:120-120 | sorting orders a channel's inputs by sequence number and keeps them all |
| `ConversationOrder.OrderInputs` | src/systems/conversation.rs:119-145 | after a frame exactly those inputs carry the block mark that must wait, independent of the order in which channels are visited |
| `ConversationOrder.WaitingMatchesPosition` | src/systems/conversation.rs:127-144 | waiting described without the loop (an earlier command, an earlier input before a command, a closing channel) is the loop's decision |
| `ConversationOrder.FrameTakesPrefix` | src/systems/conversation.rs:119-145 | handling exactly the inputs without a block mark, ordered by number, takes a prefix of each channel's queue and leaves the rest, whatever other channels do |
| `ConversationOrder.RunIsFifo` | src/systems/routing.rs:91-92 | over any run of frames on all channels, with arrivals numbered by one counter: on each channel what was handled, in that order, followed by what waits, are all its inputs by increasing numbers, so numbers handled strictly increase and nothing is lost, repeated or overtaken |
| `ConversationOrder.CommandsTravelAlone` | src/systems/conversation.rs:131-143 | in every frame of a run a command is the only input of its channel that is handled |
| `ConversationOrder.OpenFrameTakesOneRound` | src/systems/conversation.rs:131-143 | a frame in which the channel is open reduces the number of rounds left by one |
| `ConversationOrder.OpenFramesDrain` | src/systems/conversation.rs:119-145 | in a run, a channel that stays open and gets nothing new is empty exactly when the frames are at least its rounds, at most one for each input, whatever other channels do |
| `ChannelClosing.ExtendPath` | src/systems/conversation.rs:29-36 | a child of a member of the tree is in the tree |
| `ChannelClosing.ClosedContainsTree` | src/systems/conversation.rs:26-40 | a set closed under children contains everything reachable from the root |
| `ChannelClosing.GrowTree` | src/systems/conversation.rs:26-40 | the growing loop ends for any task list, cycles included, with exactly the descendants of the root at any depth |
| `ChannelClosing.TreeIsBusy` | src/systems/conversation.rs:41-52 | a tree is busy exactly when a member is not terminal, is pending, or owns a live session or a failed lookup |
| `ChannelClosing.ChannelIsClosing` | src/systems/conversation.rs:16-57 | true exactly when some terminal user root of the channel has a busy descendant or is busy itself |
| `Conversation.OpenIsUnanswered` | src/domain/memory.rs:776-785 | in an acceptable history the open calls are exactly those of the last assistant message without a tool message behind it |
| `Conversation.TailShape` | src/domain/memory.rs:791-814 | behind the last assistant message of a valid history come first tool messages, one for each call, then only user messages |
| `Conversation.OpenAfterUserStaysEmpty` | src/domain/memory.rs:816-829 | behind a user message of an acceptable history no call is open |
| `RuntimeConversation.MissingIsOpen` | src/domain/memory.rs:802-809 | the ids that closing fills in are exactly the open calls, each once |
| `RuntimeConversation.ClosedIsValid` | src/domain/memory.rs:791-814 | closing an acceptable history makes it protocol-valid |
| `RuntimeConversation.ClosingIsIdempotent` | src/domain/memory.rs:791-814 | closing twice adds nothing, whatever the history looks like |
| `RuntimeConversation.StepKeepsInv` | src/domain/memory.rs:742-846 | remembering, recording, user messages and invalidation keep the history acceptable and the token count equal to the recount |
| `RuntimeConversation.ResponseIsStored` | src/domain/memory.rs:742-769 | a response that is neither failed nor stale leaves the conversation it carries, or its prompt when it carries none, followed by one message with exactly its text, calls and reasoning; any other changes nothing |
| `RuntimeConversation.ResultIsStored` | src/domain/memory.rs:786-789 | the result of an open call is appended with its own id and content |
| `RuntimeConversation.UserMessageIsStored` | src/domain/memory.rs:816-829 | a user message is stored at the end with its own content; in front of it everything that was stored and one interruption for each open call, only those |
| `RuntimeConversation.RunKeepsInv` | src/domain/memory.rs:742-846 | the same over every run |
| `RuntimeConversation.RestoredHistoryIsValid` | src/domain/memory.rs:831-835 | over every run of well-formed responses, results in any order, duplicate, unknown or late, and user messages, the restored history is protocol-valid and extends what is stored |
| `RuntimeConversation.TokensAreTheRecount` | src/domain/memory.rs:837-839 | the incrementally kept total always equals the saturating recount of the stored messages |
| `RuntimeConversation.ResultsCountOnce` | src/domain/memory.rs:771-789 | a result for a call that is not open, or a second result, changes nothing |
| `RuntimeConversation.UserClosesTheTurn` | src/domain/memory.rs:816-829 | after a user message a late result of the interrupted turn changes nothing |
| `RuntimeConversation.CompressedUntilFresh` | src/domain/memory.rs:746-748 | after compression the history is empty with total zero, and stays so through any responses that carry an old conversation, until a fresh one arrives |
| `RuntimeConversation.AddTokens` | src/domain/memory.rs:823-827 | adding the tokens of the appended messages one by one gives the recount of the whole history |
| `RuntimeConversation.LastAssistant` | src/domain/memory.rs:776-781 | the last assistant message is found, or there is none |
| `RuntimeConversation.IsAnswered` | src/domain/memory.rs:784-785 | whether a tool message behind the anchor carries the id |
| `RuntimeConversation.ClosePending` | src/domain/memory.rs:791-814 | the loop over missing ids appends exactly one interruption for each open call |
| `RuntimeConversation.History.constructor` | src/domain/memory.rs:734-739 | a history starts empty |
| `RuntimeConversation.History.RememberResponse` | src/domain/memory.rs:742-769 | the carried conversation or the prompt, then exactly the answer; nothing for failed and stale responses; the whole new state is the specified step |
| `RuntimeConversation.History.RecordToolResult` | src/domain/memory.rs:771-789 | the whole new state is the specified step |
| `RuntimeConversation.History.PushUserMessage` | src/domain/memory.rs:816-829 | the whole new state is the specified step, tokens included |
| `RuntimeConversation.History.Restore` | src/domain/memory.rs:831-835 | restoring returns the closed history and changes nothing |
| `RuntimeConversation.History.Forget` | src/domain/memory.rs:841-845 | invalidation empties the history and the total |
| `RuntimeConversation.GroupCutIsValid` | src/systems/dispatch/dispatch_system.rs:47-58 | cutting a valid history behind a whole group leaves a valid history |
| `RuntimeConversation.DropGroup` | src/systems/dispatch/dispatch_system.rs:48-57 | one round drops one message, or a calling message with all its results, and accounts for its cost |
| `RuntimeConversation.TruncateByBudget` | src/systems/dispatch/dispatch_system.rs:40-60 | what remains is a suffix that fits the budget or is empty, is still protocol-valid, and no shorter cut at a group border would do |
| `RequestLoop.TurnKeepsInv` | src/systems/tools/tool_calling.rs:481-508 | dispatch, late responses, tool-loop follow-ups, appended context and shortened tool results keep every request and the history protocol-valid |
| `RequestLoop.RepliesClose` | src/systems/tools/tool_calling.rs:646-676 | one reply for each open call, in any order, closes the turn |
| `RequestLoop.RespondKeepsTheRequest` | src/systems/transform/llm_response.rs:177-182 | behind a response that is neither failed nor stale the whole conversation of its request is a proper prefix of the history, with one message for the answer behind it |
| `RequestLoop.FollowUpCarriesAll` | src/systems/tools/tool_calling.rs:481-508 | a follow-up carries the conversation of its request, or system prompt and prompt, then the calls, then every reply with its own content in order |
| `RequestLoop.EveryRequestIsValid` | src/systems/transform/llm_response.rs:177-182 | over every run in which a response carries the conversation of an earlier request, however late, and calls of one turn have distinct ids: every request ever made is protocol-valid, so is the restored history, and the token total is the recount |
| `RequestLoop.Dispatch` | src/systems/dispatch/dispatch_system.rs:229-236 | after any such run, what is sent is the run's next request, protocol-valid and within the budget |
| `ShortTermMemory.SplitIntoGroups` | src/domain/memory.rs:470-496 | the groups are an in-order partition of all indices, and a group begins exactly where a user entry or an assistant entry with tool calls stands |
| `ShortTermMemory.CompressibleGroupIndices` | src/domain/memory.rs:507-513 | all groups but the last, none when there are fewer than two |
| `ShortTermMemory.BuildCompressText` | src/domain/memory.rs:520-545 | the text is the heading and one line for each entry before the last group, each once, in order |
| `ShortTermMemory.SuffixIsOneGroup` | src/domain/memory.rs:720-729 | what remains after draining is one group again, so draining again removes nothing |
| `ShortTermMemory.Memory.constructor` | src/domain/memory.rs:601-617 | an empty memory has a correct total |
| `ShortTermMemory.Memory.AddEntry` | src/domain/memory.rs:659-688 | the entry is appended and the total grows by exactly its tokens |
| `ShortTermMemory.Memory.RecordToolCall` | src/domain/memory.rs:621-657 | the call is put on the last assistant entry, or on a new one, and the total grows by exactly its tokens |
| `ShortTermMemory.Memory.RecalculateTokens` | src/domain/memory.rs:691-713 | the total is the count over summary and entries |
| `ShortTermMemory.Memory.DrainCompressibleGroups` | src/domain/memory.rs:720-729 | exactly the entries before the last group are removed, the protocol history is invalidated exactly when some were, and the total is recomputed |
| `ShortTermMemory.EditMovesBoundary` | src/systems/memory.rs:50-61 | how an edit of the entries moves the border of what may be compressed |
| `ShortTermMemory.SummarisedIsDrainedIffNoGroupOpened` | src/domain/memory.rs:720-729 | of one memory: the entries before the last group stay a prefix of what a later drain removes, and are the same exactly when no edit in between opened a group |
| `SummaryDelivery.DeliverSummary` | src/systems/summarization.rs:114-139 | the loop over all tasks gives the summary to the first memory in iteration order, whichever task asked; from that memory it removes all but the last group, and it leaves every other task alone |
| `SummaryDelivery.RunKeepsInv` | src/systems/summarization.rs:114-139 | over any edits, answers and comings and goings of tasks, no entry is in two memories or twice in one |
| `SummaryDelivery.AnswerTakesTheFirstEntry` | src/systems/summarization.rs:114-139 | once some answer has taken entries from a memory, its first entry is in no memory any more |
| `SummaryDelivery.SummarisedIsRemovedIff` | src/systems/memory.rs:50-69 | over any run between a request and its answer, with all tasks: the entries removed are the entries that were rendered exactly when the memory of the asking task is the first one then, no other answer took entries from it, and no edit opened a group; and then their contents are the rendered ones |
| `SummaryDelivery.AnswerHitsAnotherTask` | src/systems/summarization.rs:117-126 | when it is not the first one, or is gone, the answer removes only entries of another task that were never in the asking memory, and its summary is put in front of the other task's history |
| `SummaryDelivery.SecondTaskEmptiesTheFirst` | src/systems/summarization.rs:117-126 | two tasks and no edit at all: the second one's answer removes the first one's entry that was never summarised, and keeps its own |
| `SummaryDelivery.CommandRequest` | src/systems/command.rs:136-144 | the command asks for a summary exactly when there is an entry |
| `SummaryDelivery.BoundaryAfterEdits` | src/domain/memory.rs:470-513 | after edits the last group begins at a given later index exactly when the last edit that opens a group opens it there |
| `SummaryDelivery.CommandTextIsRemovedIff` | src/systems/command.rs:136-157 | the command renders all entries: its answer removes exactly these when the asking memory is the first one, no other answer took entries from it, and the last group opened in between begins right behind them; never without an edit |
| `SummaryDelivery.OldSummaryIsLost` | src/systems/summarization.rs:119-121 | what an answer leaves does not depend on the summary that was there, which the text of the command does not carry either |
| `AutoWakeBudget.AutoWake.TryRecordWake` | src/domain/loop_control.rs:431-448 | pruning the kept times, refusing or recording are the specified step |
| `AutoWakeBudget.PruneRepresents` | src/domain/loop_control.rs:431-448 | dropping old times keeps what the limiter needs to know of the full history |
| `AutoWakeBudget.CallRefinesHistory` | src/domain/loop_control.rs:431-448 | with a clock that does not go back, a wake is granted exactly when fewer than the limit of all earlier grants lie in the last window |
| `AutoWakeBudget.RunRefinesHistory` | src/domain/loop_control.rs:431-448 | the same over every run: the pruned limiter grants what one with full history grants |
| `AutoWakeBudget.GrantKeepsLimit` | src/domain/loop_control.rs:422-448 | one more grant keeps every half-open window within the limit |
| `AutoWakeBudget.SpecRunIsLimited` | src/domain/loop_control.rs:422-448 | the limiter with full history keeps every window within the limit |
| `AutoWakeBudget.EveryWindowIsLimited` | src/domain/loop_control.rs:422-448 | over every run every half-open interval of the window's length holds at most the configured number of wakes |
| `AutoWakeBudget.ApartIsEnough` | src/domain/loop_control.rs:431-448 | whatever the clock does, every window holds at most the limit as long as no call is granted less than one window away from a grant the queue has given up |
| `AutoWakeBudget.EveryWindowIsLimitedIff` | src/domain/loop_control.rs:431-448 | and it holds at most the limit exactly when no call is granted into a window that earlier grants fill, one of them already given up by the queue |
| `AutoWakeBudget.BackwardsClockBreaksTheLimit` | src/domain/loop_control.rs:431-448 | with a clock that goes back the limit is exceeded: a concrete run |
| `TaskInbox.BoundedMonitorText` | src/domain/loop_control.rs:144-154 | a text within the limit is returned as it is; otherwise the longest prefix on a character boundary that leaves room for the mark |
| `TaskInbox.BoundedFits` | src/domain/loop_control.rs:144-154 | the bounded text has at most the given bytes, down to the size of the mark |
| `TaskInbox.Inbox.constructor` | src/domain/loop_control.rs:160-163 | an inbox starts empty |
| `TaskInbox.Inbox.Push` | src/domain/loop_control.rs:174-241 | merging, eviction, truncation and appending are the specified new list; other items are appended as they are, and a notice brings its own text |
| `TaskInbox.Inbox.DrainAll` | src/domain/loop_control.rs:244-246 | everything is handed out once and nothing stays |
| `TaskInbox.PushBringsItsText` | src/domain/loop_control.rs:174-241 | a pushed notice is the last item with its own job, source and status; its own text stands in full behind the notes, or as the longest head of whole characters that leaves room for the mark; the notes say exactly whether something was merged or evicted; with neither, and within the limit, it is stored as it came |
| `TaskInbox.PushKeepsInv` | src/domain/loop_control.rs:174-241 | after every push at most 32 monitoring notices, one for each job, each of at most 2048 bytes; all other items stay as they were, in order |
| `TaskInbox.PushKeepsFirstDeadline` | src/domain/loop_control.rs:263-265 | the first deadline becomes exactly the minimum of the old one and the new arrival, through merges and evictions |
| `TaskInbox.FailureIsCarriedOver` | src/domain/loop_control.rs:200-212 | from a failed notice on, over any pushes without eviction of its job: it stays until its job is pushed again, then the job's summary begins with its reason in a line of its own, and from the next push for the job on with that line cut to its limit, for good |
| `TaskInbox.MergeKeepsFailureLine` | src/domain/loop_control.rs:200-204 | a line at the head that tells of a failure, however long, is kept by a merge of the same job, cut to its limit |
| `TaskInbox.FailureSurvivesPush` | src/domain/loop_control.rs:174-241 | such a line stays at the head of its job's summary through any push that does not evict it, cut when the push is for the job |
| `TaskInbox.InboxStaysBounded` | src/domain/loop_control.rs:174-241 | the bounds hold over any pushes |
| `TaskInbox.OthersAreKept` | src/domain/loop_control.rs:174-241 | over any pushes the other items are exactly the old ones followed by the new ones |
| `TaskInbox.FirstDeadlineIsEarliest` | src/domain/loop_control.rs:263-265 | over any pushes the first deadline is the earliest arrival of all |
| `TaskInbox.FailureSurvivesRun` | src/domain/loop_control.rs:174-241 | over any pushes without eviction of the job the line stays, cut from the first push for the job on |
| `Utf8.FloorIndexIsFloor` | src/domain/loop_control.rs:149-152 | stepping back to a boundary finds the largest prefix within the limit |
| `Utf8.FloorIndexUnique` | src/domain/loop_control.rs:149-152 | and no other prefix is that |
| `Utf8.FloorSlice` | src/domain/loop_control.rs:149-153 | the stepping loop computes it |
| `TelegramMarkdown.MarkdownToTelegramHtml` | src/channels/telegram.rs:978-1109 | the cursor loop, recursive on emphasis, ends on every input and writes exactly the rendering of the parsed document |
| `MarkdownOutput.WholeIsWritten` | src/channels/telegram.rs:978-1109 | printing any document of letters, code blocks with language, inline code, bold and italic with either mark, strike-through, links and headings, nested, as Markdown and compiling it gives its HTML with literal tags, for every content that Markdown can say there |
| `MarkdownOutput.DocumentIsWritten` | src/channels/telegram.rs:978-1109 | the same for a document that stands anywhere in a text, whatever stands in front of it and behind it |
| `MarkdownOutput.DocumentInFront` | src/channels/telegram.rs:978-1109 | in front of any text: the HTML of the document, then what is written for the text behind it |
| `MarkdownOutput.LinkInFront` | src/channels/telegram.rs:1062-1081 | a link, spelled out: the address in the attribute, the text between the tags, for every text without closing bracket and address without closing parenthesis, in front of anything |
| `MarkdownOutput.DocIsRead` | src/channels/telegram.rs:978-1109 | where a construct stands that fits, the compiler reads exactly it and places its cursor right behind it |
| `TelegramHtml.RenderWrites` | src/channels/telegram.rs:978-1109 | rendering a parsed construct writes out its token list |
| `TelegramHtml.WrittenIsBalanced` | src/channels/telegram.rs:978-1109 | a written token list that is balanced reads back as well-nested HTML |
| `TelegramHtml.OutputIsWellNested` | src/channels/telegram.rs:978-1109 | for every text the output nests only b, i, s, code, pre and a correctly, and every other angle bracket is escaped |
| `TelegramHtml.StripTags` | src/channels/telegram.rs:1188-1200 | the flag loop removes what lies between angle brackets |
| `TelegramHtml.DecodeHtmlEntities` | src/channels/telegram.rs:1202-1239 | the nested loops decode the known entities and copy everything else |
| `TelegramHtml.DecodeUndoesEscape` | src/channels/telegram.rs:972-976 | decoding undoes escaping, for every string |
| `TelegramHtml.StripWritten` | src/channels/telegram.rs:1188-1200 | stripping the tags of a written document leaves its text |
| `TelegramHtml.FallbackIsThePlainText` | src/channels/telegram.rs:1300-1309 | compile, strip, decode is the plain text of the parsed document, for every input |
| `FenceCursor.FenceCursorIsRightIffAscii` | src/channels/telegram.rs:1003-1003 | the cursor behind a fence is right exactly when the block is ASCII, and otherwise too far |
| `FenceCursor.AsciiParsesAsIntended` | src/channels/telegram.rs:978-1109 | on ASCII input the compiler parses the intended grammar |
| `FenceCursor.TextBehindFenceIsSkipped` | src/channels/telegram.rs:1003-1003 | behind a block without backquotes exactly as many characters are skipped as the block has bytes beyond its characters, none exactly when it is ASCII |
| `FenceCursor.ShortTailIsLost` | src/channels/telegram.rs:1003-1003 | a tail not longer than that surplus disappears |
| `TelegramSplit.SplitText` | src/channels/telegram.rs:1241-1254 | on any valid text with a limit of at least four bytes: ends, parts are not empty, within the limit, start a character, and put together are the text |
| `TelegramSplit.NarrowLimitGetsStuck` | src/channels/telegram.rs:1241-1254 | with a smaller limit the cursor stays where it is exactly when a character is wider than the limit |
| `TelegramSplit.IsOutsideTag` | src/channels/telegram.rs:1403-1413 | true exactly when the last angle bracket before the position, if any, closes a tag |
| `TelegramSplit.FindBestSplit` | src/channels/telegram.rs:1373-1388 | the last match that ends outside a tag, and its position |
| `TelegramSplit.FindSentenceSplit` | src/channels/telegram.rs:1390-1401 | the last sentence end outside a tag: none behind it qualifies |
| `TelegramSplit.FindSafeSplit` | src/channels/telegram.rs:1353-1371 | the cut lies outside a tag, or no position of the window does |
| `TelegramSplit.SplitPrefersParagraphs` | src/channels/telegram.rs:1353-1371 | a window is cut behind an empty line outside a tag when it has one, else behind its last sentence, else behind its last space, outside tags; only without any of these between other characters |
| `TelegramSplit.CutHtml` | src/channels/telegram.rs:1329-1350 | the loop: pieces put together are the text, are not empty, within the limit, and a cut lies inside a tag only when every position of its window does; or an abort, exactly when the text alone, followed from cut to cut, has a window that ends inside a character |
| `TelegramSplit.SplitHtmlSafely` | src/channels/telegram.rs:1321-1352 | the same with the short text as one piece; it aborts exactly when the text, followed from cut to cut, has a window that ends inside a character, and never on ASCII |
| `TelegramSplit.PiecesAreGood` | src/channels/telegram.rs:1321-1351 | pieces between such cuts are lossless and bounded |
| `TelegramSplit.LongThreeByteTextAborts` | src/channels/telegram.rs:1373-1381 | every text of three-byte characters beyond the platform's limit aborts, in the first window |
| `MarkdownChunks.InkOfStep` | src/channels/telegram.rs:1132-1163 | one line of the chunker adds exactly the line's characters other than white space to what the chunks hold |
| `MarkdownChunks.SplitMarkdownSemantic` | src/channels/telegram.rs:1125-1168 | the line loop computes the specified chunks |
| `MarkdownChunks.ClosedBlockIsOneChunk` | src/channels/telegram.rs:1125-1168 | a closed code block, blank lines included, is exactly one chunk |
| `MarkdownChunks.ParagraphIsOneChunk` | src/channels/telegram.rs:1154-1162 | lines up to a blank line are exactly one chunk, separate from what follows |
| `MarkdownChunks.LastParagraphIsOneChunk` | src/channels/telegram.rs:1163-1167 | and so are lines up to the end |
| `MarkdownChunks.BlankLinesAreSkipped` | src/channels/telegram.rs:1154-1162 | a blank line that stands behind nothing leaves no chunk |
| `MarkdownChunks.NoInkIsLost` | src/channels/telegram.rs:1125-1168 | the chunks hold all characters of the text except white space, in order |
| `QqMarkdown.EscapeHtml` | src/channels/frontend.rs:84-97 | the loop escapes the five characters |
| `QqMarkdown.HtmlToMarkdown` | src/channels/qq.rs:137-212 | the byte-cursor loop with its recursion ends on every input and computes the specified conversion |
| `QqMarkdown.EscapedTextConverts` | src/channels/qq.rs:137-212 | escaped text converts to itself in front of anything |
| `QqMarkdown.ConvertUndoesEscape` | src/channels/qq.rs:137-212 | converting what was escaped is the identity on every string |
| `QqMarkdown.PreBlockConverts` | src/channels/qq.rs:137-212 | a pre block around escaped text becomes a fenced block with exactly that text, ended by one newline |
| `QqMarkdown.InlineElementsConvert` | src/channels/qq.rs:156-186 | bold, strong, italic, em and code elements around escaped text become the text between two asterisks, one asterisk and one backquote, in front of anything |
| `Attachments.FindAttachmentSpans` | src/domain/attachment.rs:74-110 | the cursor loop finds the specified markers |
| `Attachments.SpansAreOrdered` | src/domain/attachment.rs:74-110 | spans come in order, do not overlap and stay within the text |
| `Attachments.OrderedMeansDisjoint` | src/domain/attachment.rs:74-110 | order means that any two spans are disjoint |
| `Attachments.SpansAreMarkers` | src/domain/attachment.rs:80-100 | every span is a marker |
| `Attachments.SpansAreComplete` | src/domain/attachment.rs:80-100 | every position that starts a marker lies inside a span |
| `Attachments.ExtractAttachments` | src/domain/attachment.rs:113-124 | text and attachments are what lies outside and inside the spans |
| `Attachments.RebuildIsOriginal` | src/domain/attachment.rs:113-124 | markers and remaining text put back together are the original, and nothing is counted twice |
| `Attachments.MarkersReadBack` | src/domain/attachment.rs:24-33 | rendering any list of attachments with readable targets and extracting gives the list back and leaves no text |
| `Attachments.RoundTripIffReadable` | src/domain/attachment.rs:24-33 | one attachment survives exactly when its target has no closing bracket and no surrounding space |
| `Attachments.ReadTargetIsReadable` | src/domain/attachment.rs:80-100 | a marker that is read has a target without closing bracket and surrounding space |
| `ImageBinding.Deduplicate` | src/llm/image.rs:48-57 | the loop keeps the first occurrence of each target |
| `ImageBinding.FirstOccurrencesAreDistinct` | src/llm/image.rs:48-57 | no target is kept twice |
| `ImageBinding.KeepsTheFirst` | src/llm/image.rs:48-57 | a candidate whose target did not occur before is kept |
| `ImageBinding.ChosenAreCandidates` | src/llm/image.rs:62-78 | what is chosen are candidates of the request, one per target |
| `ImageBinding.SelectedAreItsOwn` | src/llm/image.rs:75-82 | what is selected for a message are its own candidates, sorted by position |
| `ImageBinding.SelectedIsPlaced` | src/llm/image.rs:79-82 | in every text part the selected markers are in order and disjoint, so that no slice is taken backwards; nothing is selected for system and assistant messages |
| `BoundMessages.CutText` | src/llm/image.rs:209-219 | the cursor loop cuts one text behind its markers |
| `BoundMessages.InlineImages` | src/llm/image.rs:188-222 | the loop over parts computes the specified parts |
| `BoundMessages.InliningInterleaves` | src/llm/image.rs:188-222 | the parts of a message are its original parts, texts cut in places, with exactly the images of the selected markers in between: the text slices still concatenate to the text |
| `BoundMessages.ImageFollowsItsMarker` | src/llm/image.rs:209-216 | each image stands directly behind the slice that ends with its own marker |
| `BoundMessages.WriteMessages` | src/llm/image.rs:86-112 | the rewriting loop with its pending tool images computes the specified output |
| `BoundMessages.AttachImages` | src/llm/image.rs:42-122 | the whole step, the early return included, computes the specified output |
| `BoundMessages.MessagesKeepTheirOrder` | src/llm/image.rs:86-112 | all original messages are there, in their order |
| `BoundMessages.InsertionsAreWellPlaced` | src/llm/image.rs:89-97 | an inserted message stands directly behind a tool message and never in front of one, so no block of tool messages is split |
| `BoundMessages.MessagesStayFaithful` | src/llm/image.rs:98-104 | every kept message has its role and tool responses; only user messages change, and their parts are their own, cut in places, interleaved with exactly the images of their own selected markers |
| `BoundMessages.OutputBindsTheChosen` | src/llm/image.rs:42-122 | the images of the whole output are, as a multiset, exactly the chosen, trusted and loadable targets |
| `BoundMessages.AtMostTheLatestTrusted` | src/llm/image.rs:62-78 | at most the limit in images, each target at most once, only trusted and loadable ones, and of the first occurrences exactly the latest |
| `ImageCompleteness.PlacesAreMentions` | src/llm/image.rs:133-182 | the places at which user texts outside the explanation of the syntax and tool results mention an image, all of them and in order |
| `ImageCompleteness.AllPairs` | src/llm/image.rs:133-182 | the candidates of the binding are these places, one for one and in the same order |
| `ImageCompleteness.OutputImagesAreTheLatestMentions` | src/llm/image.rs:42-122 | a target becomes an image of the output exactly when it is registered and loads, some user text or tool result mentions it, and fewer than the limit other registered targets are mentioned for the first time behind it; and it becomes one image |
| `ImageCompleteness.ImagesStandWhereMentioned` | src/llm/image.rs:86-112 | each image stands where its target is first mentioned: in a user message directly behind the text that ends with its marker, for a tool result in the message put in behind that block of tool messages |
| `ImageCompleteness.OccurrencesCoverAll` | src/llm/image.rs:145-148 | every occurrence of the explanation of the syntax overlaps a listed one |
| `OutboundManager.StepKeepsInv` | src/channels/manager.rs:158-207 | every atomic step of callers, shutdown and supervisor keeps: accepted = finished, then held, then queued; the callback log is what the finished entries ask for; identities stay apart; a shutdown is never missed |
| `OutboundManager.RunKeepsInv` | src/channels/manager.rs:158-207 | the same over every interleaving |
| `OutboundManager.StoppedMeansAnswered` | src/channels/manager.rs:265-274 | when the supervisor has stopped, every accepted entry is finished in order with exactly its callbacks: on_result once for those that carry it, never for a rejected one |
| `OutboundManager.NeverAnsweredTwice` | src/channels/manager.rs:265-274 | at no time is an entry answered twice or a rejected one answered |
| `OutboundManager.OnSentMeansSent` | src/channels/manager.rs:265-274 | at every moment of every run on_sent of an entry has been called at most once, and exactly when the channel has been asked and has accepted it; a reported result is the outcome of that entry |
| `OutboundManager.AtMostOneLateSuccess` | src/channels/manager.rs:159-198 | at most one success is reported once closing is set |
| `OutboundManager.ReasonsAreHonest` | src/channels/manager.rs:170-197 | a failure that says before delivery or channel not found means that the channel was never asked, a success that it was, and no entry is handed over twice |
| `OutboundManager.RegisteredChannelsAreAsked` | src/channels/manager.rs:166-198 | over every run: channel not found is reported only for a channel that is not registered, only registered channels are asked, an entry for a registered channel that was not handed over was finished by a shutdown, and before a shutdown every finished entry for a registered channel was handed to it |
| `OutboundManager.SignalIsComing` | src/channels/manager.rs:259-262 | when closing is set and the loop does not yet know, the caller of the shutdown is about to send the signal, and sending it is enough |
| `OutboundManager.StepKeepsHeading` | src/channels/manager.rs:158-198 | nothing turns the loop back from its way out, not even further calls of shutdown |
| `OutboundManager.ShutdownTerminates` | src/channels/manager.rs:158-207 | after a shutdown whose signal is not still to come, over every interleaving with callers that go on enqueueing, sending and shutting down: the receiver is closed after at most six steps of the supervisor, all its steps are bounded by what was queued and what is accepted until then, and until it stops it has a step |
| `OutboundManager.DrainTerminates` | src/channels/manager.rs:199-207 | once the receiver is closed nothing is accepted, and whatever callers do the drain ends within a bound given by the queue |
| `StatusRecall.RecallsAreConfirmed` | src/channels/frontend.rs:303-374 | over every interleaving of events and callbacks only confirmed messages are recalled, and neither side recalls one twice |
| `StatusRecall.OverlapRecallsTwice` | src/channels/frontend.rs:330-361 | a reply handled in the middle of a callback makes both sides recall the same message: a concrete run |
| `StatusRecall.StepKeepsInv` | src/channels/frontend.rs:303-374 | every atomic step of either side keeps: what is remembered is confirmed, what one side has recalled is remembered no more or is about to be forgotten, and while a callback runs its key remembers its message or none |
| `StatusRecall.RecalledAtMostOnceIff` | src/channels/frontend.rs:303-374 | over every interleaving each status message is recalled at most once exactly when no reply or status finds, as remembered id, the message of a callback under way that then finds the mark of its key |
| `StatusRecall.RecalledAtMostOnce` | src/channels/frontend.rs:303-374 | however late callbacks come, as long as none overlaps with an event, each status message is recalled at most once |
| `StatusRecall.LeftIsRememberedIff` | src/channels/frontend.rs:178-191 | over every interleaving with one status under way per task and recipient: every confirmed status left standing, apart from those kept by Failed or forgotten with their task, is the remembered one that is recalled next, exactly when no removal of a key hit another message than the one recalled before it, unless the callback of that message recalls it itself |
| `StatusRecall.LeftIsRememberedIffNotForgotten` | src/channels/frontend.rs:178-191 | the same for each message: one left standing is remembered exactly when it was not removed that way |
| `StatusRecall.ForgottenIsLeft` | src/channels/frontend.rs:178-191 | and one that was removed that way stands for good |
| `StatusRecall.AtMostOneLeftStanding` | src/channels/frontend.rs:303-387 | with that pacing, and no confirmation of a key between the engine's recall and its removal of the key, at most one confirmed status of a key stands, and it is the one recalled next; events and callbacks overlap freely otherwise |
| `StatusRecall.ForgottenBetweenRecallAndRemoval` | src/channels/frontend.rs:178-191 | a confirmation between recall and removal: a concrete paced run that ends with two statuses standing |
| `StatusRecall.TwoUnderWayLeaveOneBehind` | src/channels/frontend.rs:332-338 | without that pacing two can stay: a concrete run |
| `StatusRecall.RecalledUnaskedIff` | src/channels/frontend.rs:330-361 | over every interleaving: a status for which no reply or new status asks from its enqueueing on is recalled exactly when the mark of its key was there at that moment and neither another callback nor the removal of its task takes it before its own callback looks |
| `StatusRecall.StaleMarkHitsTheNextStatus` | src/channels/frontend.rs:191-197 | a reply that finds no status leaves a mark that recalls the next status at once: a concrete run |
| `CatchUp.LatestIsGreatest` | src/domain/schedule.rs:287-291 | walking the recurrence up to now finds its greatest time in the interval |
| `CatchUp.DecisionIsComplete` | src/domain/schedule.rs:275-305 | for any recurrence: Fire carries the greatest time inside the window, Expired the first missed time exactly when none is inside, and nothing is reported exactly when nothing was missed |
| `CatchUp.QuietAfterRecordingIffCron` | src/systems/transform/trigger_task.rs:280-289 | after recording the run a second decision at the same moment reports nothing exactly for a cron schedule, or a one-time schedule that is not due |
| `CatchUp.QuietAfterRecordingMissed` | src/domain/schedule.rs:284-303 | recording only the time made up for is enough as well |
| `CatchUp.NeverMadeUpTwice` | src/domain/schedule.rs:284-303 | over any restarts with a clock that does not go back no missed time is made up for twice, and they come in order |
| `CatchUp.OnceIsASingleTime` | src/domain/schedule.rs:281-283 | a one-time schedule decides like a recurrence with one time, except on the edge of the window |
| `ClientSchedules.Scheduler.Save` | src/infrastructure/schedules/store.rs:312-339 | owners are recorded in order until a step fails; the file is the new list or the old one |
| `ClientSchedules.Scheduler.Apply` | src/systems/client_schedules.rs:63-166 | memory, file and timer change together or not at all; each error comes from its own branch; an owner on record is never replaced, but owners may be added even when the edit fails |
| `ClientSchedules.OwnersChangeIff` | src/infrastructure/schedules/store.rs:81-112 | a save changes the record of owners exactly when it gets as far as a client's definition that is not on record, whose owner can be read and written |
| `ClientSchedules.RefusedEditChangesOwnersIff` | src/systems/client_schedules.rs:159-162 | a request that is refused or fails leaves list, file and timer alone; it changes the record of owners exactly when the edit was in order and its save came that far before the failing step |
| `ClientSchedules.OwnerStaysOnRecord` | src/infrastructure/schedules/store.rs:89-94 | an owner on record stays there over any requests |
| `ClientSchedules.FailedCreationKeepsItsId` | src/infrastructure/schedules/store.rs:312-334 | a creation whose file write fails is refused, its id stays with the user, and whatever is requested in between nobody else can ever create a schedule with it |
| `ClientSchedules.FullDiskLocksTheId` | src/infrastructure/schedules/store.rs:312-334 | the input: the very first creation on a disk that is full when the file is written |
| `ClientSchedules.EditKeepsUnique` | src/systems/client_schedules.rs:78-140 | ids and names stay unique |
| `ClientSchedules.CreationHasTheInput` | src/systems/client_schedules.rs:80-98 | a creation appends one definition with the id of the request, every field of its input, the parsed schedule and the asking channel |
| `ClientSchedules.UpdateHasTheInput` | src/systems/client_schedules.rs:100-127 | an update gives one definition of the user every field of its input and leaves its id, output and history and all other definitions alone |
| `ClientSchedules.DeletionTakesTheId` | src/systems/client_schedules.rs:128-140 | a deletion takes away exactly the definitions with that id, one of which the user owns |
| `ClientSchedules.EditKeepsCapacity` | src/systems/client_schedules.rs:80-83 | the list does not grow beyond its capacity |
| `ClientSchedules.EditIsIsolatedIff` | src/systems/client_schedules.rs:78-140 | definitions of other users stay as they are: always for creating and updating, for deleting exactly when no other user's definition carries the id |
| `ClientSchedules.UniqueIdsIsolate` | src/systems/client_schedules.rs:128-140 | unique ids are enough for that |
| `ClientSchedules.EditNeedsTheSeenRevision` | src/systems/client_schedules.rs:108-114 | an update or deletion goes through only when the covered fields are still those the client has seen |
| `ClientSchedules.SecondWriterIsRefused` | src/systems/client_schedules.rs:108-114 | of two edits from one revision the second is refused exactly when the first changed something |
| `ClientSchedules.OthersCannotTouchMine` | src/systems/client_schedules.rs:169-195 | whatever all other users request, in any order and number, at any times and with any disk failures, a user's own list stays as it is, ids and names stay unique, and the file holds what memory holds |
| `ClientSchedules.SavedOwnersAreOnRecord` | src/infrastructure/schedules/store.rs:81-112 | after a successful save every definition of a client is on record with its owner |
| `ClientSchedules.DeletedIdStaysWithItsOwner` | src/infrastructure/schedules/store.rs:89-94 | the id of a deleted schedule cannot be taken over by another user |
| `ToolNames.RoundTripIffNoRun` | src/llm/genai.rs:353-360 | a tool name comes back unchanged exactly when no underscore stands before an underscore or a colon |
| `ToolNames.NamesWithoutRunsStayApart` | src/llm/genai.rs:353-355 | two such names never collide on the way out |
| `ToolNames.ApiNameRoundTripIffNoColon` | src/llm/genai.rs:358-360 | an API name survives the other direction exactly when it has no colon |
| `ToolNames.RunsCollide` | src/llm/genai.rs:353-360 | two names with and without a colon collide: a concrete pair |
| `PromptTemplate.ValidateTemplate` | src/domain/prompt_template.rs:14-36 | the loop over the shrinking rest computes the specified verdict |
| `PromptTemplate.RenderTemplate` | src/domain/prompt_template.rs:57-80 | the loop computes the specified text and reports the unclosed branch |
| `PromptTemplate.CheckAcceptsExactlyTheGrammar` | src/domain/prompt_template.rs:14-36 | the check accepts exactly the printed forms of well-formed templates |
| `PromptTemplate.FillIsExpansion` | src/domain/prompt_template.rs:57-80 | filling in a well-formed template is its expansion: substituted values are not read again |
| `PromptTemplate.AcceptedIsExpanded` | src/domain/prompt_template.rs:62-72 | an accepted template is expanded place by place and never reaches the unclosed branch |
| `Watchdog.RepeatedCallStreak` | src/domain/watchdog.rs:28-45 | the streak is the longest run of equal rounds at the end |
| `Watchdog.ConsecutiveErrorRounds` | src/domain/watchdog.rs:48-76 | the reverse loop computes the specified scan |
| `Watchdog.ScanCountsRounds` | src/domain/watchdog.rs:48-76 | the scan counts the failed rounds at the end of a conversation laid out in rounds, passing over rounds without any result |
| `Watchdog.EveryConversationHasRounds` | src/domain/watchdog.rs:48-76 | every conversation can be laid out that way |
| `Watchdog.AllOrNothingIsIntended` | src/domain/watchdog.rs:60-65 | when every round has no result or all of its results, the count is that of rounds at the end whose results are all in and all errors, passing over rounds that still wait |
| `Watchdog.LastRoundDecides` | src/domain/watchdog.rs:47-76 | when only the last round may be half answered, the count is that exactly when it is not half answered, or has a result that is no error and nothing counts before it |
| `Watchdog.ValidMeansAnswered` | src/systems/tools/tool_calling.rs:644-676 | in a protocol-valid conversation the results of every round are all in |
| `Watchdog.CallersSeeTheIntendedCount` | src/systems/tools/tool_calling.rs:435-440 | on every conversation the callers pass, a protocol-valid one or such a one with the calls of the current round behind it, the scan counts what is meant |
| `FrontendInput.Sequencer.NextSequence` | src/domain/message.rs:612-622 | numbers are handed out one by one until they are used up |
| `FrontendInput.SpawnBatch` | src/systems/frontend_input.rs:20-58 | one batch of actions in order |
| `FrontendInput.FrontendInputSystem` | src/systems/frontend_input.rs:10-59 | buffered actions first, then each frontend's, every text numbered from the shared counter; it aborts exactly when the numbers do not suffice |
| `FrontendInput.RouteNumbersInOrder` | src/systems/frontend_input.rs:20-58 | every action has its own result in order, numbers without gap |
| `FrontendInput.LaterNumbersAreGreater` | src/systems/frontend_input.rs:20-58 | later texts have strictly greater numbers |

## Left out

- FenceCursor.ShortTailIsLost: together with TextBehindFenceIsSkipped it says that nothing behind the block is rendered; the two are stated separately.
- MarkdownOutput.WholeIsWritten: documents whose emphasis contains its own mark, and single marks that stay text, are outside the printed form; what is written for those is given by `TelegramHtml` and the parse only.
- OutboundManager: the bounds count the supervisor's own steps, not time; the thirty-second timer is a step of the environment, and that a step which stays possible is taken is left to the scheduler.
- StatusRecall.AtMostOneLeftStanding: counts task status lines only; progress lists share the map under their own keys, are not removed from it when recalled (`src/channels/frontend.rs:406-418`), and are not modelled.
- ConversationOrder.OrderInputs: assumes that inputs of one frame have distinct sequence numbers, which `FrontendInput` provides; inputs without a number, ordered by entity, are not modelled.
- RuntimeConversation.RestoredHistoryIsValid: assumes that a provider gives the calls of one turn distinct ids and that responses carry valid conversations; `RequestLoop` proves the second from the requests, the first remains.
- RequestLoop.EveryRequestIsValid: the images bound to a request, the limit on rounds of the tool loop and calls answered by a synthetic result are not told apart from other replies; which tool results are shortened is left open.
- SummaryDelivery.SummarisedIsRemovedIff: failed summaries, which change no memory, the guard against a second request in flight, and the notice sent to the user are not modelled; a task that comes with a first entry is one that comes and is edited.
- ClientSchedules.EditNeedsTheSeenRevision: assumes a digest without collisions.
- ClientSchedules.SecondWriterIsRefused: assumes a digest without collisions, and a definition that both writers own.
- CatchUp.DecisionIsComplete: takes the recurrence as any set of integer times with its search for the next one; the cron parser, time zones and daylight saving are not modelled.
- BoundMessages.AttachImages: reading image files, MIME types and the size limit are a parameter that says whether a target loads; positions are characters instead of bytes, which does not change what is cut.
- QqMarkdown.HtmlToMarkdown: works on characters where the program advances a byte cursor; all its cuts are behind ASCII characters.
- ShortTermMemory.Memory.AddEntry: the other fields of a memory entry and the rendering of tool calls are parameters.
- The idempotence of extracting attachments: it does not hold, since removing a marker can form a new one.
- Decoding each chunk after splitting: it does not hold, since a last-resort cut can split an entity.
- Network, WebSocket and platform API calls, uploads, downloads, token caches and configuration files.
- Frame scheduling of the entity-component system: a frame is one step, queries are sets and sequences.
- The terminal interface, tracing, signal handling, plugin wiring and process start.
- Task and work-item status setters, permission lookup, model fallback, hook names, prompt texts and cost figures.
- Expansion of environment variables in configuration: replacements are read again, so it need not end.
