# Terminal chat client, modelled in Dafny

This project models the terminal chat client of a small conversational-bot
application. It covers two pieces of logic:

* **The session loop** of `TerminalChatClient` (`chat_app/terminal_client.py`).
  It shows a banner and trains the bot. If training fails it stops at once.
  Otherwise it reads lines until the session terminates. A line is stripped
  of surrounding whitespace first. A blank line is ignored. `quit`, `exit` and
  `bye`, in any letter case, say goodbye and stop. `history` shows the last ten
  exchanges. `clear` redraws the screen. Any other line goes to the bot; a reply
  is shown and stored as a (user, bot) pair in the in-memory transcript
  `chat_history`, and an error is shown and the turn is skipped. End of input
  or Ctrl-C says goodbye and stops.
* **The display string** of the stored `ChatHistory` record (`chat_app/models.py`):
  `"User: " + u[:50] + "... | Bot: " + b[:50] + "..."`.

Files and modules:

* `strings.dfy`, module `Strings`: ASCII models of `str.strip()`, `str.lower()`
  and `s[:n]`, with their properties.
* `models.dfy`, module `Models`: the `ChatHistory` record and `ToString`.
* `responder.dfy`, module `Responder`: the bot manager as a class with an
  `isTrained` flag. The conversational engine is an oracle, the constant
  `engine: (nat, string) -> Reply`: `engine(n, t)` is what the engine does on its
  n-th query `t`. It either answers, fails with a message, or is interrupted by
  Ctrl-C. Whether training succeeds is the constant `trainingSucceeds`.
* `session.dfy`, module `Session`: the loop as a pure state machine.
  `Classify` gives the meaning of a line, `Turn` the effect of one event, and
  `Next`/`Play` fold a sequence of events. Lemmas state the properties of the
  session.
* `terminal_client.dfy`, module `TerminalClient`: the client class. It has
  the fields `chatHistory`, `phase` and `display` (everything shown, as
  abstract `Output` events). `Step` is one pass of the `while True` loop.
  `Run` is the loop; it is proved to end in the state `Session.Play` gives.

Terminal input is a parameter: a sequence of `Event`s (`Line(s)`,
`EndOfInput`, `Interrupt`). If the events run out while the session is
running, the session is left `Running`, as the program would still be waiting
for a line. Terminal output is the `display` sequence of abstract events
(`Banner`, `Farewell`, `NoHistory`, `HistoryShown(entries)`, `BotReply`,
`TurnError`, ...), not printed text.

Two details of the code shape the model:

* A line is stripped before it is matched, so a line of only whitespace is
  ignored and `"  Quit "` quits.
* The interrupt handler covers the whole loop body, including the call to the
  bot. The error handler around that call catches only `Exception`, which a
  keyboard interrupt is not. So Ctrl-C while the bot is working also ends the
  session with the farewell, and nothing is recorded for that turn. This is
  the `Interrupted` reply.

## Model

| member | source | states |
|---|---|---|
| Strings.TrimStartSpec | chat_app/terminal_client.py:54 | the leading-trim removes a whitespace prefix and leaves a result that is empty or starts with a non-space |
| Strings.TrimEndSpec | chat_app/terminal_client.py:54 | the trailing-trim removes a whitespace suffix and leaves a result that is empty or ends with a non-space |
| Strings.StripSpec | chat_app/terminal_client.py:54-56 | a stripped line has no whitespace at either end, and it is empty exactly when the raw line is all whitespace |
| Strings.StripOf | chat_app/terminal_client.py:54 | stripping lead + word + trail with whitespace lead/trail and trimmed word yields exactly the word |
| Strings.StripIdempotent | chat_app/terminal_client.py:54 | stripping twice is the same as stripping once |
| Strings.StripLower | chat_app/terminal_client.py:54-60 | lower-casing and stripping commute |
| Strings.Strip | chat_app/terminal_client.py:54 | `strip()`: defined by its body (leading, then trailing whitespace removed); its properties are in StripSpec, StripOf, StripIdempotent and StripLower |
| Strings.Lower | chat_app/terminal_client.py:60 | `lower()`: same length, each character lowered by LowerChar; commutes with Strip (StripLower) |
| Strings.LowerChar | chat_app/terminal_client.py:60 | ASCII upper-case letters map to their lower-case letter (code + 32); every other character, whitespace included, is unchanged |
| Strings.Prefix | chat_app/models.py:14 | `s[:n]` has length min(n, len(s)) and is a prefix of s |
| Models.ChatHistory.ToString | chat_app/models.py:13-14 | the string is "User: ", the first min(50, len(u)) characters of u, the 11-character separator (three dots, space, vertical bar, space, "Bot: "), the first min(50, len(b)) characters of b, then "..."; its length is 20 plus the two shown lengths |
| Models.ToStringLength | chat_app/models.py:14 | the display string has at most 120 characters, exactly 20 + min(50,len(u)) + min(50,len(b)) |
| Models.EllipsisWithoutTruncation | chat_app/models.py:14 | "..." follows each part even when nothing was cut: a user message under 50 characters appears whole right after "User: " and is followed by "...", and a bot message under 50 characters appears whole followed by the final "..." |
| Models.ToStringIgnoresTail | chat_app/models.py:14 | for messages of at least 50 characters, anything appended after them leaves the display string unchanged |
| Models.ToStringInjectiveShort | chat_app/models.py:14 | two records with messages of at most 50 characters and equal user-message lengths have the same display string only if they are equal |
| Responder.BotManager.constructor | chat_app/bot_manager.py:6-17 | a new bot manager is untrained and has sent no query to the engine |
| Responder.BotManager.TrainBot | chat_app/bot_manager.py:19-21 | training happens once: afterwards the bot is trained iff it was already trained or training succeeds, and a failure is reported with the training error |
| Responder.BotManager.GetResponse | chat_app/bot_manager.py:58-64 | an untrained bot trains first; a training failure is a failed reply and reaches no engine; otherwise the reply is the engine's outcome for this query and the query is logged |
| Session.Classify | chat_app/terminal_client.py:54-69 | the dispatch on the stripped, lower-cased line; defined by its body; its properties are in ClassifySpec, ClassifyPadded and ClassifyIgnoresCase |
| Session.Last | chat_app/terminal_client.py:31 | `h[-n:]`: min(n, len(h)) elements, the final ones of h |
| Session.Numbered | chat_app/terminal_client.py:31 | `enumerate(w, 1)`: defined by its body; its properties are in HistoryWindow |
| Session.HistoryView | chat_app/terminal_client.py:24-34 | what `show_history` shows: "no history" exactly for an empty transcript, else the numbered last-ten window (HistoryWindow, HistoryCommand) |
| Session.Turn | chat_app/terminal_client.py:53-88 | one pass of the loop; defined by its body; its properties are in TranscriptChange, StopsExactlyOnTerminator, ResponderOnlyForChat, BlankLineIgnored, QuitInAnyCase, HistoryCommand and ClearKeepsTranscript |
| Session.Next | chat_app/terminal_client.py:52-88 | one loop pass on the whole session state; defined by its body; its properties are in ChatStep and PlayExtends |
| Session.Play | chat_app/terminal_client.py:52-88 | the `while True` loop over the events; defined by its body; its properties are in PlayAppend, PlayExtends, StopsAtTerminator, RecoversAfterFailure, AnsweredChats and HistoryAfterManyTurns |
| Session.ClassifySpec | chat_app/terminal_client.py:54-69 | a line is blank iff all whitespace; quit iff its stripped lower-cased form is quit, exit or bye; history and clear likewise; otherwise chat, whose text is the stripped line, non-empty and trimmed |
| Session.Asked | chat_app/terminal_client.py:73 | an event sends at most one input to the responder, and sends one iff it is a chat line, namely the stripped line |
| Session.ClassifyPadded | chat_app/terminal_client.py:54-66 | surrounding whitespace never changes how a word is classified |
| Session.ClassifyIgnoresCase | chat_app/terminal_client.py:60-66 | two lines equal up to letter case are the same command, or both chat |
| Session.BlankLineIgnored | chat_app/terminal_client.py:54-57 | a line of whitespace keeps the session running, shows nothing, leaves the transcript and asks nothing |
| Session.QuitInAnyCase | chat_app/terminal_client.py:60-62 | quit/exit/bye in any case with any padding is a terminator: farewell, transcript unchanged, responder not asked |
| Session.HistoryCommand | chat_app/terminal_client.py:26-28 | `history` keeps running and the transcript, asks nothing, and shows exactly HistoryView of the transcript, which is "no history" exactly when the transcript is empty |
| Session.HistoryWindow | chat_app/terminal_client.py:31-34 | the history view has min(10, len(h)) entries; entry i is numbered i+1 and is h[len(h) - count + i], so the order is oldest first and most recent last |
| Session.WindowSlides | chat_app/terminal_client.py:31 | appending an exchange adds it at the end of the window, and drops the window's oldest entry once the window is full |
| Session.ClearKeepsTranscript | chat_app/terminal_client.py:66-69 | `clear` keeps running, redraws (screen cleared, then banner), leaves the transcript and asks nothing |
| Session.TranscriptChange | chat_app/terminal_client.py:72-81 | a turn changes the transcript iff it is a chat line that gets an answer, and then appends exactly (stripped line, answer) |
| Session.StopsExactlyOnTerminator | chat_app/terminal_client.py:83-88 | a turn stops the loop iff it is end of input, an interrupt, a quit word or a chat turn interrupted during the reply; such a turn shows the farewell and leaves the transcript |
| Session.ResponderOnlyForChat | chat_app/terminal_client.py:56-73 | for every event that asks nothing, the turn is the same whatever the responder would answer |
| Session.ChatStep | chat_app/terminal_client.py:72-81 | a chat line logs one query (the stripped line), keeps running unless interrupted, and appends (line, reply) only when answered |
| Session.PlayAppend | chat_app/terminal_client.py:52-88 | running a + b is running a, then b from where a left off |
| Session.PlayExtends | chat_app/terminal_client.py:52-88 | a run only extends the transcript, query log and display; it reads every event unless it terminates; a terminated session stays unchanged; each new transcript entry used one query |
| Session.StopsAtTerminator | chat_app/terminal_client.py:60-62 | after a terminating event the session is TERMINATED with the farewell, the transcript is as before that event, and later events are never read |
| Session.RecoversAfterFailure | chat_app/terminal_client.py:79-81 | a failed reply skips only its turn: the next answered chat line is appended directly after the earlier entries and the session keeps running |
| Session.AnsweredChats | chat_app/terminal_client.py:72-77 | a run of answered chat lines keeps the old transcript as a prefix and appends one (stripped line, answer) pair per line, in order |
| Session.HistoryAfterManyTurns | chat_app/terminal_client.py:31-34 | after ten or more answered chat lines, `history` shows exactly the last ten of them, numbered 1 to 10, most recent last |
| TerminalClient.TerminalChatClient.constructor | chat_app/terminal_client.py:6-8 | a new client has an empty transcript |
| TerminalClient.TerminalChatClient.PrintHeader | chat_app/terminal_client.py:14-22 | the banner is shown and nothing else changes |
| TerminalClient.TerminalChatClient.RecentEntries | chat_app/terminal_client.py:31 | the loop builds exactly the numbered last-ten window of the transcript |
| TerminalClient.TerminalChatClient.ShowHistory | chat_app/terminal_client.py:24-34 | shows "no history" for an empty transcript, else the numbered window, and changes nothing else |
| TerminalClient.TerminalChatClient.SaveToHistory | chat_app/terminal_client.py:36-38 | the transcript becomes the old transcript plus the one new pair |
| TerminalClient.TerminalChatClient.Step | chat_app/terminal_client.py:53-88 | one pass of the loop does what `Session.Turn` says: same continue/stop, transcript and display; the bot stays trained and logs exactly the queries `Session.Asked` gives |
| TerminalClient.TerminalChatClient.Run | chat_app/terminal_client.py:40-88 | if training fails, the session is TERMINATED with the error shown, no event read and transcript and queries unchanged; otherwise the final state is `Session.Play` of the events from the trained state |
| TerminalClient.SessionWithFailedTraining | chat_app/terminal_client.py:45-50 | a fresh session whose training fails reads no input and ends with an empty transcript |
| TerminalClient.TrainedSession | chat_app/terminal_client.py:40-88 | a fresh trained session ends in `Session.Play`'s state; it stops early only by terminating, and it has no more transcript entries than queries |

## Left out

- Terminal I/O: the `input("user: ")` prompt, the exact banner and message text, emoji, and the leading newline of the farewell after end of input or Ctrl-C. Output is a sequence of abstract events.
- `clear_screen` runs an operating-system command. It is the `ScreenCleared` output event.
- The conversational engine, its corpora and its configuration are outside the code. They are the `engine` oracle and the `trainingSucceeds` constant. The bot manager's own progress messages during training are not modelled.
- The client builds its own bot manager in the source. Here the bot manager is passed to the constructor, so the oracle can be chosen.
- Strings.IsSpace: Python strips all Unicode whitespace, including `\x1c`-`\x1f`, `\x85` and the Unicode spaces. The model strips the six ASCII whitespace characters only.
- Strings.LowerChar: Python lower-cases every cased Unicode character. The model lower-cases `A`-`Z` only.
- Ctrl-C during training, and during the printing between the loop's steps, is not modelled. It is modelled while reading a line (`Interrupt`) and while the bot is working (`Interrupted`).
- The `timestamp` field, the ORM fields and `Meta.ordering` of `ChatHistory` belong to the database schema. `ToString` does not use them.
- `chat_app/chat_service.py` (writing and reading rows through the ORM), `run_chat.py` (environment setup) and the management command are not part of this model.
