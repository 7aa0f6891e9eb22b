# Local command-line chatbot: chat memory and exchange loop

This project models the stateful core of a local command-line chatbot.

- `ChatMemory` is a sliding window of the last `max_turns` user/bot exchanges. It is backed by a deque of at most `2 * max_turns` role/content records.
- The loop of `run_chatbot` reads a line and trims it. It skips blank lines. It handles the commands `/exit`, `/help`, `/clear` and `/history`, matched case-insensitively. Any other line is a user message: it is stored, the stored records are shown to the text generator, and then either the reply is stored or, when generation fails, the pending user record is rolled back.

The model has three modules:

- `Text` (text.dfy) stands in for the Python string built-ins used: `str.strip()` with Python's whitespace set, ASCII `str.lower()`, `"\n".join` and, as its inverse, `str.split("\n")`.
- `Memory` (chat_memory.dfy) holds the record type, the deque append with eviction as a function on sequences, the history rendering, and the class `ChatMemory`. The class keeps the deque as a `seq` field that its methods reassign.
- `Cli` (cli_interface.dfy) holds the classification of input lines and one loop iteration, both as a specification function (`Transition`) and as a method over a `ChatMemory` (`Step`). It also holds the whole loop over a finite script of lines (`RunSession`) and the invariant that the memory is always a well-formed conversation. A well-formed conversation has non-empty contents, alternates between the speakers, and ends with the bot.

The text generator (chat template, tokenizer, sampling, decoding) is a parameter: a function from the records it is shown to `Success(decoded)` or `Failure`. In a session, the generator used for line `i` is `engine(i)`, so any reply or failure the real generator might produce, on any line, is covered. The generator is taken only to read the records it is shown (see "## Left out").

A failed exchange does not always restore the memory exactly. The code pops the pending user record (cli_interface.py:124-126), but when the window was full, appending that record had already evicted the oldest one. The memory then ends up as the old window without its oldest record. `Cli.FailedExchange` states this, and `Cli.EvictionThenRollbackExample` shows it on a window of one exchange.

## Model

| member | source | states |
|---|---|---|
| Text.Strip | chat_memory.py:33 | the trimmed text has no whitespace at either end, is empty exactly when the input is all whitespace, and is no longer than the input |
| Text.StripSurroundings | chat_memory.py:33 | trimming removes whitespace only, and only at the two ends: the input is the result with whitespace before and after it |
| Text.StripUnique | cli_interface.py:41 | any text made of whitespace, then a core with no whitespace at either end, then whitespace, trims to exactly that core |
| Text.StripIdempotent | cli_interface.py:41 | trimming text that is already trimmed leaves it unchanged |
| Text.ToLower | chat_memory.py:31 | lower-casing keeps the length and lower-cases each character on its own |
| Text.SplitJoin | chat_memory.py:53 | splitting the newline-join of newline-free lines on newlines gives back exactly those lines |
| Memory.NormalizeRoleIsBot | chat_memory.py:31 | a role label maps to the assistant if and only if it is "bot" in some letter case; every other label maps to the user |
| Memory.NormalizeRoleExamples | chat_memory.py:31 | "bot", "BOT" and "Bot" map to the assistant; "assistant", "user", "" and "bots" map to the user |
| Memory.WindowAppend | chat_memory.py:20 | appending to a deque of maximum length `capacity` gives one more record below capacity and exactly `capacity` records otherwise; the result is the newest records of the old window followed by the new one |
| Memory.WindowAppendEvicts | chat_memory.py:33 | appending to a full window drops exactly the oldest record and keeps the others in order; below capacity nothing is dropped; the new record is last |
| Memory.HistoryPresence | chat_memory.py:45-46 | there is no history exactly when there are no records, and a history is never the empty text |
| Memory.HistoryRoundTrip | chat_memory.py:49-53 | when no content holds a newline, the history splits back into exactly one display line per record, in record order |
| Memory.HistoryExample | chat_memory.py:49-53 | one exchange "hi"/"yo" renders as the two lines "User: hi" and "Bot: yo" |
| Memory.ChatMemory.constructor | chat_memory.py:14-20 | a new memory is empty, keeps `max_turns`, and has capacity `2 * max_turns` |
| Memory.ChatMemory.AddMessage | chat_memory.py:22-33 | the record stored is the normalised role with the trimmed content, appended with eviction of the oldest record when full; the memory stays within capacity |
| Memory.ChatMemory.GetHistory | chat_memory.py:41-53 | the loop builds exactly the rendered history: None exactly for an empty memory, otherwise a non-empty text |
| Memory.ChatMemory.Clear | chat_memory.py:55-57 | the memory becomes empty and stays within capacity; the window size is a constant and is kept |
| Cli.CommandNamesDistinct | cli_interface.py:48-58 | the four commands are typed differently, so at most one of them matches a line |
| Cli.Classify | cli_interface.py:41-66 | a line is blank exactly when it is all whitespace; a command when its trimmed, lower-cased form is that command's name; otherwise a message carrying the trimmed, non-empty text that matches no command |
| Cli.BlankInputIgnored | cli_interface.py:41-44 | a line that is empty after trimming leaves the memory unchanged and is skipped |
| Cli.CommandEffects | cli_interface.py:46-66 | /clear empties the memory and the other commands leave it unchanged; /history shows the rendered history, /exit ends the loop, and /help shows the help; each holds in both directions |
| Cli.CommandCaseExample | cli_interface.py:41-55 | "  /CLEAR " is the /clear command and empties the memory |
| Cli.BotReply | cli_interface.py:109-115 | the reply is the trimmed decoded text, or the fallback "I'm not sure what to say." when that is empty, so it is never empty and never padded |
| Cli.RollBack | cli_interface.py:124-126 | the rollback removes the last record if and only if it is a user record; otherwise nothing changes, and what remains is a prefix of the window |
| Cli.StoredAs | cli_interface.py:71 | storing already-trimmed text under the label "user" or "bot" records it unchanged, under the user or the assistant |
| Cli.SuccessfulExchange | cli_interface.py:71-120 | a successful exchange leaves the newest records of the old memory followed by a user record with the message and a bot record with the non-empty reply; the memory ends with the bot record, and with both records when it has room for two |
| Cli.FailedExchange | cli_interface.py:122-127 | a failed exchange adds no record; the memory is the newest records of the old one: all of it below capacity, all but the oldest record when the window was full |
| Cli.EvictionThenRollbackExample | cli_interface.py:71-126 | with one exchange kept, a failed exchange for "c" after "a"/"b" leaves only the bot record "b": rollback does not restore the evicted "a" |
| Cli.Converse | cli_interface.py:69-127 | storing the message, showing the generator the message list and then storing the reply or rolling back yields exactly the outcome and memory of one exchange; the generator is shown exactly the stored records, in order, including the new user record |
| Cli.Step | cli_interface.py:40-127 | one loop iteration run on a memory yields exactly the outcome and memory that the specification of a classified line gives |
| Cli.ConversationAlternates | cli_interface.py:71-120 | a well-formed conversation alternates between user and bot, and its last record is the bot's |
| Cli.ConversationSuffix | chat_memory.py:20 | the newest records of a well-formed conversation, as eviction leaves them, form a well-formed conversation |
| Cli.ConversationExtend | cli_interface.py:71-120 | a well-formed conversation followed by a user record and a bot record, both non-empty, is a well-formed conversation |
| Cli.ExchangeKeepsConversation | cli_interface.py:69-127 | an exchange, whether generation succeeds or fails, keeps the memory a well-formed conversation |
| Cli.TransitionKeepsConversation | cli_interface.py:40-127 | every loop iteration keeps the memory a well-formed conversation |
| Cli.ClassifyAll | cli_interface.py:41 | the script's lines are read one by one, each as Classify reads it, and every message read carries trimmed, non-empty text |
| Cli.SessionStep | cli_interface.py:40-50 | a session is the first line's outcome followed, unless that was /exit, by the session from the next line |
| Cli.SessionContinues | cli_interface.py:40-127 | after a line that is not /exit, the loop's outcomes so far plus the session from the next line make up the whole session |
| Cli.SessionKeepsConversation | cli_interface.py:40-127 | a whole session, from a well-formed conversation, ends with a well-formed conversation |
| Cli.RunSession | cli_interface.py:36-127 | the loop over a script, from an empty memory, yields exactly the session's outcomes and final memory; the memory stays within `2 * max_turns` records and a well-formed conversation; every line up to the first /exit is handled, and none after it |

## Left out

- model_loader.py is not part of this model: it loads the model and tokenizer from an external library and picks the device.
- The chat template, tokenisation, sampling and decoding (cli_interface.py:78-112) are external library calls. They are replaced by the generator parameter, which yields the decoded text or a failure.
- Any exception raised inside the `try` block counts as a generation failure. The model cannot see which statement raised it, so a failure is taken to happen after the user record is stored and before the reply is stored, which is where the generator runs.
- Console input and output, the banner text (cli_interface.py:15-26) and the printed messages are not modelled. Each line's effect is an `Outcome` value instead: what is printed on /history, the reply shown, or the error.
- `sys.exit(0)` on /exit is modelled as ending the loop with the outcome `Exited`.
- The endless `while True` loop reading from the console is modelled over a finite script of lines. It stops at the first /exit or when the script runs out.
- Text.ToLower: lower-cases the ASCII letters only; Python's `str.lower()` also lower-cases other Unicode letters. The program only compares lower-cased text with "bot" and the four command names, and no non-ASCII character lower-cases to a text that could spell one of them, so ASCII lower-casing gives the same result as Python for every comparison the program makes.
- Text.Strip: the whitespace set is Python's `str.isspace()` set, written out by code point; no Unicode database is consulted.
- A negative `max_turns` makes the deque constructor raise an error. The model takes `max_turns` as a natural number, so that error path is not modelled. `max_turns` = 0 is modelled: every append is dropped.
- `list(self.buffer)` (chat_memory.py:39) is a shallow copy: the list is new, but its records are the memory's own dicts. The loop only passes it to `apply_chat_template` (cli_interface.py:78), which is taken to only read it. The model's records are values, so it assumes that the generator never changes a stored record through that list.
- Python's integers in `max_turns * 2` do not overflow, and neither do Dafny's.
