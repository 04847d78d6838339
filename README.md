# Contact-directory Telegram bot, modelled in Dafny

The bot keeps a single SQLite table of contacts, `list(id, user_id, user,
name)`. Any non-admin who writes to the bot is forwarded to the admin and
recorded once. The admin works the table through short conversations: a
command registers a "next step" handler, each step checks one message, and
the step either registers the next step with the values read so far or
ends the conversation. The commands are `/start`, `/add`, `/all`,
`/view_users`, `/delete`, `/replace_name`, `/send_message`, `/send_file` and
`/clear_db`; of these, `/add`, `/view_users`, `/delete`, `/replace_name`,
`/send_message` and `/send_file` open conversations.

The model has six modules:

- `Text` (text.dfy) covers the string handling the handlers rely on:
  - Python's `strip()` (the full `isspace` set), `isdigit()`, `int()` and `str()`;
  - the handle character set;
  - the Telegram library's command extraction.
- `ContactStore` (store.dfy) is the table.
  - `Table` is a value: the rows in rowid order plus the AUTOINCREMENT counter.
  - Every SQL statement the bot runs is a function on that value, with its contract and lemmas.
  - `ContactTable` is the shared table, updated in place by methods proved against those functions.
- `Listing` (listing.dfy) is the list comprehension that formats a select result, and what can be read back from its text.
- `Broadcast` (broadcast.dfy) is the send loop of `send_message_all` / `send_file_all`.
  - Each send's outcome comes from an oracle parameter.
  - The loop is a method proved against the per-recipient send.
- `Flows` (flows.dfy) holds the conversations.
  - Each registered handler, with its arguments, is a `Step`.
  - Each handler is a function from the message (and the table, for the steps that read it) to an `Outcome`: the next step, the replies by kind, and the effect.
  - The effect is a table statement, a send to everyone, or a send to one recipient.
- `Bot` (bot.dfy) is the library's routing and the running bot.
  - Routing: a chat's next-step handler first, then `echo_message` for any text from a non-admin, then the command handlers.
  - The `Bot` class holds the admin id, the table and the pending step.
  - `Bot.Handle` applies one message's outcome to the table and makes its sends.

The add flow inserts without a uniqueness check, so a `user_id` can appear
twice. Every rejected input ends the conversation; no step asks again.

## Model

| member | source | states |
|---|---|---|
| Text.StripStartShape | main.py:141 | `lstrip` keeps a suffix of its input that starts with a non-space, and drops only whitespace |
| Text.StripEndShape | main.py:141 | `rstrip` keeps a prefix of its input that ends with a non-space, and drops only whitespace |
| Text.StripShape | main.py:141 | `strip()` returns a contiguous piece of the input that neither starts nor ends with whitespace; everything before and after it is whitespace |
| Text.StripSurrounded | main.py:164 | `strip()` of whitespace + text + whitespace is the text, when the text has no whitespace at either end |
| Text.StripKeeps | main.py:151 | a text with no whitespace at either end is its own `strip()` |
| Text.StripIdempotent | main.py:141 | stripping twice gives the same as stripping once |
| Text.DigitChar | main.py:183 | the character written for a digit is a decimal digit whose value is that digit |
| Text.DecimalString | main.py:183 | `str(n)` is a non-empty digit string with no leading zero (except "0" itself) |
| Text.DecimalRoundTrip | main.py:147 | `int(str(n)) == n` for every non-negative n |
| Text.DecimalStringOfValue | main.py:147 | `str(int(s)) == s` for every digit string without a leading zero |
| Text.DecimalValueAtLeastLeading | main.py:147 | a digit string whose first digit is not '0' has a value of at least 1 |
| Text.CommandOf | main.py:121 | a text names a command exactly when it starts with '/'; the name is everything after the slash up to, not including, the first whitespace or '@' (or the end) |
| ContactStore.Inserted | main.py:75-79 | an INSERT appends exactly one row `(user_id, user, name)` under an id above every id issued before; the earlier rows stay, and the table stays well formed |
| ContactStore.Deleted | main.py:90 | after DELETE by id no row has that id, the counter is unchanged, and the table stays well formed |
| ContactStore.WithoutIdKeepsOthers | main.py:90 | the delete keeps exactly the rows with another id, in their order |
| ContactStore.DeletePresent | main.py:86-92 | when a row has the id, exactly that row is removed: the rows before and after it stay in order and the count drops by one |
| ContactStore.DeleteMissing | main.py:86-94 | when no row has the id, the table is unchanged |
| ContactStore.Renamed | main.py:511 | the UPDATE gives the new name to the row with that id; every other column and every other row stays as it was |
| ContactStore.CountUserId | main.py:112 | the COUNT is zero exactly when no row carries the `user_id` |
| ContactStore.Registered | main.py:110-118 | the insert-if-absent leaves the table, counter included, unchanged when a row has the `user_id`; otherwise it appends exactly `(next id, user_id, user, name)` and advances the counter by one |
| ContactStore.RegisterIdempotent | main.py:110-118 | registering the same `user_id` again, under any handle and name, changes nothing |
| ContactStore.Cleared | main.py:529 | `DELETE FROM list` removes every row and keeps the AUTOINCREMENT counter |
| ContactStore.WhereExactly | main.py:216 | a filtered select returns exactly the rows whose column equals the value (never for NULL), in table order |
| ContactStore.WhereAppend | main.py:232 | filtering distributes over concatenation, so the result keeps the table's order |
| ContactStore.UserIds | main.py:316-317 | `SELECT user_id` lists the rows' `user_id`s, one per row, in table order |
| ContactStore.Applied | main.py:51-58 | every statement keeps the table well formed and never lowers the AUTOINCREMENT counter |
| ContactStore.RunKeepsCounter | main.py:53 | any sequence of statements keeps the table well formed and never lowers the counter |
| ContactStore.NoIdReuse | main.py:53 | after any statements, including deletes and a full clear, the next insert gets an id above every id stored before them |
| ContactStore.ContactTable.constructor | main.py:48-58 | `CREATE TABLE IF NOT EXISTS` keeps the table a previous run left, rows and counter, as it was |
| ContactStore.ContactTable.Insert | main.py:75-79 | `insert_data` changes the table as `Inserted` says and returns the new id, which is above the old counter |
| ContactStore.ContactTable.RegisterIfAbsent | main.py:110-118 | counts the rows with the `user_id` and inserts only when there are none; the result says whether it inserted |
| ContactStore.ContactTable.DeleteById | main.py:82-94 | `delete_data` looks the id up, deletes only when it is found, and reports whether it was |
| ContactStore.ContactTable.ReplaceName | main.py:508-512 | the in-place UPDATE changes the table as `Renamed` says |
| ContactStore.ContactTable.Clear | main.py:526-530 | the in-place `DELETE FROM list` empties the rows and keeps the counter |
| ContactStore.ContactTable.Apply | main.py:75-530 | running any of the bot's statements in place (the INSERT, DELETE by id, insert-if-absent, UPDATE and `DELETE FROM list`) leaves the table that `Applied` describes, and keeps it well formed |
| Listing.Entries | main.py:183 | there is one entry per row, in the rows' order |
| Listing.Render | main.py:182-185 | a select result is listed exactly when it is non-empty; an empty one gets the "no records" reply |
| Listing.ListingAppend | main.py:183 | listing two runs of rows gives the two listings joined by a newline, so no row is lost or reordered |
| Listing.EntryLines | main.py:183 | each entry spans exactly two lines when its handle and name hold no newline |
| Listing.ListingLines | main.py:183 | a listing of n such rows has exactly 2n lines |
| Listing.ListedNumberIsId | main.py:183 | the first line of a listing is `Number: <id>` of the first row, and reading the number back as `/delete` and `/replace_name` do gives that id |
| Broadcast.SendToAll | main.py:319-335 | every recipient in the list read before the loop is attempted once, in order, and a failed send does not stop the loop |
| Flows.WriteId | main.py:140-147 | `write_id` either ends the flow or asks for the handle, which is at most two messages away from the end |
| Flows.WriteUser | main.py:150-160 | `write_user` either ends the flow or asks for the name |
| Flows.WriteName | main.py:163-172 | `write_name` always ends the flow |
| Flows.ViewUserName | main.py:198-208 | the choice step either ends the flow or asks for the value to filter on |
| Flows.ProcessView | main.py:211-239 | the filtered listing ends the flow |
| Flows.ProcessDelete | main.py:262-274 | `process_delete` ends the flow |
| Flows.VariantSend | main.py:285-308 | the sending choice step either ends the flow or goes on to the content for everyone or to the recipient's id |
| Flows.SendAllStep | main.py:311-335 | sending to everyone ends the flow |
| Flows.SettingSendId | main.py:338-349 | the recipient step either ends the flow or asks for the content |
| Flows.SendContentStep | main.py:352-369 | sending to one recipient ends the flow |
| Flows.SettingReplace | main.py:486-502 | the id step of `/replace_name` either ends the flow or asks for the new name |
| Flows.ReplaceNameStep | main.py:505-518 | storing the new name ends the flow |
| Flows.StartCommand | main.py:121-532 | only `/clear_db` writes (it clears); only the six conversational commands register a step; a name no handler lists is ignored |
| Flows.ListingCommands | main.py:175-187 | `/start` replies with the command list; `/all` lists the whole table or replies "no records"; `/replace_name` shows the same reply, asks for a Number and registers its step even on an empty table |
| Flows.Resume | main.py:140-518 | every registered step leaves a shorter remaining flow than it was given, and no step ever clears the table |
| Flows.FlowsEnd | main.py:140-518 | whatever the admin sends, a flow is over after at most as many messages as it has steps left, never more than three |
| Flows.CommandsOpenShortFlows | main.py:134-137 | every command opens a flow of at most three steps |
| Flows.NumericStepsReject | main.py:140-145 | the numeric steps reject a message whose stripped text is not a non-empty digit run. The flow ends with the error reply, or with a crash when there is no text, and nothing is written |
| Flows.NumericStepsAccept | main.py:140-147 | on a stripped digit run the numeric steps carry `int()` of it on. `/replace_name` continues only for an existing id, and `/delete` deletes it if it fits SQLite's integer |
| Flows.HandleStep | main.py:150-160 | the handle step advances exactly on a valid stripped `@handle`. A missing '@' or a lone "@" gets the error reply; a bad later character ends the flow silently; no rejection writes anything |
| Flows.IdAccepted | main.py:140-147 | a stripped digit run moves the add flow to the handle step with `int()` of it |
| Flows.HandleAccepted | main.py:150-157 | a valid stripped handle moves the add flow to the name step, carrying the stripped handle |
| Flows.NameAccepted | main.py:163-168 | the name step inserts `(user_id, user, name.strip())` when the id fits SQLite's integer |
| Flows.AddFlowInserts | main.py:163-168 | completing the add flow appends exactly one row `(int(id), handle, name.strip())` with an id above every earlier id and keeps the other rows; no uniqueness check is made |
| Flows.AddFlowExample | main.py:140-168 | "12345", "@abc_01", " John " add `(12345, "@abc_01", "John")`; "@a-b" ends silently; "@" gets the error reply |
| Flows.ExampleId | main.py:141-147 | "12345" is stripped to itself, is all digits, and has the value 12345 |
| Flows.ExampleHandle | main.py:151-155 | "@abc_01" is stripped to itself and is a valid handle |
| Flows.ExampleName | main.py:164 | " John " is stripped to "John" |
| Flows.ExampleBadHandles | main.py:153-160 | "@a-b" ends the flow without a reply, and "@" ends it with the error reply |
| Flows.ViewFlow | main.py:198-239 | the choice step accepts exactly "1" (by `user`) and "2" (by `name`), else "invalid choice"; the value step lists exactly the matching rows in table order, or replies "no records" |
| Flows.SendChoiceFlow | main.py:285-308 | the sending choice accepts "1", and "2" only when the table has rows; other text ends the flow with "invalid choice"; nothing is written |
| Flows.DeleteFlow | main.py:262-274 | `/delete` on an existing id removes exactly that row and replies "deleted"; on a missing id the table is unchanged and the reply is "not found" |
| Flows.ReplaceLookup | main.py:486-502 | `setting_replace` goes on exactly when the stripped text is the id of some row, and otherwise writes nothing |
| Flows.ReplaceRename | main.py:505-512 | the next message's text, unstripped, becomes that row's name; nothing else changes |
| Flows.DeleteGate | main.py:243-259 | `delete_entry` refuses anyone but the admin, and starts no flow on an empty table |
| Flows.ClearGate | main.py:522-532 | `clear_db` empties the table whoever sends it, because its refusal has no `return` |
| Bot.RouteOf | main.py:102 | a non-admin's text goes to `echo_message` even when it is a command; the admin's pending step takes the admin's next message first; with no step pending, an admin text that names a command runs exactly that command |
| Bot.HandleOf | main.py:105 | the recorded handle is "@" followed by the username, and exactly "@None" for a sender without one |
| Bot.Dispatch | main.py:102-118 | a non-admin's message never changes the admin's pending step, and an admin message to a pending step shortens the remaining flow |
| Bot.Attempts | main.py:316-319 | sending to everyone attempts each row's `user_id` in table order; sending to one attempts that recipient once |
| Bot.DuplicateRecipientSentTwice | main.py:319-335 | a `user_id` stored twice is sent to twice in one broadcast, and the two sends can have different outcomes |
| Bot.FileWithoutDocument | main.py:406-433 | `send_file_all` without a document replies "no file" but still runs the loop, and every send fails |
| Bot.StrangersOnlyRegister | main.py:102-118 | a non-admin can only add their own row: the earlier rows stay, their text is forwarded, and non-text is ignored |
| Bot.RecordedOnce | main.py:104-118 | a new sender's first text appends exactly `(next id, user_id, "@"+username, first_name)`; a known sender's leaves the table as it is; any later message from them changes nothing |
| Bot.PendingStepComesFirst | main.py:134-137 | while a step is pending, the admin's next message is its input even if it is a command: `/clear_db` mid-flow does not clear, and `/add` does not restart |
| Bot.Bot.constructor | main.py:48-61 | the bot starts on the table the database file holds, with no pending step |
| Bot.Bot.Handle | main.py:102-532 | one message, routed to `echo_message`, a command handler or the pending step, changes the pending step, the replies, the table and the sends exactly as its routed handler's outcome says, keeping the table well formed |

## Left out

- The Telegram transport is not modelled: sending, replying, keyboards, the reply texts and the per-recipient confirmations. Replies are kinds (`Reply`), and each send's delivery is an oracle parameter.
- Every reply and every message to the admin is assumed delivered. In the code, a reply that raises stops its handler before what follows it. The likely case is a listing over Telegram's 4,096-character limit, which about 60 rows reach, and every new non-admin adds a row. With such a table, `/all` crashes (main.py:187). `/delete` (main.py:254), `/replace_name` (main.py:480) and the "send to one" choices (main.py:301, 396) then register no next step. The model's `Flows.DeleteGate`, `Flows.ListingCommands` and `Flows.VariantSend` say those steps are registered. Likewise, a forward to the admin that fails at main.py:108 records nothing, while `Bot.RecordedOnce` says the sender is recorded.
- Distinguishing "blocked by the user" from other delivery errors only changes the reply text, so it is not modelled.
- Logging, loading `.env`, the start-up checks, and the polling loop that restarts after a crash and notifies the admin are not modelled. They do not touch the table or the flows.
- An exception raised inside a handler, such as `strip()` on a message without text, appears as the `Crashed` reply with the flow ended and nothing written. The library's error handling around it is not modelled.
- SQLite connection and commit mechanics are not modelled. Each statement's effect is the function that models it, applied to the table as the previous statement left it.
- ContactStore.Registered: the bot handles messages one at a time here, and the `SELECT COUNT` and the INSERT of `echo_message` are one step. The library runs handlers on worker threads, and the two statements use separate connections. So two quick first messages from one sender could both see a count of zero and both insert. The "recorded once" of `RegisterIdempotent` and `Bot.RecordedOnce` holds only for messages handled one after another.
- `isdigit()` and `int()` are modelled for ASCII digits only; Python also accepts other Unicode decimal digits.
- `ContactStore.Inserted`: ids past the 64-bit AUTOINCREMENT limit are not modelled; SQLite would refuse to issue them.
- `Flows.ReplaceNameStep`: the confirmation echoes the id as the admin typed it, so "007" shows as 007. The model shows the number.
- The per-chat keying of next-step handlers is reduced to the admin's chat: only the admin's commands register steps. Group chats are not modelled.
- `echo_message` reads `message.text` only for text messages; captions of media messages are not modelled, and such messages reach no handler.
