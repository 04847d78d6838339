/** The admin's conversations.  A command registers a "next step" handler
    for the admin's chat; the next message from that chat goes to it, and
    the step either registers the following step (carrying the values read
    so far) or registers nothing, which ends the flow.  No step ever
    registers itself again: a rejected input ends the flow and the admin has
    to give the command anew.  Here the registered handler is the `Step`
    value, and each handler is a function from the message (and the table,
    for the steps that read it) to an `Outcome`: the next step, the replies
    sent, and the effect on the table or the recipients. */
module Flows {
  import opened Text
  import opened ContactStore
  import opened Listing
  import opened Broadcast

  /** What an incoming message carries: `message.text` is set only for a
      text message, `message.document` only for a file. */
  datatype Content = TextContent(text: string) | Document(fileId: string) | Other

  function TextOf(c: Content): Option<string> {
    if c.TextContent? then Some(c.text) else None
  }

  function DocumentOf(c: Content): Option<string> {
    if c.Document? then Some(c.fileId) else None
  }

  /** Which of the two sending commands a step belongs to. */
  datatype Channel = Messages | Files

  /** The next-step handler registered for the admin's chat, with the
      arguments it was registered with; `Idle` when none is. */
  datatype Step =
    | Idle
    | AddId                                   // write_id
    | AddHandle(userId: nat)                  // write_user
    | AddName(userId: nat, user: string)      // write_name
    | ViewChoice                              // view_user_name
    | ViewValue(column: Column)               // process_view_user_name, process_view_name
    | DeleteNumber                            // process_delete
    | SendChoice(channel: Channel)            // variant_send_message, variant_send_file
    | SendToEveryone(channel: Channel)        // send_message_all, send_file_all
    | SendRecipient(channel: Channel)         // setting_send_message_id, setting_send_file_id
    | SendContent(channel: Channel, userId: nat) // setting_send_message_text, setting_send_file_file
    | ReplaceNumber                           // setting_replace
    | ReplaceNewName(id: nat)                 // replace_name

  /** The questions the bot asks before registering a step. */
  datatype Prompt =
    | AskUserId | AskHandle | AskName
    | AskCriterion | AskValue(column: Column)
    | AskNumberToDelete
    | AskSendCriterion(channel: Channel) | AskContentForAll(channel: Channel)
    | AskRecipient(channel: Channel) | AskContent(channel: Channel)
    | AskNumberToRename | AskNewName

  /** The replies, by kind. */
  datatype Reply =
    | Welcome
    | Ask(prompt: Prompt)
    | Records(text: string)
    | NoRecords
    | NoMatches(column: Column)
    | RecordedIds
    | BadUserId | BadHandle | BadNumber | BadChoice
    | Added | RowDeleted | NumberNotFound | NameUpdated(id: nat)
    | NotAdmin | TableCleared
    | NoFile
    | StorageError
    | Crashed
    | Forwarded(userId: nat, user: string, text: string)

  /** What a handler does besides replying. */
  datatype Effect =
    | NoEffect
    | Write(op: Op)
    | SendAll(payload: Payload)
    | SendOne(recipient: nat, payload: Payload)

  datatype Outcome = Outcome(next: Step, replies: seq<Reply>, effect: Effect)

  /** A handler that registers no further step and changes nothing. */
  function Ended(replies: seq<Reply>): Outcome {
    Outcome(Idle, replies, NoEffect)
  }

  /** The largest integer SQLite stores; binding a larger Python int raises
      `OverflowError`. */
  const MaxSqlInt: nat := 0x7FFF_FFFF_FFFF_FFFF

  /** The reply to a select: the listing, or the given "no records" reply. */
  function ListingReply(rows: seq<Row>, none: Reply): Reply {
    match Render(rows)
    case Some(text) => Records(text)
    case None => none
  }

  /** `message.text.strip()`, then `isdigit()` and `int()`: a message
      without text makes `strip()` raise. */
  datatype NumberInput = NoText | NotANumber | Number(value: nat)

  function ReadNumber(c: Content): NumberInput {
    match c
    case TextContent(t) => if IsDigits(Strip(t)) then Number(DecimalValue(Strip(t))) else NotANumber
    case _ => NoText
  }

  /** The three ways `write_user` can judge a stripped handle. */
  datatype HandleCheck = HandleOk | HandleBadChars | HandleMalformed

  /** `user.startswith('@') and len(user) > 1`, then every later character
      in `valid_chars`. */
  function CheckHandle(user: string): HandleCheck {
    if |user| > 1 && user[0] == '@' then
      if forall i :: 1 <= i < |user| ==> IsHandleChar(user[i]) then HandleOk else HandleBadChars
    else
      HandleMalformed
  }

  /** A handle `write_user` accepts. */
  predicate IsHandle(user: string) {
    CheckHandle(user) == HandleOk
  }

  // ---- the add flow ----

  /** `write_id`. */
  function WriteId(c: Content): (o: Outcome)
    ensures o.next == Idle || o.next.AddHandle?
    ensures Remaining(o.next) < 3
  {
    match ReadNumber(c)
    case NoText => Ended([Crashed])
    case NotANumber => Ended([BadUserId])
    case Number(n) => Outcome(AddHandle(n), [Ask(AskHandle)], NoEffect)
  }

  /** `write_user`.  The error reply belongs to the outer `if`, so a handle
      with a good prefix and a bad character ends the flow without a reply. */
  function WriteUser(userId: nat, c: Content): (o: Outcome)
    ensures o.next == Idle || o.next.AddName?
    ensures Remaining(o.next) < 2
  {
    match c
    case TextContent(t) =>
      var user := Strip(t);
      (match CheckHandle(user)
       case HandleOk => Outcome(AddName(userId, user), [Ask(AskName)], NoEffect)
       case HandleBadChars => Ended([])
       case HandleMalformed => Ended([BadHandle]))
    case _ => Ended([Crashed])
  }

  /** `write_name`: insert `(user_id, user, name.strip())`; the insert fails,
      and is reported, when the user id does not fit SQLite's integer. */
  function WriteName(userId: nat, user: string, c: Content): (o: Outcome)
    ensures o.next == Idle
  {
    match c
    case TextContent(t) =>
      if userId <= MaxSqlInt then Outcome(Idle, [Added], Write(Insert(userId, user, Strip(t))))
      else Ended([StorageError])
    case _ => Ended([Crashed])
  }

  // ---- /view_users ----

  /** `view_user_name`: only the exact texts "1" and "2" are choices. */
  function ViewUserName(c: Content): (o: Outcome)
    ensures o.next == Idle || o.next.ViewValue?
    ensures Remaining(o.next) < 2
  {
    if c == TextContent("1") then Outcome(ViewValue(UserColumn), [Ask(AskValue(UserColumn))], NoEffect)
    else if c == TextContent("2") then Outcome(ViewValue(NameColumn), [Ask(AskValue(NameColumn))], NoEffect)
    else Ended([BadChoice])
  }

  /** `process_view_user_name` / `process_view_name`: the unstripped text is
      the value (`NULL` for a message without text, which matches nothing). */
  function ProcessView(column: Column, c: Content, rows: seq<Row>): (o: Outcome)
    ensures o.next == Idle
  {
    Ended([ListingReply(Where(rows, column, TextOf(c)), NoMatches(column))])
  }

  // ---- /delete ----

  /** `delete_entry`: only the admin, and only when there is something to delete. */
  function DeleteEntry(sender: nat, adminId: nat, rows: seq<Row>): Outcome {
    if sender != adminId then Ended([NotAdmin])
    else
      match Render(rows)
      case Some(text) => Outcome(DeleteNumber, [Records(text), Ask(AskNumberToDelete)], NoEffect)
      case None => Ended([NoRecords])
  }

  /** `process_delete` with `delete_data`: the row is looked up, deleted when
      found, and the reply says which. */
  function ProcessDelete(c: Content, rows: seq<Row>): (o: Outcome)
    ensures o.next == Idle
  {
    match ReadNumber(c)
    case NoText => Ended([Crashed])
    case NotANumber => Ended([BadNumber])
    case Number(n) =>
      if n > MaxSqlInt then Ended([StorageError])
      else Outcome(Idle, [if HasId(rows, n) then RowDeleted else NumberNotFound], Write(Delete(n)))
  }

  // ---- /send_message and /send_file ----

  /** `variant_send_message` / `variant_send_file`. */
  function VariantSend(channel: Channel, c: Content, rows: seq<Row>): (o: Outcome)
    ensures o.next == Idle || o.next == SendToEveryone(channel) || o.next == SendRecipient(channel)
    ensures Remaining(o.next) < 3
  {
    if c == TextContent("1") then Outcome(SendToEveryone(channel), [Ask(AskContentForAll(channel))], NoEffect)
    else if c == TextContent("2") then
      match Render(rows)
      case Some(text) => Outcome(SendRecipient(channel), [RecordedIds, Records(text), Ask(AskRecipient(channel))], NoEffect)
      case None => Ended([RecordedIds, NoRecords])
    else Ended([BadChoice])
  }

  /** What the admin's message gives to send: the text (an f-string, so a
      message without text sends "None"), or the document. */
  function PayloadOf(channel: Channel, c: Content): Payload {
    match channel
    case Messages => TextMessage(Shown(TextOf(c)))
    case Files => FileMessage(DocumentOf(c))
  }

  /** The "no file received" reply; it has no `return` after it, so the
      sending still goes ahead. */
  function MissingFile(channel: Channel, c: Content): seq<Reply> {
    if channel == Files && !c.Document? then [NoFile] else []
  }

  /** `send_message_all` / `send_file_all`. */
  function SendAllStep(channel: Channel, c: Content): (o: Outcome)
    ensures o.next == Idle
  {
    Outcome(Idle, MissingFile(channel, c), SendAll(PayloadOf(channel, c)))
  }

  /** `setting_send_message_id` / `setting_send_file_id`: any number is
      accepted, stored or not. */
  function SettingSendId(channel: Channel, c: Content): (o: Outcome)
    ensures o.next == Idle || o.next.SendContent?
    ensures Remaining(o.next) < 2
  {
    match ReadNumber(c)
    case NoText => Ended([Crashed])
    case NotANumber => Ended([BadUserId])
    case Number(n) => Outcome(SendContent(channel, n), [Ask(AskContent(channel))], NoEffect)
  }

  /** `setting_send_message_text` / `setting_send_file_file`. */
  function SendContentStep(channel: Channel, userId: nat, c: Content): (o: Outcome)
    ensures o.next == Idle
  {
    Outcome(Idle, MissingFile(channel, c), SendOne(userId, PayloadOf(channel, c)))
  }

  // ---- /replace_name ----

  /** `setting_replace`: a number that no row has ends the flow. */
  function SettingReplace(c: Content, rows: seq<Row>): (o: Outcome)
    ensures o.next == Idle || o.next.ReplaceNewName?
    ensures Remaining(o.next) < 2
  {
    match ReadNumber(c)
    case NoText => Ended([Crashed])
    case NotANumber => Ended([BadNumber])
    case Number(n) =>
      if n <= MaxSqlInt && HasId(rows, n) then Outcome(ReplaceNewName(n), [Ask(AskNewName)], NoEffect)
      else Ended([NumberNotFound])
  }

  /** `replace_name`: the text, not stripped, becomes the name (`NULL` for a
      message without text). */
  function ReplaceNameStep(id: nat, c: Content): (o: Outcome)
    ensures o.next == Idle
  {
    Outcome(Idle, [NameUpdated(id)], Write(Rename(id, TextOf(c))))
  }

  // ---- /clear_db ----

  /** `clear_db`: the refusal has no `return`, so the table is emptied
      whoever sends the command. */
  function ClearDb(sender: nat, adminId: nat): Outcome {
    Outcome(Idle, (if sender != adminId then [NotAdmin] else []) + [TableCleared], Write(Clear))
  }

  // ---- dispatch ----

  /** The command handlers, for a command name as the Telegram library
      extracts it.  Only `/clear_db` writes, only the six conversational
      commands register a step, and a name no handler lists is ignored. */
  function StartCommand(command: string, sender: nat, adminId: nat, t: Table): (o: Outcome)
    ensures command != "clear_db" ==> o.effect == NoEffect
    ensures command == "clear_db" ==> o.effect == Write(Clear) && o.next == Idle
    ensures o.next != Idle ==>
      command in {"add", "view_users", "delete", "send_message", "send_file", "replace_name"}
    ensures command !in {"start", "add", "all", "view_users", "delete", "send_message", "send_file", "replace_name", "clear_db"} ==>
      o == Ended([])
  {
    match command
    case "start" => Ended([Welcome])
    case "add" => Outcome(AddId, [Ask(AskUserId)], NoEffect)
    case "all" => Ended([ListingReply(t.rows, NoRecords)])
    case "view_users" => Outcome(ViewChoice, [Ask(AskCriterion)], NoEffect)
    case "delete" => DeleteEntry(sender, adminId, t.rows)
    case "send_message" => Outcome(SendChoice(Messages), [Ask(AskSendCriterion(Messages))], NoEffect)
    case "send_file" => Outcome(SendChoice(Files), [Ask(AskSendCriterion(Files))], NoEffect)
    case "replace_name" => Outcome(ReplaceNumber, [ListingReply(t.rows, NoRecords), Ask(AskNumberToRename)], NoEffect)
    case "clear_db" => ClearDb(sender, adminId)
    case _ => Ended([])
  }

  /** The registered step handling the next message of the admin's chat. */
  function Resume(step: Step, c: Content, t: Table): (o: Outcome)
    ensures step != Idle ==> Remaining(o.next) < Remaining(step)
    ensures o.effect != Write(Clear)
  {
    match step
    case Idle => Ended([])
    case AddId => WriteId(c)
    case AddHandle(userId) => WriteUser(userId, c)
    case AddName(userId, user) => WriteName(userId, user, c)
    case ViewChoice => ViewUserName(c)
    case ViewValue(column) => ProcessView(column, c, t.rows)
    case DeleteNumber => ProcessDelete(c, t.rows)
    case SendChoice(channel) => VariantSend(channel, c, t.rows)
    case SendToEveryone(channel) => SendAllStep(channel, c)
    case SendRecipient(channel) => SettingSendId(channel, c)
    case SendContent(channel, userId) => SendContentStep(channel, userId, c)
    case ReplaceNumber => SettingReplace(c, t.rows)
    case ReplaceNewName(id) => ReplaceNameStep(id, c)
  }

  /** How many more messages a flow can take at most. */
  function Remaining(step: Step): nat {
    match step
    case Idle => 0
    case AddId => 3
    case AddHandle(_) => 2
    case AddName(_, _) => 1
    case ViewChoice => 2
    case ViewValue(_) => 1
    case DeleteNumber => 1
    case SendChoice(_) => 3
    case SendToEveryone(_) => 1
    case SendRecipient(_) => 2
    case SendContent(_, _) => 1
    case ReplaceNumber => 2
    case ReplaceNewName(_) => 1
  }

  /** The step reached after feeding the admin's messages one by one. */
  function Feed(step: Step, inputs: seq<Content>, t: Table): Step
    decreases |inputs|
  {
    if inputs == [] || step == Idle then step else Feed(Resume(step, inputs[0], t).next, inputs[1..], t)
  }

  /** Whatever the admin sends, a flow is over after at most three messages. */
  lemma {:induction false} FlowsEnd(step: Step, inputs: seq<Content>, t: Table)
    requires |inputs| >= Remaining(step)
    ensures Feed(step, inputs, t) == Idle
    decreases |inputs|
  {
    if inputs != [] && step != Idle {
      FlowsEnd(Resume(step, inputs[0], t).next, inputs[1..], t);
    }
  }

  /** Every command opens a flow of at most three steps. */
  lemma CommandsOpenShortFlows(command: string, sender: nat, adminId: nat, t: Table)
    ensures Remaining(StartCommand(command, sender, adminId, t).next) <= 3
  {
  }

  /** The numeric steps (`write_id`, `process_delete`,
      `setting_send_*_id`, `setting_replace`) reject a message whose text,
      stripped, is not a non-empty run of digits: the flow ends with the
      error reply, or with the handler crashing when the message has no
      text, and the table is left alone. */
  lemma NumericStepsReject(c: Content, rows: seq<Row>, channel: Channel)
    requires !(c.TextContent? && IsDigits(Strip(c.text)))
    ensures var bad := if c.TextContent? then [BadUserId] else [Crashed];
      && WriteId(c) == Ended(bad)
      && SettingSendId(channel, c) == Ended(bad)
    ensures var bad := if c.TextContent? then [BadNumber] else [Crashed];
      && ProcessDelete(c, rows) == Ended(bad)
      && SettingReplace(c, rows) == Ended(bad)
  {
  }

  /** On a stripped all-digit text the numeric steps carry `int()` of it on:
      the add flow asks for the handle, the sending flows for the content
      (any number, stored or not), `/replace_name` only for an id some row
      has, and `/delete` deletes that id when it fits SQLite's integer. */
  lemma NumericStepsAccept(c: Content, rows: seq<Row>, channel: Channel)
    requires c.TextContent? && IsDigits(Strip(c.text))
    ensures var n := DecimalValue(Strip(c.text));
      && WriteId(c) == Outcome(AddHandle(n), [Ask(AskHandle)], NoEffect)
      && SettingSendId(channel, c) == Outcome(SendContent(channel, n), [Ask(AskContent(channel))], NoEffect)
      && SettingReplace(c, rows).next == (if n <= MaxSqlInt && HasId(rows, n) then ReplaceNewName(n) else Idle)
      && SettingReplace(c, rows).effect == NoEffect
      && (n <= MaxSqlInt ==> ProcessDelete(c, rows).effect == Write(Delete(n)))
      && (n > MaxSqlInt ==> ProcessDelete(c, rows) == Ended([StorageError]))
  {
  }

  /** `write_user` advances exactly on a valid `@handle`, carrying it
      stripped.  It rejects in two ways: with an error reply when the text
      lacks the leading '@' or is "@" alone, silently when a later character
      is not allowed.  No rejection writes anything. */
  lemma HandleStep(userId: nat, c: Content)
    ensures var o := WriteUser(userId, c);
      && (o.next != Idle <==> c.TextContent? && IsHandle(Strip(c.text)))
      && (o.next != Idle ==> o.next == AddName(userId, Strip(c.text)))
      && o.effect == NoEffect
      && (c.TextContent? && !IsHandle(Strip(c.text)) ==>
            o.replies == (if |Strip(c.text)| > 1 && Strip(c.text)[0] == '@' then [] else [BadHandle]))
  {
  }

  /** Completing the add flow (`write_id`, `write_user`, `write_name`)
      inserts exactly one row, `(int(id), handle, name.strip())`, under an id
      above every id issued before, and keeps every existing row; nothing
      checks that the user id is new, so the same user can be added twice. */
  lemma AddFlowInserts(t: Table, id: string, handle: string, name: string)
    requires WellFormed(t)
    requires IsDigits(Strip(id)) && DecimalValue(Strip(id)) <= MaxSqlInt
    requires IsHandle(Strip(handle))
    ensures var o1 := WriteId(TextContent(id));
      && o1.next == AddHandle(DecimalValue(Strip(id)))
      && var o2 := WriteUser(o1.next.userId, TextContent(handle));
      && o2.next == AddName(o1.next.userId, Strip(handle))
      && var o3 := WriteName(o2.next.userId, o2.next.user, TextContent(name));
      && o3.next == Idle
      && o3.effect == Write(Insert(DecimalValue(Strip(id)), Strip(handle), Strip(name)))
      && var t' := Applied(t, o3.effect.op);
         && WellFormed(t')
         && |t'.rows| == |t.rows| + 1
         && t'.rows[..|t.rows|] == t.rows
         && t'.rows[|t.rows|].userId == DecimalValue(Strip(id))
         && t'.rows[|t.rows|].name == Some(Strip(name))
         && (forall i :: 0 <= i < |t.rows| ==> t.rows[i].id < t'.rows[|t.rows|].id)
  {
    var n, user := DecimalValue(Strip(id)), Strip(handle);
    IdAccepted(id);
    HandleAccepted(n, handle);
    NameAccepted(n, user, name);
    var t' := Inserted(t, n, user, Strip(name));
    forall i | 0 <= i < |t.rows| ensures t.rows[i].id < t'.rows[|t.rows|].id {
      assert t.rows[i].id <= t.lastId;
    }
  }

  lemma IdAccepted(id: string)
    requires IsDigits(Strip(id))
    ensures WriteId(TextContent(id)) == Outcome(AddHandle(DecimalValue(Strip(id))), [Ask(AskHandle)], NoEffect)
  {
  }

  lemma HandleAccepted(userId: nat, handle: string)
    requires IsHandle(Strip(handle))
    ensures WriteUser(userId, TextContent(handle)) == Outcome(AddName(userId, Strip(handle)), [Ask(AskName)], NoEffect)
  {
  }

  lemma NameAccepted(userId: nat, user: string, name: string)
    requires userId <= MaxSqlInt
    ensures WriteName(userId, user, TextContent(name)) == Outcome(Idle, [Added], Write(Insert(userId, user, Strip(name))))
  {
  }

  /** The example run: "12345", "@abc_01", " John " adds
      `(12345, "@abc_01", "John")`; "@a-b" ends the flow without a reply and
      "@" alone with the error reply. */
  lemma AddFlowExample()
    ensures WriteId(TextContent("12345")).next == AddHandle(12345)
    ensures WriteUser(12345, TextContent("@abc_01")).next == AddName(12345, "@abc_01")
    ensures WriteName(12345, "@abc_01", TextContent(" John ")).effect == Write(Insert(12345, "@abc_01", "John"))
    ensures WriteUser(12345, TextContent("@a-b")) == Ended([])
    ensures WriteUser(12345, TextContent("@")) == Ended([BadHandle])
  {
    ExampleId();
    IdAccepted("12345");
    ExampleHandle();
    HandleAccepted(12345, "@abc_01");
    ExampleName();
    NameAccepted(12345, "@abc_01", " John ");
    ExampleBadHandles();
  }

  lemma ExampleId()
    ensures Strip("12345") == "12345" && IsDigits("12345") && DecimalValue("12345") == 12345
  {
    StripKeeps("12345");
    ExampleIdValue();
  }

  lemma ExampleIdValue()
    ensures IsDigits("12345") && DecimalValue("12345") == 12345
  {
    assert DecimalValue("1") == 1;
    assert "12"[..1] == "1";
    assert DecimalValue("12") == 12;
    assert "123"[..2] == "12";
    assert DecimalValue("123") == 123;
    assert "1234"[..3] == "123";
    assert DecimalValue("1234") == 1234;
    assert "12345"[..4] == "1234";
  }

  lemma ExampleHandle()
    ensures Strip("@abc_01") == "@abc_01" && IsHandle("@abc_01")
  {
    StripKeeps("@abc_01");
    ExampleHandleValid();
  }

  lemma ExampleHandleValid()
    ensures IsHandle("@abc_01")
  {
    var h := "@abc_01";
    assert IsHandleChar(h[1]) && IsHandleChar(h[2]) && IsHandleChar(h[3]);
    assert IsHandleChar(h[4]) && IsHandleChar(h[5]) && IsHandleChar(h[6]);
  }

  lemma ExampleName()
    ensures Strip(" John ") == "John"
  {
    assert " John " == " " + "John" + " ";
    StripSurrounded(" ", "John", " ");
  }

  lemma ExampleBadHandles()
    ensures WriteUser(12345, TextContent("@a-b")) == Ended([])
    ensures WriteUser(12345, TextContent("@")) == Ended([BadHandle])
  {
    var bad := "@a-b";
    StripKeeps(bad);
    assert !IsHandleChar(bad[2]);
    assert CheckHandle(bad) == HandleBadChars;
    StripKeeps("@");
  }

  /** The choice step of `/view_users` accepts exactly "1" (select on
      `user`) and "2" (select on `name`); the value step lists exactly the
      matching rows in table order, or ends with "no records". */
  lemma ViewFlow(c: Content, v: Content, column: Column, rows: seq<Row>)
    requires IdsAscending(rows)
    ensures var o := ViewUserName(c);
      && (o.next != Idle <==> c == TextContent("1") || c == TextContent("2"))
      && (o.next == Idle ==> o.replies == [BadChoice])
      && (c == TextContent("1") ==> o.next == ViewValue(UserColumn))
      && (c == TextContent("2") ==> o.next == ViewValue(NameColumn))
    ensures var o := ProcessView(column, v, rows);
      var found := Where(rows, column, TextOf(v));
      && o.next == Idle && o.effect == NoEffect
      && o.replies == [if found == [] then NoMatches(column) else Records(Render(found).value)]
      && IdsAscending(found)
      && (forall i :: 0 <= i < |rows| ==> (rows[i] in found <==> Matches(rows[i], column, TextOf(v))))
  {
    WhereExactly(rows, column, TextOf(v));
  }

  /** The choice step of `/send_message` and `/send_file` accepts exactly
      "1" (send to everyone) and "2" (send to one, after listing the table,
      and only when it has rows); anything else ends the flow with
      "invalid choice". */
  lemma SendChoiceFlow(channel: Channel, c: Content, rows: seq<Row>)
    ensures var o := VariantSend(channel, c, rows);
      && o.effect == NoEffect
      && (o.next != Idle <==> c == TextContent("1") || (c == TextContent("2") && rows != []))
      && (c == TextContent("1") ==> o.next == SendToEveryone(channel))
      && (c == TextContent("2") && rows != [] ==> o.next == SendRecipient(channel))
      && (c == TextContent("2") && rows == [] ==> o.replies == [RecordedIds, NoRecords])
      && (c != TextContent("1") && c != TextContent("2") ==> o.replies == [BadChoice])
  {
  }

  /** `/delete` on a number: when a row has it, exactly that row goes and the
      reply says so; otherwise the table is unchanged and the reply is "not found". */
  lemma DeleteFlow(t: Table, c: Content)
    requires WellFormed(t)
    requires c.TextContent? && IsDigits(Strip(c.text)) && DecimalValue(Strip(c.text)) <= MaxSqlInt
    ensures var n := DecimalValue(Strip(c.text));
      var o := ProcessDelete(c, t.rows);
      var t' := Applied(t, o.effect.op);
      && o.next == Idle
      && (HasId(t.rows, n) ==>
            && o.replies == [RowDeleted] && |t'.rows| == |t.rows| - 1
            && exists k :: (0 <= k < |t.rows| && t.rows[k].id == n && t'.rows == t.rows[..k] + t.rows[k + 1..]))
      && (!HasId(t.rows, n) ==> o.replies == [NumberNotFound] && t' == t)
  {
    var n := DecimalValue(Strip(c.text));
    assert ProcessDelete(c, t.rows).effect == Write(Delete(n));
    if HasId(t.rows, n) {
      DeletePresent(t, n);
    } else {
      DeleteMissing(t, n);
    }
  }

  /** `setting_replace`: the flow goes on to the new name exactly when the
      stripped text is a number some row has as its id; otherwise it ends
      and nothing is written. */
  lemma ReplaceLookup(c: Content, rows: seq<Row>)
    ensures var o := SettingReplace(c, rows);
      && (o.next.ReplaceNewName? <==> c.TextContent? && IsDigits(Strip(c.text))
                                      && DecimalValue(Strip(c.text)) <= MaxSqlInt
                                      && HasId(rows, DecimalValue(Strip(c.text))))
      && (o.next.ReplaceNewName? ==> o.next.id == DecimalValue(Strip(c.text)))
      && (!o.next.ReplaceNewName? ==> o.next == Idle && o.effect == NoEffect)
  {
    if c.TextContent? && IsDigits(Strip(c.text)) {
      assert ReadNumber(c) == Number(DecimalValue(Strip(c.text)));
    } else {
      assert ReadNumber(c).NoText? || ReadNumber(c).NotANumber?;
    }
  }

  /** `replace_name`: the next message's text, as sent, becomes the name of
      the row with that id, and nothing else in the table changes. */
  lemma ReplaceRename(t: Table, id: nat, newName: string)
    ensures var o := ReplaceNameStep(id, TextContent(newName));
      var t' := Applied(t, o.effect.op);
      && o.next == Idle
      && o.effect == Write(Rename(id, Some(newName)))
      && |t'.rows| == |t.rows| && t'.lastId == t.lastId
      && (forall i :: 0 <= i < |t.rows| ==>
            if t.rows[i].id == id then t'.rows[i] == t.rows[i].(name := Some(newName))
            else t'.rows[i] == t.rows[i])
  {
    assert Applied(t, Rename(id, Some(newName))).rows == Renamed(t.rows, id, Some(newName));
  }

  /** The commands that only read: `/start` replies with the command list;
      `/all` lists the whole table, or replies "no records" for an empty
      one.  `/replace_name` shows the same listing but, unlike `/delete`,
      asks for a Number and registers its step even when the table is
      empty. */
  lemma ListingCommands(sender: nat, adminId: nat, t: Table)
    ensures StartCommand("start", sender, adminId, t) == Ended([Welcome])
    ensures var listing := if t.rows == [] then NoRecords else Records(Render(t.rows).value);
      && StartCommand("all", sender, adminId, t) == Ended([listing])
      && StartCommand("replace_name", sender, adminId, t)
           == Outcome(ReplaceNumber, [listing, Ask(AskNumberToRename)], NoEffect)
  {
  }

  /** `delete_entry` refuses anyone but the admin, and with an empty table
      it starts no flow. */
  lemma DeleteGate(sender: nat, adminId: nat, t: Table)
    ensures var o := StartCommand("delete", sender, adminId, t);
      && (sender != adminId ==> o == Ended([NotAdmin]))
      && (sender == adminId && t.rows == [] ==> o == Ended([NoRecords]))
      && (sender == adminId && t.rows != [] ==> o.next == DeleteNumber && o.effect == NoEffect)
  {
  }

  /** `clear_db` empties the table whoever sends it: the refusal is only a
      reply. */
  lemma ClearGate(sender: nat, adminId: nat, t: Table)
    ensures var o := StartCommand("clear_db", sender, adminId, t);
      && o.next == Idle
      && o.effect == Write(Clear)
      && Applied(t, o.effect.op) == Table([], t.lastId)
      && (sender != adminId ==> o.replies == [NotAdmin, TableCleared])
      && (sender == adminId ==> o.replies == [TableCleared])
  {
  }
}
