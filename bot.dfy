/** The bot as a whole: which handler an incoming message reaches, and what
    handling it does to the admin's pending step, the contact table and the
    recipients.  The Telegram library tries a chat's registered next-step
    handler before the message handlers, and the message handlers in the
    order they are declared: `echo_message` first (any text from anyone but
    the admin), then the commands. */
module Bot {
  import opened Text
  import opened ContactStore
  import opened Broadcast
  import opened Flows

  /** `message.from_user`: the numeric id, the optional `username` and the
      `first_name`. */
  datatype Sender = Sender(id: nat, username: Option<string>, firstName: string)

  datatype Message = Message(sender: Sender, content: Content)

  /** The handler a message reaches. */
  datatype Route =
    | Dropped               // no handler matches
    | Echo                  // echo_message
    | Pending               // the admin's registered next step
    | Command(name: string) // a command handler, by command name

  /** The library's routing.  The handlers without a `content_types` filter
      take text only, so a non-admin's file or sticker reaches none; a
      non-admin's text reaches `echo_message` even when it is a command. */
  function RouteOf(adminId: nat, pending: Step, m: Message): (r: Route)
    ensures r == Echo <==> m.sender.id != adminId && m.content.TextContent?
    ensures r == Pending <==> m.sender.id == adminId && pending != Idle
    ensures r.Command? ==>
      m.sender.id == adminId && pending == Idle && m.content.TextContent? && CommandOf(m.content.text) == Some(r.name)
    ensures m.sender.id == adminId && pending == Idle && m.content.TextContent? && CommandOf(m.content.text).Some? ==>
      r == Command(CommandOf(m.content.text).value)
  {
    if m.sender.id != adminId then
      if m.content.TextContent? then Echo else Dropped
    else if pending != Idle then
      Pending
    else
      match m.content
      case TextContent(text) =>
        (match CommandOf(text)
         case Some(name) => Command(name)
         case None => Dropped)
      case _ => Dropped
  }

  /** The handle `echo_message` records: `f"@{username}"`, which is "@None"
      for a sender without a username. */
  function HandleOf(s: Sender): (user: string)
    ensures |user| > 0 && user[0] == '@'
    ensures s.username.Some? ==> user[1..] == s.username.value
    ensures s.username.None? ==> user == "@None"
  {
    "@" + Shown(s.username)
  }

  /** `echo_message`: forward the text to the admin and register the sender
      when no row has their `user_id`; the admin's pending step stays. */
  function EchoOutcome(pending: Step, s: Sender, text: string): Outcome {
    Outcome(pending, [Forwarded(s.id, HandleOf(s), text)], Write(Register(s.id, HandleOf(s), s.firstName)))
  }

  /** One incoming message, handled against the table as it stands. */
  function Dispatch(adminId: nat, pending: Step, m: Message, t: Table): (o: Outcome)
    ensures m.sender.id != adminId ==> o.next == pending
    ensures pending != Idle && m.sender.id == adminId ==> Remaining(o.next) < Remaining(pending)
  {
    match RouteOf(adminId, pending, m)
    case Dropped => Outcome(pending, [], NoEffect)
    case Echo => EchoOutcome(pending, m.sender, m.content.text)
    case Pending => Resume(pending, m.content, t)
    case Command(name) => StartCommand(name, m.sender.id, adminId, t)
  }

  /** The table after a handler's effect. */
  function AfterEffect(t: Table, e: Effect): Table {
    if e.Write? then Applied(t, e.op) else t
  }

  /** The sends a handler's effect makes, in order: one per `user_id` of the
      table for a send to everyone, one for a send to a single recipient. */
  function Attempts(e: Effect, rows: seq<Row>, deliver: (nat, nat, Payload) -> Delivery): (log: seq<Attempt>)
    ensures e.SendAll? ==> |log| == |rows|
    ensures e.SendAll? ==> forall i :: 0 <= i < |rows| ==>
      log[i] == Attempt(rows[i].userId, TrySend(i, rows[i].userId, e.payload, deliver))
    ensures e.SendOne? ==> log == [Attempt(e.recipient, TrySend(0, e.recipient, e.payload, deliver))]
    ensures !e.SendAll? && !e.SendOne? ==> log == []
  {
    match e
    case SendAll(payload) =>
      var ids := UserIds(rows);
      seq(|ids|, i requires 0 <= i < |ids| => Attempt(ids[i], TrySend(i, ids[i], payload, deliver)))
    case SendOne(recipient, payload) => [Attempt(recipient, TrySend(0, recipient, payload, deliver))]
    case _ => []
  }

  /** `send_file_all` without a document: the "no file" reply has no
      `return` after it, so the loop still runs, and every recipient's send
      fails on the missing `file_id` without stopping the loop. */
  lemma FileWithoutDocument(c: Content, rows: seq<Row>, deliver: (nat, nat, Payload) -> Delivery)
    requires !c.Document?
    ensures var o := SendAllStep(Files, c);
      var log := Attempts(o.effect, rows, deliver);
      && o.replies == [NoFile]
      && |log| == |rows|
      && forall i :: 0 <= i < |log| ==> log[i] == Attempt(rows[i].userId, Failed)
  {
  }

  /** Each send of a broadcast is its own API call, so two rows with the
      same `user_id` are sent to twice, and the two sends may fare
      differently: here the first goes through and the second fails. */
  lemma DuplicateRecipientSentTwice(r: Row, r': Row, text: string)
    requires r.userId == r'.userId
    ensures var deliver := (position: nat, recipient: nat, p: Payload) => if position == 0 then Delivered else Failed;
      Attempts(SendAll(TextMessage(text)), [r, r'], deliver)
        == [Attempt(r.userId, Delivered), Attempt(r.userId, Failed)]
  {
  }

  /** Anyone but the admin can only add themselves to the table: a text is
      forwarded to the admin and registers its sender, whose row is then the
      only one that may have been added; anything else is ignored.  The
      admin's pending step is untouched either way. */
  lemma StrangersOnlyRegister(adminId: nat, pending: Step, m: Message, t: Table)
    requires m.sender.id != adminId
    ensures var o := Dispatch(adminId, pending, m, t);
      var after := AfterEffect(t, o.effect);
      && o.next == pending
      && after.rows[..|t.rows|] == t.rows
      && after.lastId >= t.lastId
      && (forall i :: |t.rows| <= i < |after.rows| ==> after.rows[i].userId == m.sender.id)
      && (m.content.TextContent? ==> o.replies == [Forwarded(m.sender.id, HandleOf(m.sender), m.content.text)])
      && (!m.content.TextContent? ==> o.replies == [])
      && (!m.content.TextContent? ==> after == t)
  {
    var o := Dispatch(adminId, pending, m, t);
    if m.content.TextContent? {
      assert o.effect == Write(Register(m.sender.id, HandleOf(m.sender), m.sender.firstName));
      var after := Registered(t, m.sender.id, HandleOf(m.sender), m.sender.firstName);
      if CountUserId(t.rows, m.sender.id) == 0 {
        assert after.rows == t.rows + [Row(t.lastId + 1, m.sender.id, HandleOf(m.sender), Some(m.sender.firstName))];
      }
    }
  }

  /** A sender is recorded once, with the handle and first name of their
      first message, under the next id: later messages from them, under
      whatever username and name, leave the table as it is. */
  lemma RecordedOnce(adminId: nat, pending: Step, m: Message, m': Message, t: Table)
    requires m.sender.id != adminId && m.content.TextContent?
    requires m'.sender.id == m.sender.id
    ensures var t1 := AfterEffect(t, Dispatch(adminId, pending, m, t).effect);
      && CountUserId(t1.rows, m.sender.id) > 0
      && (CountUserId(t.rows, m.sender.id) == 0 ==>
            t1 == Table(t.rows + [Row(t.lastId + 1, m.sender.id, HandleOf(m.sender), Some(m.sender.firstName))], t.lastId + 1))
      && (CountUserId(t.rows, m.sender.id) > 0 ==> t1 == t)
      && AfterEffect(t1, Dispatch(adminId, pending, m', t1).effect) == t1
  {
    var s := m.sender;
    var t1 := Registered(t, s.id, HandleOf(s), s.firstName);
    if m'.content.TextContent? {
      RegisterIdempotent(t, s.id, HandleOf(s), s.firstName, HandleOf(m'.sender), m'.sender.firstName);
    }
  }

  /** While a step is pending, the admin's next message is that step's
      input even when it is a command: `/clear_db` sent in the middle of a
      flow does not clear the table, and `/add` starts no new flow. */
  lemma PendingStepComesFirst(adminId: nat, pending: Step, m: Message, t: Table)
    requires pending != Idle && m.sender.id == adminId
    ensures var o := Dispatch(adminId, pending, m, t);
      && o.effect != Write(Clear)
      && Remaining(o.next) < Remaining(pending)
      && o.next != AddId
  {
  }

  /** The running bot: the admin's id from the environment, the shared
      table, and the next-step handler registered for the admin's chat. */
  class Bot {
    const adminId: nat
    const table: ContactTable
    var pending: Step

    predicate Valid()
      reads this, table
    {
      table.Valid()
    }

    /** Start-up: the table is whatever the database file holds from earlier
        runs (`Empty` on the first), and no step is registered, since
        registered steps live only in memory. */
    constructor (adminId: nat, stored: Table)
      requires WellFormed(stored)
      ensures Valid() && fresh(table)
      ensures this.adminId == adminId && pending == Idle && table.Value() == stored
    {
      this.adminId := adminId;
      table := new ContactTable(stored);
      pending := Idle;
    }

    /** Handles one message: runs the handler it is routed to, applies the
        handler's statement to the table, makes its sends, and registers the
        step it leaves. */
    method Handle(m: Message, deliver: (nat, nat, Payload) -> Delivery) returns (replies: seq<Reply>, attempts: seq<Attempt>)
      requires Valid()
      modifies this, table
      ensures Valid()
      ensures var o := Dispatch(adminId, old(pending), m, old(table.Value()));
        && pending == o.next
        && replies == o.replies
        && table.Value() == AfterEffect(old(table.Value()), o.effect)
        && attempts == Attempts(o.effect, old(table.rows), deliver)
    {
      var o := Dispatch(adminId, pending, m, table.Value());
      var rows := table.rows;
      replies := o.replies;
      attempts := [];
      match o.effect {
        case NoEffect =>
        case Write(op) =>
          table.Apply(op);
        case SendAll(payload) =>
          attempts := SendToAll(UserIds(rows), payload, deliver);
        case SendOne(recipient, payload) =>
          attempts := SendToAll([recipient], payload, deliver);
      }
      pending := o.next;
    }
  }
}
