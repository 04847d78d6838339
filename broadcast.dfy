/** The sending side of `/send_message` and `/send_file`: one send per
    recipient, each inside its own try block.  Delivery through Telegram is
    not modelled; the transport's answer to each send is an oracle
    `deliver`, which says whether that send went through.  The oracle is
    given the send's position in the loop as well as its recipient, since
    every send is its own API call: two sends to the same `user_id` in one
    broadcast may fare differently. */
module Broadcast {
  import opened Text

  /** What is sent: a text, or a file by its Telegram file id, which is
      absent when the admin's message carried no document. */
  datatype Payload = TextMessage(text: string) | FileMessage(fileId: Option<string>)

  /** The transport's answer to one send. */
  datatype Delivery = Delivered | Failed

  datatype Attempt = Attempt(recipient: nat, result: Delivery)

  /** One send inside the try block.  Without a document, reading
      `file.file_id` raises before anything is sent, and the exception is
      caught like a failed delivery. */
  function TrySend(position: nat, recipient: nat, payload: Payload, deliver: (nat, nat, Payload) -> Delivery): Delivery
  {
    if payload == FileMessage(None) then Failed else deliver(position, recipient, payload)
  }

  /** The loop of `send_message_all` / `send_file_all` over the list of
      `user_id`s read before it starts: every recipient is attempted, in the
      list's order, and a failed send does not stop the loop. */
  method SendToAll(recipients: seq<nat>, payload: Payload, deliver: (nat, nat, Payload) -> Delivery)
    returns (log: seq<Attempt>)
    ensures |log| == |recipients|
    ensures forall i :: 0 <= i < |recipients| ==>
      log[i] == Attempt(recipients[i], TrySend(i, recipients[i], payload, deliver))
  {
    log := [];
    for i := 0 to |recipients|
      invariant |log| == i
      invariant forall k :: 0 <= k < i ==>
        log[k] == Attempt(recipients[k], TrySend(k, recipients[k], payload, deliver))
    {
      var result := TrySend(i, recipients[i], payload, deliver);
      log := log + [Attempt(recipients[i], result)];
    }
  }
}
