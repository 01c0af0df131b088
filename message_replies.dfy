/**
 * The bot's `messages.upsert` handler: for a batch delivered as a live
 * notification, send a fixed reply to every message that came from someone
 * else, not from a broadcast list, and carries text.
 *
 * `Replies` specifies the sends of a notification batch, in order;
 * `HandleMessagesUpsert` is the handler's loop, proved to issue exactly those.
 * The lemmas show that `Replies` keeps batch order and answers each qualifying
 * message exactly once.
 */
module MessageReplies {
  import opened JsValues

  /** The fixed text of every reply. */
  const ReplyText: string := "Hello from your Baileys bot!"

  /** A WhatsApp identifier (JID) such as "123@s.whatsapp.net". */
  type Jid = string

  /** The `key` of a message: the chat it belongs to and whether this account sent it (absent counts as false). */
  datatype MessageKey = MessageKey(remoteJid: Jid, fromMe: bool)

  /** `extendedTextMessage`: a text message with extras (links, quotes); only its text matters here. */
  datatype ExtendedTextMessage = ExtendedTextMessage(text: Option<string>)

  /** The `message` payload: the plain-text body and the extended-text body, each possibly absent. */
  datatype MessageContent = MessageContent(conversation: Option<string>, extendedTextMessage: Option<ExtendedTextMessage>)

  /** One message of an upsert batch; `message` is absent for stubs and protocol messages. */
  datatype WebMessage = WebMessage(key: MessageKey, message: Option<MessageContent>)

  /** The `type` of an upsert batch: a live notification, or messages appended from history. */
  datatype UpsertType = Notify | Append

  /** One `sendMessage(recipient, { text })` call. */
  datatype Send = Send(recipient: Jid, text: string)

  /** `msg.message?.conversation` */
  function Conversation(m: WebMessage): Option<string>
  {
    if m.message.Some? then m.message.value.conversation else None
  }

  /** `msg.message?.extendedTextMessage?.text` */
  function ExtendedText(m: WebMessage): Option<string>
  {
    if m.message.Some? && m.message.value.extendedTextMessage.Some?
    then m.message.value.extendedTextMessage.value.text
    else None
  }

  /**
   * `messageText`: the plain-text body when it is truthy, otherwise the
   * extended-text body. It is truthy exactly when one of the two is.
   */
  function MessageText(m: WebMessage): (r: Option<string>)
    ensures Truthy(r) <==> Truthy(Conversation(m)) || Truthy(ExtendedText(m))
    ensures Truthy(Conversation(m)) ==> r == Conversation(m)
    ensures !Truthy(Conversation(m)) && Truthy(ExtendedText(m)) ==> r == ExtendedText(m)
  {
    Or(Conversation(m), ExtendedText(m))
  }

  /** The message gets a reply: not sent by this account, not from a broadcast list, and with text. */
  predicate Answered(m: WebMessage, isJidBroadcast: Jid -> bool)
  {
    !m.key.fromMe && !isJidBroadcast(m.key.remoteJid) && Truthy(MessageText(m))
  }

  /** The reply a message gets when it is answered. */
  function ReplyTo(m: WebMessage): Send
  {
    Send(m.key.remoteJid, ReplyText)
  }

  /** The sends for a notification batch: one per answered message, in batch order. */
  function Replies(messages: seq<WebMessage>, isJidBroadcast: Jid -> bool): (r: seq<Send>)
    ensures |r| <= |messages|
    ensures forall k :: 0 <= k < |r| ==> r[k].text == ReplyText
  {
    if messages == [] then []
    else
      (if Answered(messages[0], isJidBroadcast) then [ReplyTo(messages[0])] else [])
      + Replies(messages[1..], isJidBroadcast)
  }

  /** Replies to a batch are the replies to its first part followed by those to the rest. */
  lemma {:induction false} RepliesAppend(a: seq<WebMessage>, b: seq<WebMessage>, isJidBroadcast: Jid -> bool)
    ensures Replies(a + b, isJidBroadcast) == Replies(a, isJidBroadcast) + Replies(b, isJidBroadcast)
  {
    if a == [] {
      assert a + b == b;
    } else {
      assert (a + b)[0] == a[0];
      assert (a + b)[1..] == a[1..] + b;
      RepliesAppend(a[1..], b, isJidBroadcast);
    }
  }

  /** Handling one more message of the batch adds its reply, if any, at the end. */
  lemma RepliesExtend(messages: seq<WebMessage>, i: nat, isJidBroadcast: Jid -> bool)
    requires i < |messages|
    ensures Replies(messages[..i + 1], isJidBroadcast)
            == Replies(messages[..i], isJidBroadcast)
               + (if Answered(messages[i], isJidBroadcast) then [ReplyTo(messages[i])] else [])
  {
    assert messages[..i + 1] == messages[..i] + [messages[i]];
    RepliesAppend(messages[..i], [messages[i]], isJidBroadcast);
    assert [messages[i]][1..] == [];
  }

  /** Where the reply to message `i` sits among the sends: after the replies to the messages before it. */
  function Position(messages: seq<WebMessage>, i: nat, isJidBroadcast: Jid -> bool): nat
    requires i <= |messages|
  {
    |Replies(messages[..i], isJidBroadcast)|
  }

  /** An answered message gets its reply, addressed to its chat, at its position. */
  lemma ReplyAtPosition(messages: seq<WebMessage>, i: nat, isJidBroadcast: Jid -> bool)
    requires i < |messages| && Answered(messages[i], isJidBroadcast)
    ensures Position(messages, i, isJidBroadcast) < |Replies(messages, isJidBroadcast)|
    ensures Replies(messages, isJidBroadcast)[Position(messages, i, isJidBroadcast)]
            == Send(messages[i].key.remoteJid, ReplyText)
  {
    RepliesExtend(messages, i, isJidBroadcast);
    assert messages == messages[..i + 1] + messages[i + 1..];
    RepliesAppend(messages[..i + 1], messages[i + 1..], isJidBroadcast);
  }

  /** A message that is not answered adds no send. */
  lemma UnansweredAddsNothing(messages: seq<WebMessage>, i: nat, isJidBroadcast: Jid -> bool)
    requires i < |messages| && !Answered(messages[i], isJidBroadcast)
    ensures Position(messages, i + 1, isJidBroadcast) == Position(messages, i, isJidBroadcast)
  {
    RepliesExtend(messages, i, isJidBroadcast);
  }

  /** Replies keep batch order: an answered message's reply comes before those of every later message. */
  lemma PositionsIncrease(messages: seq<WebMessage>, i: nat, j: nat, isJidBroadcast: Jid -> bool)
    requires i < j <= |messages| && Answered(messages[i], isJidBroadcast)
    ensures Position(messages, i, isJidBroadcast) < Position(messages, j, isJidBroadcast)
  {
    var prefix := messages[..j];
    assert prefix[..i] == messages[..i];
    ReplyAtPosition(prefix, i, isJidBroadcast);
  }

  /** Every send answers some message of the batch: the answered message at that position. */
  lemma {:induction false} EveryReplyAnswersAMessage(messages: seq<WebMessage>, k: nat, isJidBroadcast: Jid -> bool)
    requires k < |Replies(messages, isJidBroadcast)|
    ensures exists i :: 0 <= i < |messages| && Answered(messages[i], isJidBroadcast)
                        && Position(messages, i, isJidBroadcast) == k
    decreases |messages|
  {
    var n := |messages| - 1;
    var init := messages[..n];
    RepliesExtend(messages, n, isJidBroadcast);
    assert messages[..n + 1] == messages;
    if k < |Replies(init, isJidBroadcast)| {
      EveryReplyAnswersAMessage(init, k, isJidBroadcast);
      var i :| 0 <= i < |init| && Answered(init[i], isJidBroadcast) && Position(init, i, isJidBroadcast) == k;
      assert init[..i] == messages[..i];
      assert Position(messages, i, isJidBroadcast) == k;
    } else {
      assert Answered(messages[n], isJidBroadcast) && Position(messages, n, isJidBroadcast) == k;
    }
  }

  /** The sends of one `messages.upsert` event: nothing unless the batch is a notification. */
  function UpsertReplies(kind: UpsertType, messages: seq<WebMessage>, isJidBroadcast: Jid -> bool): (r: seq<Send>)
    ensures kind != Notify ==> r == []
  {
    if kind == Notify then Replies(messages, isJidBroadcast) else []
  }

  /**
   * The `messages.upsert` handler: walks the batch in order and issues one
   * send per answered message. `isJidBroadcast` is the protocol library's
   * broadcast-list test.
   */
  method HandleMessagesUpsert(messages: seq<WebMessage>, kind: UpsertType, isJidBroadcast: Jid -> bool)
    returns (sends: seq<Send>)
    ensures sends == UpsertReplies(kind, messages, isJidBroadcast)
  {
    sends := [];
    if kind == Notify {
      for i := 0 to |messages|
        invariant sends == Replies(messages[..i], isJidBroadcast)
      {
        RepliesExtend(messages, i, isJidBroadcast);
        var msg := messages[i];
        if !msg.key.fromMe && !isJidBroadcast(msg.key.remoteJid) {
          var sender := msg.key.remoteJid;
          var messageText := MessageText(msg);
          if Truthy(messageText) {
            sends := sends + [Send(sender, ReplyText)];
          }
        }
      }
      assert messages[..|messages|] == messages;
    }
  }

  /**
   * A text message "hi" from another account in a one-to-one chat gets exactly
   * one reply, to that chat, with the fixed text.
   */
  lemma DirectTextMessageGetsOneReply(isJidBroadcast: Jid -> bool)
    requires !isJidBroadcast("123@s.whatsapp.net")
    ensures UpsertReplies(Notify, [WebMessage(MessageKey("123@s.whatsapp.net", false),
                                              Some(MessageContent(Some("hi"), None)))], isJidBroadcast)
            == [Send("123@s.whatsapp.net", "Hello from your Baileys bot!")]
  {
  }
}
