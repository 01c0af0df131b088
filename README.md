# Baileys test bot: reconnect supervisor and auto-reply, in Dafny

This project models the two pieces of logic that the WhatsApp bot script
`index.js` owns itself. The protocol work (socket, encryption, framing,
credential storage) belongs to the Baileys library and is not modelled.

- **Reconnect supervisor** (`connection_supervisor.dfy`, module
  `ConnectionSupervisor`). The `connection.update` handler keeps one
  process-wide counter of reconnect attempts, bounded by `MAX_ATTEMPTS = 5`.
  - The class `Supervisor` holds that counter (`reconnectAttempts`).
    Its method `HandleUpdate` runs the handler's if / else-if chain on an update.
    It updates the counter in place and returns the effects it requests, in order:
    `ScheduleReconnect(5000)`, `Exit(1)`, `QrRendered(payload)` or
    `QrRenderFailed(payload)`.
  - The method is proved equal to the pure function `Step`.
  - `Run` chains `Step` over the updates one process receives. It stops at the
    first exit request.
  - The lemmas state the reconnect policy: the counter's bounds and resets,
    exactly one reconnect per retryable close, exit on exhaustion, and that QR
    rendering cannot change any of this.
- **Auto-reply** (`message_replies.dfy`, module `MessageReplies`). The
  `messages.upsert` handler replies with the fixed text
  `Hello from your Baileys bot!` to each message in a `notify` batch that is
  not from this account, not from a broadcast list, and carries text.
  - `HandleMessagesUpsert` is the handler's loop. It is proved to emit exactly
    the sends that the specification function `Replies` lists.
  - The lemmas show that `Replies` keeps batch order and answers each
    qualifying message exactly once.
- `js_values.dfy` (module `JsValues`) models JavaScript's optional fields,
  string truthiness, and the `||` operator.

Foreign calls are parameters:
- `isJidBroadcast` is a predicate `Jid -> bool`.
- Whether the terminal QR renderer throws is given by a predicate `string -> bool`
  (true: it rendered).
- `DisconnectReason.loggedOut` is the constant `LoggedOut`, whose value is left
  unspecified.

Three consequences of the branch order in `index.js`:
- `process.exit(1)` (index.js:57) ends the process before the QR block
  (index.js:71-84) is reached. So a QR payload in the same update as an
  exhausting close is never rendered. QR rendering is therefore not fully
  independent of the connection branch.
- The exhausted-retries test (index.js:53) comes before the logged-out branch.
  A logged-out close when the counter is already 5 exits with status 1; it does
  not reset quietly. A logout resets quietly only while the counter is below 5.
- Five retryable closes in a row from 0 schedule five reconnects. It is the
  sixth close that requests exit.

## Model

| member | source | states |
|---|---|---|
| JsValues.Or | index.js:98 | `a \|\| b` on optional strings is truthy iff either operand is; a truthy left operand wins; the result is one of the operands |
| ConnectionSupervisor.ShouldReconnectCases | index.js:41-43 | a close counts as retryable for a non-Boom error and for a missing error, and for a Boom error iff its status code is not the logged-out code |
| ConnectionSupervisor.QrEffects | index.js:71-84 | a render is attempted iff `qr` is truthy, at most once, on the update's own payload, and it never schedules a reconnect or an exit |
| ConnectionSupervisor.Step | index.js:36-86 | one handler call keeps the counter within 0..5, and it only increments a counter below 5 or else sets it to 0 or leaves it; it issues at most one reconnect-or-exit request; an exit is the only effect of its call; every reconnect is delayed 5000 ms |
| ConnectionSupervisor.RetryableCloseSchedulesOneReconnect | index.js:41-51 | a retryable close with the counter below 5 increments it by exactly one and requests exactly one reconnect and no exit |
| ConnectionSupervisor.ExhaustedCloseExits | index.js:53-57 | a close with the counter at 5 or more, for any disconnect reason including logout, resets the counter to 0 and requests only `Exit(1)` |
| ConnectionSupervisor.LoggedOutCloseResets | index.js:58-61 | a logged-out close with the counter below 5 resets it to 0 and requests neither reconnect nor exit |
| ConnectionSupervisor.OpenResets | index.js:65-68 | an `open` update resets the counter to 0 from any value, with no reconnect or exit |
| ConnectionSupervisor.OtherLeavesCounter | index.js:40-68 | an update that is neither `close` nor `open` leaves the counter unchanged and requests no reconnect or exit |
| ConnectionSupervisor.QrRenderAttemptedIffTruthy | index.js:57-84 | a render is attempted iff `qr` is truthy and the call did not take the exit branch; the rendered payload is the update's |
| ConnectionSupervisor.RenderOutcomeIsContained | index.js:73-82 | whether rendering succeeds or throws changes neither the new counter nor the reconnect/exit requests |
| ConnectionSupervisor.Run | index.js:14-15 | over any sequence of updates to one process, a counter that starts within 0..5 stays within 0..5 |
| ConnectionSupervisor.RetryableClosesCountUp | index.js:45-51 | n retryable closes from counter c with c + n <= 5 raise the counter to c + n and request exactly n reconnects, no exit |
| ConnectionSupervisor.RetryableClosesThenExit | index.js:45-57 | retryable closes from counter c <= 5, more than 5 - c of them, request exactly 5 - c reconnects and then one `Exit(1)`, leaving the counter at 0; later updates are not handled |
| ConnectionSupervisor.ExhaustedRunExits | index.js:53-57 | a process whose counter is at 5 or more exits with status 1 on its next close, whatever the reason, resets the counter to 0 and handles no later update |
| ConnectionSupervisor.FiveRetriesThenExit | index.js:45-57 | from 0, five retryable closes leave the counter at 5 with exactly five reconnects; a sixth adds `Exit(1)` and resets the counter to 0 |
| ConnectionSupervisor.LoggedOutAfterThreeRetries | index.js:45-61 | three retryable closes followed by a logged-out close leave the counter at 0, with exactly three reconnects and no exit |
| ConnectionSupervisor.Supervisor.constructor | index.js:14 | the counter starts at 0 |
| ConnectionSupervisor.Supervisor.HandleUpdate | index.js:36-86 | updating the counter in place and returning the effects agrees with `Step` on the old counter, and keeps the counter within 0..5 |
| MessageReplies.MessageText | index.js:98 | the message text is truthy iff the plain body or the extended-text body is; a truthy plain body takes precedence over the extended text |
| MessageReplies.Replies | index.js:94-105 | a notification batch gets at most one send per message, each with the fixed text |
| MessageReplies.RepliesAppend | index.js:94-107 | the sends for a batch are the sends for its first part followed by the sends for the rest (batch order) |
| MessageReplies.RepliesExtend | index.js:94-105 | handling one more message appends its reply exactly when it is not from this account, not from a broadcast list, and has truthy text |
| MessageReplies.ReplyAtPosition | index.js:96-104 | an answered message gets a send to its `remoteJid` with the fixed text, placed after the replies to the messages before it |
| MessageReplies.UnansweredAddsNothing | index.js:96-100 | a message from this account, from a broadcast list, or without truthy text adds no send |
| MessageReplies.PositionsIncrease | index.js:94 | the reply to an answered message comes before the replies to all later messages |
| MessageReplies.EveryReplyAnswersAMessage | index.js:94-105 | every send is the reply to some answered message of the batch, at that message's position |
| MessageReplies.UpsertReplies | index.js:93 | a batch whose type is not `notify` gets no sends |
| MessageReplies.HandleMessagesUpsert | index.js:90-109 | the handler's loop sends exactly `UpsertReplies` of the batch: nothing for a non-`notify` batch, and exactly `Replies` of the batch, in order, for a `notify` batch |
| MessageReplies.DirectTextMessageGetsOneReply | index.js:96-104 | the message "hi" from another account in chat "123@s.whatsapp.net" gets exactly one send to that chat with the fixed text |

## Left out

- Socket creation and its configuration (index.js:24-33): calls into the protocol library, with no logic of the script's own.
- Credential loading and saving (index.js:22, 112): file I/O done by the library.
- The 5-second timer and the re-entry into `connectToWhatsApp` (index.js:49-51) are modelled only as the `ScheduleReconnect(5000)` effect. Timing is not modelled. Neither is the race between a pending reconnect and a connection that opens in the meantime.
- `process.exit` (index.js:57) is the `Exit(1)` effect. `Run` stops handling updates after it; no real termination is modelled.
- The startup failure path (index.js:118-121), which exits with status 1 when the first connection attempt throws: it depends on library I/O errors only.
- Console and pino logging (index.js:38, 47, 54, 61, 67, 72, 76-81, 84, 91, 101). QR rendering to text (index.js:75) is reduced to whether it throws.
- The handlers are `async`. The interleaving of a handler suspended at `await QRCode.toString` (index.js:75) or `await sock.sendMessage` (index.js:104) with later events is not modelled; each handler call is atomic here.
- The internals of `isJidBroadcast` and of the `instanceof Boom` test: the first is a parameter, the second is the `Disconnect` datatype. The numeric value of `DisconnectReason.loggedOut` is left open.
- The network send in `sock.sendMessage` (index.js:104): only the `(recipient, text)` list is modelled. A failure of a send, which would abort the rest of the loop, is not modelled.
- A message whose `key.remoteJid` is absent: recipients are always strings here. A `key.fromMe` that is absent is modelled as false, which JavaScript's `!` treats the same way.
