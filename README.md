# Chat hub of govue-im, modelled in Dafny

The server of govue-im is a small WebSocket chat. Every connection that is
upgraded and carries a `user` cookie becomes a `Client` with a name and a
buffered outbound queue. Each client runs two goroutines: `readPump` reads
frames from the socket, and `writePump` drains the queue onto the socket. A single `Hub` goroutine serialises three kinds of
event:

- **register**: store the client under its name, append it to the one
  broadcast group, and send every member with another name a "joined"
  notice;
- **unregister**: if its name is registered, delete the entry and close the
  client's queue; then walk the group, sending "left" notices and removing
  members with the departing name;
- **broadcast**: route a message to the whole group (except members with the
  sender's name) or to one registered user.

This project models that core in four modules.

- `ChatClient` (`client.dfy`) holds the data of `server/chat/client.go`:
  - the `Message` record;
  - `Client` as a class whose queue is a `seq<Message>` plus a `closed` flag;
  - `Group` and `Group.Add`;
  - the timing constants;
  - the rule `ServeWs` uses to pick a connection's name.
- `Departure` (`departure.dfy`) is the group loop of the unregister case as
  pure functions. `LoopFrom` follows the Go `range` loop step by step:
  - the range is evaluated once over the original length;
  - the loop reads the shared backing array while
    `append(s[:i], s[i+1:]...)` shifts it left in place.

  `Intended` is the two-phase loop the code evidently meant. The module
  proves where the two agree, where they differ, and when the loop as written
  panics.
- `ChatHub` (`hub.dfy`) holds the `Hub` class: the registry map, the group
  (a field of the hub rather than a package-level variable) and the three
  handlers as methods, plus `GetUsers` and `ServeWs`.
  - The unregister loop runs on an array that stands for the slice's backing
    array.
  - It shifts the array in place with a `forall` statement and iterates over
    the original length.
  - It is proved to end exactly as `Departure.AsWritten` says.
- `ChatPumps` (`pumps.dfy`) models `readPump` and `writePump` as loops over
  finite sequences of what the socket delivers and what the queue and ticker
  yield. A sequence that runs out before the loop stops stands for a loop
  still blocked, waiting.

Go panics inside the hub are modelled as outcomes, since a panic ends the
whole process. There are three kinds:

- a send on a closed queue;
- closing a closed queue;
- the slice-bounds panic of `s[i+1:]`.

Each handler returns `panicked` and says exactly when it is true. After a
panic the model promises nothing more about the queues.

Queues are unbounded sequences. The capacity 256 is recorded in
`Client.capacity`, but blocking on a full queue is not modelled.

`readPump` does not stamp an incoming message's `from` with the
connection's identity: it forwards the decoded message unchanged
(`server/chat/client.go:82-87`), so a client can send under any name.
`ChatPumps.ReadForwardsInOrder` states that messages are forwarded
unchanged.

## Model

| member | source | states |
|---|---|---|
| ChatClient.NineTenths | server/chat/client.go:20 | `(d*9)/10` with truncating division is non-negative, strictly below `d`, and within one unit of nine tenths of `d` |
| ChatClient.PingPeriodInsidePongWait | server/chat/client.go:12-24 | the ping period is 54 s and lies strictly between 0 and the 60 s pong wait, as the comment on `pingPeriod` requires; the largest intermediate product, `PongWait * 9`, stays within the int64 range |
| ChatClient.Client.constructor | server/chat/client.go:161-166 | a new client has the given name and queue capacity, an empty queue, and an open channel |
| ChatClient.Group.constructor | server/chat/hub.go:32 | the group starts with its name and no members |
| ChatClient.Group.Add | server/chat/client.go:56-58 | the client is appended at the end: the length grows by one and earlier members keep their places |
| ChatClient.SelectIdentity | server/chat/client.go:149-160 | no identity without a `user` cookie, even when a `User` header is present; otherwise a non-empty header wins and the cookie value is used when the header is empty |
| ChatHub.Hub.constructor | server/chat/hub.go:21-33 | `NewHub` starts with an empty registry; the hub's group is "test group" and starts empty; the hub invariant holds |
| ChatHub.Joined | server/chat/hub.go:48-52 | the join notice to `to` comes from the newcomer's name, has neither channel type, and its text starts with that name |
| ChatHub.Left | server/chat/hub.go:70-74 | the leave notice to `to` comes from the departing name, has neither channel type, and its text starts with that name |
| ChatHub.Hub.Register | server/chat/hub.go:38-54 | registry becomes `old[c.name := c]`, overwriting a client with that name; `c` is appended to the group; every old member with another name gets exactly one `Joined` notice (from `c.name`, to the member, "… joined the group", empty channel type); `c` and same-named members get nothing; panics exactly when a notified member's queue is closed; keeps the hub invariant |
| ChatHub.Announce | server/chat/hub.go:46-54 | the register loop: one `Joined` notice to each distinct member with another name, none to the others; panics exactly when such a member's queue is closed; no `closed` flag changes |
| ChatHub.Hub.Unregister | server/chat/hub.go:62-78 | deletes `c.name` and no other key; closes `c`'s queue only if the name was registered, panicking if it was already closed; then the group ends as `AsWritten` says, each member receiving one `Left` notice per occurrence in its notified list; panics exactly on a double close, the slice-bounds panic, or a notice to a closed queue; keeps the hub invariant when it does not panic |
| ChatHub.Hub.RemoveFromGroup | server/chat/hub.go:68-78 | the group loop ends with the slice `AsWritten(...).remaining`, panics exactly as `AsWritten` and the closed flags say, gives every member `Repeat(Left, count in notified)` and nothing to members with the departing name, and changes no `closed` flag |
| ChatHub.SweepGroup | server/chat/hub.go:68-78 | the loop over the backing array ends in `AsWritten(s, x)`: the panic condition and the remaining slice agree with it, and the notices sent are those of its notified list |
| ChatHub.Visit | server/chat/hub.go:69-77 | one iteration keeps the loop invariant `Sweep` (array equals the modelled backing array, rest of the loop ends in the same outcome, notices so far recorded) or panics only where the outcome says |
| ChatHub.VisitOther | server/chat/hub.go:69-74 | a member with another name gets one `Left` notice, or the send panics on a closed queue, which the outcome then reports |
| ChatHub.VisitMatch | server/chat/hub.go:75-76 | a member with the departing name is removed by the in-place shift, or `s[i+1:]` is past the slice and the outcome is the slice-bounds panic |
| ChatHub.RemoveAt | server/chat/hub.go:76 | `append(s[:k], s[k+1:]...)` moves the elements after `k` one place left in the backing array and leaves the slots from `len - 1` on as they were |
| ChatHub.NotifyMember | server/chat/hub.go:70-74 | sending one `Left` notice to an open member extends the record of notices by exactly that member |
| ChatHub.NoticesRepeat | server/chat/hub.go:68-74 | the notices a member receives over the loop are one `Left` message per occurrence of that member among the notified |
| ChatHub.Hub.Route | server/chat/hub.go:80-91 | a "group" message goes exactly once to every member whose name differs from `from` and to no one else; a "user" message goes only to `clients[to]`, and only if that key exists; any other channel type changes nothing; registry and group never change; panics exactly on a send to a closed queue |
| ChatHub.Hub.GetUsers | server/chat/hub.go:96-102 | one name per registry entry, exactly the registered names, no duplicates |
| ChatHub.ServeWs | server/chat/client.go:139-173 | no client when the upgrade fails or the `user` cookie is missing, and then nothing changes; otherwise a fresh client with the selected name, capacity 256, an empty open queue, registered once with the effects of `Register`; in both cases no member's `closed` flag changes |
| Departure.LoopBounds | server/chat/hub.go:68-78 | `LoopFrom`, the range loop step by step from index `k` over the backing array: if it ends without the slice-bounds panic, the slice is no longer than its current length and at most one notice is sent per remaining index |
| Departure.AsWritten | server/chat/hub.go:68-78 | the unregister loop as written on group slice `s`: if it ends without the slice-bounds panic, the new slice is no longer than `s` and at most `|s|` notices were sent |
| Departure.Shifted | server/chat/hub.go:76 | the backing array after one in-place removal: the prefix before `k` kept, the elements up to `len` moved left, the later slots untouched, and the new slice is the old one without index `k` |
| Departure.NameAbsent | server/chat/hub.go:68-78 | with no member of the departing name the loop notifies every member once in order, keeps the group, and agrees with the intended loop |
| Departure.SoleHolder | server/chat/hub.go:68-78 | with one member of the departing name at `i`: the group loses just that member; if `i >= n-2` every other member is notified once in order; if `i <= n-3` the notified list is `s[..i] + s[i+2..] + [s[n-1]]` |
| Departure.SoleHolderRun | server/chat/hub.go:68-78 | the run behind `SoleHolder`: members before `i` are notified, the holder is removed, the rest of the range reads the shifted backing array |
| Departure.LateHolderAsIntended | server/chat/hub.go:68-78 | a sole holder at one of the last two places: the loop as written equals the intended loop |
| Departure.EarlyHolderSkipsAndDoubles | server/chat/hub.go:68-78 | a sole holder at `i <= n-3` among distinct members: the member at `i+1` gets no notice and the last member two, where the intended loop sends each one; the new group is the intended one |
| Departure.AdjacentHoldersOneStays | server/chat/hub.go:68-78 | for group `[a, b, y]` with `a` and `b` holding the departing name, `b` stays in the group and `y` is notified twice; the intended loop leaves `[y]` and notifies `y` once |
| Departure.SharedNameAtEndPanics | server/chat/hub.go:68-78 | two members of the departing name, one of them last: the loop as written panics with slice bounds out of range, where the intended loop removes both |
| Departure.StaleLastPanics | server/chat/hub.go:76 | once a removal has shortened the slice, a holder of the name in the last backing slot is read past the slice's end and its removal panics |
| Departure.FirstRemovalThenPanics | server/chat/hub.go:68-78 | from any point with a holder still ahead and one in the last slot, the loop panics |
| Departure.SkipUnmatched | server/chat/hub.go:69-74 | a stretch of members without the departing name is notified in order and nothing else changes |
| Departure.AsWrittenKeepsOthers | server/chat/hub.go:68-78 | whatever the group, a loop that ends normally notifies only members of the group without the departing name, and its new slice keeps each such member as often as before and adds none |
| Departure.IntendedNotifiesEachOnce | server/chat/hub.go:68-78 | the corrected loop on distinct members never panics, sends exactly one notice to each member without the departing name and none to any other client, and leaves exactly those members |
| Departure.OthersCount | server/chat/hub.go:68-78 | the corrected loop's member list keeps each member without the departing name as often as it occurs and drops the others |
| Departure.OthersMembership | server/chat/hub.go:68-78 | the corrected loop keeps only group members without the name, and keeps the whole group exactly when no member has it |
| ChatPumps.ReadActions | server/chat/client.go:65-89 | the reference behaviour of `readPump`: at most one action per frame plus one, and a connection close only as the last action |
| ChatPumps.ReadPump | server/chat/client.go:65-89 | the read loop produces exactly `ReadActions(frames)` |
| ChatPumps.ReadForwardsInOrder | server/chat/client.go:73-88 | each decoded message before the first failing frame is forwarded unchanged, `from` included, and in read order; after the failing frame come exactly one unregister and one connection close; nothing else is produced |
| ChatPumps.ReadUnregistersOnce | server/chat/client.go:66-69 | the client is unregistered exactly once if a frame ends the loop, and never while the loop still runs |
| ChatPumps.ReadIgnoresLater | server/chat/client.go:74-86 | once a read or decode error has ended the loop, later frames change nothing |
| ChatPumps.DecodedRun | server/chat/client.go:73-88 | the index of the first frame that ends the read loop: every earlier frame decodes and that one does not |
| ChatPumps.Transmitted | server/chat/client.go:96-136 | the reference behaviour of `writePump`: at most one frame per event, and exactly one per event while the loop still runs |
| ChatPumps.WritePump | server/chat/client.go:96-136 | the write loop produces exactly `Transmitted(events)`: the frames written and whether it returned |
| ChatPumps.WritesInDequeueOrder | server/chat/client.go:104-128 | the text frames carry the dequeued messages in dequeue order: all of them while the loop runs, a prefix once it has returned |
| ChatPumps.WrittenUntilReturn | server/chat/client.go:104-128 | when the loop returns at the first closed-queue event or failed write, it has stopped and its text frames are exactly the messages dequeued before that event, in dequeue order |
| ChatPumps.CloseIsLast | server/chat/client.go:104-110 | a close frame is written only as the last frame of a returned loop, and exactly when the queue is found closed before any write fails and the close frame's own write succeeds (its error is otherwise ignored) |

## Left out

- JSON encoding and decoding of `Message` (`encoding/json`) is a library call. A frame arrives in the model already decoded, or marked as malformed.
- WebSocket transport (gorilla/websocket) is not visible:
  - not modelled: the upgrade itself, the read limit, deadlines, the pong handler and the upgrader's buffer sizes;
  - ping and close frames appear only as abstract frames in `ChatPumps`;
  - the success of the upgrade is a parameter of `ServeWs`.
- Goroutines and channels are not modelled as concurrency:
  - each hub handler is the sequential effect of one event;
  - `Run`'s `select` loop is the choice of which handler method to call;
  - the `register`, `unregister` and `broadcast` channels are that dispatch.
- Queue capacity: queues are unbounded, so a send onto a full queue (256 messages) does not block. The capacity is kept in `Client.capacity` only.
- Logging, `time.Now()` and the ticker's timing are left out. A tick is an event in `ChatPumps.Outbound`.
- `server/main.go` (`serveHome`, `listUsers`, `main`) is HTTP plumbing and is not part of this model.
- The commented-out message history (`server/chat/hub.go:31`, `56-61`; `server/chat/client.go:124`) is not live code.
- ChatHub.Hub.Unregister: after a panic the model states only which flags and registry entries changed, not the queues, since the process ends there.
- ChatHub.Hub.Register: requires that `c` is not already in the group. Its only caller, `ServeWs`, always passes a fresh client.
- ChatPumps.WritePump: two simplifications.
  - A failed `NextWriter` or writer `Close` counts as no frame written, although with a failing `Close` part of the frame may have reached the peer.
  - `json.Marshal` of four strings cannot fail, so its error branch is folded into the same `written` flag.
- ChatPumps.ReadPump: whether a read error is an "unexpected close" only decides what is logged, so all read errors are one `ReadFailed` event.
- ChatHub.Hub.GetUsers: Go's map iteration order is unspecified, and so is the order of the result.
- ChatHub.Hub.GetUsers: it is called from the HTTP handler goroutine (`server/main.go:30`) with no synchronisation with `Run`. The sequential model leaves out this concurrent read of the map while `Run` writes it.

## Findings

| source | as written | input that shows it | evidently intended | confidence | as-written member | corrected member |
|---|---|---|---|---|---|---|
| server/chat/hub.go:68-78 | the unregister loop removes from `group.clients` while ranging over it, so the range reads the shifted backing array | group `[a, b, c]` with distinct names; unregister `a`: `b` gets no "left" notice and `c` gets two | every remaining member gets exactly one notice | high; not executed | Departure.EarlyHolderSkipsAndDoubles | Departure.IntendedNotifiesEachOnce |
| server/chat/hub.go:76 | after one removal, the last backing slot still holds a member with the departing name, and `s[index+1:]` is past the shortened slice | two tabs with the same `user` cookie give group `[alice1, alice2]`; either unregisters: slice bounds out of range, and the server process panics | both members named alice are removed, no panic | high; not executed | Departure.SharedNameAtEndPanics | Departure.IntendedNotifiesEachOnce |
| server/chat/hub.go:68-78 | a member right after a removed one is skipped even when it holds the departing name | group `[alice1, alice2, bob]`; `alice2` unregisters and its queue is closed: `alice1` is removed, `alice2` stays in the group and `bob` gets two notices; bob's next "group" message is sent on alice2's closed queue and panics | every member with the departing name leaves the group | high; not executed | Departure.AdjacentHoldersOneStays | Departure.IntendedNotifiesEachOnce |

The hub model keeps the loop as written (`ChatHub.Hub.Unregister` is proved
against `Departure.AsWritten`). `Departure.Intended` is the corrected loop,
and `Departure.NameAbsent` and `Departure.LateHolderAsIntended` give the
conditions under which the two coincide.
