// The data of server/chat/client.go: the message record, a connected client
// with its outbound queue, the broadcast group, the connection timing
// constants and the rule that picks a new connection's identity.
module ChatClient {

  datatype Option<T> = None | Some(value: T)

  /** A chat message: four strings. A client normally sends "user" or
      "group" as `channelType` (any other value goes nowhere); the notices the
      hub makes itself leave it empty. */
  datatype Message = Message(from: string, to: string, content: string, channelType: string)

  // Durations are counted in nanoseconds, as Go's time.Duration counts them.
  const Second: int := 1_000_000_000

  /** Time allowed to write a message to the peer. */
  const WriteWait: int := 10 * Second

  /** Time allowed to read the next pong message from the peer. */
  const PongWait: int := 60 * Second

  /** Period of the keepalive pings; it must be less than PongWait. */
  const PingPeriod: int := NineTenths(PongWait)

  /** Largest message, in bytes, read from the peer. */
  const MaxMessageSize: int := 512

  /** Capacity of the buffered channel that holds a client's outbound messages. */
  const SendBufferSize: nat := 256

  /** Go's `(d * 9) / 10` on a positive duration: integer division truncates,
      and the result is shorter than `d`. */
  function NineTenths(d: int): (p: int)
    requires d > 0
    ensures 0 <= p < d
    ensures 10 * p <= 9 * d < 10 * p + 10
  {
    (d * 9) / 10
  }

  /** The ping period is 54 seconds, strictly inside the 60-second pong wait,
      and the largest intermediate product, `PongWait * 9`, stays within the
      int64 range. */
  lemma PingPeriodInsidePongWait()
    ensures PingPeriod == 54 * Second
    ensures 0 < PingPeriod < PongWait
    ensures PongWait * 9 < 0x8000_0000_0000_0000
  {
  }

  /** A connected client: its identity and its outbound queue. The queue is
      the buffered channel `send`; `closed` records that the hub closed it. */
  class Client {
    const name: string
    const capacity: nat
    /** Every message sent into the channel since the client was created,
        oldest first; the model never takes messages off the queue. */
    var send: seq<Message>
    var closed: bool

    constructor (name: string, capacity: nat)
      ensures this.name == name && this.capacity == capacity
      ensures send == [] && !closed
    {
      this.name := name;
      this.capacity := capacity;
      send := [];
      closed := false;
    }
  }

  /** The broadcast group: a name and an ordered slice of members. */
  class Group {
    const name: string
    var clients: seq<Client>

    constructor (name: string)
      ensures this.name == name && clients == []
    {
      this.name := name;
      clients := [];
    }

    /** Appends a member at the end of the slice. */
    method Add(c: Client)
      modifies this
      ensures clients == old(clients) + [c]
      ensures |clients| == |old(clients)| + 1 && clients[..|old(clients)|] == old(clients)
    {
      clients := clients + [c];
    }
  }

  /** The identity `ServeWs` gives a new connection: without a `user` cookie
      no client is created at all; with one, a non-empty `User` header wins
      and the cookie's value is used otherwise. `header` is what
      `Header.Get("User")` returns, the empty string when the header is absent. */
  function SelectIdentity(header: string, cookie: Option<string>): (name: Option<string>)
    ensures name.None? <==> cookie.None?
    ensures name.Some? ==> name.value == header || name.value == cookie.value
    ensures name.Some? && header != [] ==> name.value == header
    ensures name.Some? && name.value != header ==> header == [] && name.value == cookie.value
    ensures name.Some? && header == [] ==> name.value == cookie.value
  {
    match cookie
    case None => None
    case Some(value) => if |header| > 0 then Some(header) else Some(value)
  }
}
