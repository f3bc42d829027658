// The hub of server/chat/hub.go: the registry of clients by name, the
// broadcast group, and the three cases of its event loop, each run to
// completion before the next event is taken. `ServeWs` of
// server/chat/client.go creates a client and hands it to the hub.
//
// A Go panic inside the event loop ends the whole process. Each handler
// reports one as `panicked`; after a panic the model promises nothing about
// the queues, since nothing reads them any more.
module ChatHub {
  import opened ChatClient
  import opened Departure

  /** The notice sent to `to` when `name` joins the group: it comes from
      `name`, belongs to neither channel type, and its text starts with the name. */
  function Joined(name: string, to: string): (m: Message)
    ensures m.from == name && m.to == to && m.channelType == []
    ensures name <= m.content
  {
    Message(name, to, name + " joined the group", "")
  }

  /** The notice sent to `to` when `name` leaves the group: it comes from
      `name`, belongs to neither channel type, and its text starts with the name. */
  function Left(name: string, to: string): (m: Message)
    ensures m.from == name && m.to == to && m.channelType == []
    ensures name <= m.content
  {
    Message(name, to, name + " left the group", "")
  }

  /** `k` copies of one message. */
  function Repeat(m: Message, k: nat): (r: seq<Message>)
    ensures |r| == k && forall i :: 0 <= i < k ==> r[i] == m
  {
    seq(k, _ => m)
  }

  class Hub {
    /** Registered clients, by name. */
    var clients: map<string, Client>
    /** The single group every registered client joins. */
    const group: Group

    /** Every key is the name of the client stored under it, every registered
        client is in the group, and no client is in the group twice. */
    ghost predicate Valid()
      reads this, group
    {
      && (forall name :: name in clients ==> clients[name].name == name)
      && (forall name :: name in clients ==> clients[name] in group.clients)
      && Distinct(group.clients)
    }

    /** `NewHub`, with the group "test group" made here rather than as a
        package-level variable. */
    constructor ()
      ensures Valid() && fresh(group)
      ensures clients == map[]
      ensures group.name == "test group" && group.clients == []
    {
      clients := map[];
      group := new Group("test group");
    }

    /** The register case: store `c` under its name, replacing any client
        already stored under it, append `c` to the group and send every member
        with another name a "joined" notice. */
    method Register(c: Client) returns (panicked: bool)
      requires Valid() && c !in group.clients
      modifies this, group, group.clients, c
      ensures Valid()
      ensures clients == old(clients)[c.name := c]
      ensures group.clients == old(group.clients) + [c]
      ensures panicked <==> exists m :: m in old(group.clients) && m.name != c.name && m.closed
      ensures !panicked ==> forall m :: m in old(group.clients) ==>
        m.send == old(m.send) + if m.name != c.name then [Joined(c.name, m.name)] else []
      ensures c.send == old(c.send) && c.closed == old(c.closed)
      ensures forall m :: m in old(group.clients) ==> m.closed == old(m.closed)
    {
      clients := clients[c.name := c];
      group.Add(c);
      panicked := Announce(group.clients, c.name);
    }

    /** The unregister case. If `c`'s name is registered, the entry under it
        is deleted and `c`'s queue is closed (closing it a second time panics).
        Then the group loop runs as written: see `Departure.AsWritten`. */
    method Unregister(c: Client) returns (panicked: bool)
      requires Valid()
      modifies this, group, group.clients, c
      ensures !panicked ==> Valid()
      ensures clients == old(clients) - {c.name}
      ensures c.name in old(clients) && old(c.closed) ==> panicked
      ensures c.name in old(clients) && !old(c.closed) ==> c.closed
      ensures c.name !in old(clients) ==> c.closed == old(c.closed)
      ensures forall m :: m in old(group.clients) && m != c ==> m.closed == old(m.closed)
      ensures panicked <==>
        || (c.name in old(clients) && old(c.closed))
        || AsWritten(old(group.clients), c.name).OutOfRange?
        || exists m :: m in AsWritten(old(group.clients), c.name).notified && m.closed
      ensures !panicked ==> group.clients == AsWritten(old(group.clients), c.name).remaining
      ensures !panicked ==> forall m :: m in old(group.clients) ==>
        m.send == old(m.send) + Repeat(Left(c.name, m.name), multiset(AsWritten(old(group.clients), c.name).notified)[m])
      ensures c.send == old(c.send)
    {
      var x := c.name;
      if x in clients {
        clients := clients - {x};
        if c.closed {
          // a close of a closed channel
          return true;
        }
        c.closed := true;
      }
      AsWrittenKeepsOthers(group.clients, x);
      panicked := RemoveFromGroup(x);
      if !panicked {
        DistinctSub(old(group.clients), group.clients);
        forall name | name in clients ensures clients[name] in group.clients {
          assert multiset(old(group.clients))[clients[name]] > 0;
        }
      }
    }

    /** The group loop of the unregister case, for a departing client named
        `x`: it ends as `AsWritten` says, the notices it sends are one `Left`
        notice per entry of that outcome's `notified`, and only the queues
        change. */
    method RemoveFromGroup(x: string) returns (panicked: bool)
      modifies group, group.clients
      ensures panicked <==>
        || AsWritten(old(group.clients), x).OutOfRange?
        || exists m :: m in AsWritten(old(group.clients), x).notified && m.closed
      ensures !panicked ==> group.clients == AsWritten(old(group.clients), x).remaining
      ensures !panicked ==> forall m :: m in old(group.clients) ==>
        m.send == old(m.send) + Repeat(Left(x, m.name), multiset(AsWritten(old(group.clients), x).notified)[m])
      ensures forall m :: m in old(group.clients) ==> m.closed == old(m.closed)
      ensures forall m :: m in old(group.clients) && m.name == x ==> m.send == old(m.send)
    {
      var s := group.clients;
      ghost var sent: map<Client, seq<Message>> := map m: Client | m in s :: m.send;
      ghost var closed: map<Client, bool> := map m: Client | m in s :: m.closed;
      var rest: seq<Client>;
      ghost var notified: seq<Client>;
      panicked, rest, notified := SweepGroup(s, x, sent, closed);
      NotifiedSends(s, x, notified, sent, closed);
      if !panicked {
        group.clients := rest;
      }
    }

    /** The broadcast case. A "group" message goes to every member whose name
        differs from its `from`; a "user" message goes to the client registered
        under its `to`, if there is one; any other channel type goes nowhere.
        No queue outside the group changes, and neither does the registry or
        the group. */
    method Route(message: Message) returns (panicked: bool)
      requires Valid()
      modifies group.clients
      ensures clients == old(clients) && group.clients == old(group.clients)
      ensures forall m :: m in group.clients ==> m.closed == old(m.closed)
      ensures message.channelType == "group" ==>
        (panicked <==> exists m :: m in group.clients && m.name != message.from && m.closed)
      ensures message.channelType == "group" && !panicked ==> forall m :: m in group.clients ==>
        m.send == old(m.send) + if m.name != message.from then [message] else []
      ensures message.channelType == "user" ==>
        (panicked <==> message.to in clients && clients[message.to].closed)
      ensures message.channelType == "user" && !panicked ==> forall m :: m in group.clients ==>
        m.send == old(m.send) + if message.to in clients && m == clients[message.to] then [message] else []
      ensures message.channelType != "group" && message.channelType != "user" ==>
        !panicked && forall m :: m in group.clients ==> m.send == old(m.send)
    {
      var s := group.clients;
      if message.channelType == "group" {
        for i := 0 to |s|
          invariant forall m :: m in s ==> m.closed == old(m.closed)
          invariant forall j :: 0 <= j < i && s[j].name != message.from ==> !s[j].closed
          invariant forall j :: 0 <= j < |s| ==>
            s[j].send == old(s[j].send) + if j < i && s[j].name != message.from then [message] else []
        {
          var member := s[i];
          if member.name != message.from {
            if member.closed {
              // a send on a closed channel
              return true;
            }
            member.send := member.send + [message];
          }
        }
        assert forall m :: m in s ==> exists j :: 0 <= j < |s| && s[j] == m;
      } else if message.channelType == "user" {
        if message.to in clients {
          var recipient := clients[message.to];
          if recipient.closed {
            // a send on a closed channel
            return true;
          }
          recipient.send := recipient.send + [message];
        }
      }
      return false;
    }

    /** The names of the registered clients, one per entry, in the map's
        (unspecified) iteration order. */
    method GetUsers() returns (users: seq<string>)
      requires Valid()
      ensures |users| == |clients|
      ensures forall u :: u in users <==> u in clients
      ensures forall i, j :: 0 <= i < j < |users| ==> users[i] != users[j]
    {
      users := [];
      var rest := clients.Keys;
      while rest != {}
        invariant rest <= clients.Keys
        invariant forall u :: u in users <==> u in clients && u !in rest
        invariant forall i, j :: 0 <= i < j < |users| ==> users[i] != users[j]
        invariant |users| + |rest| == |clients|
      {
        var name :| name in rest;
        users := users + [clients[name].name];
        rest := rest - {name};
      }
    }
  }

  /** The group loop of the register case: a `Joined` notice for `name` to
      every member of `s` with another name, in order; a send to a closed
      queue panics. */
  method Announce(s: seq<Client>, name: string) returns (panicked: bool)
    requires Distinct(s)
    modifies s
    ensures forall m :: m in s ==> m.closed == old(m.closed)
    ensures forall m :: m in s && m.name == name ==> m.send == old(m.send)
    ensures panicked <==> exists m :: m in s && m.name != name && m.closed
    ensures !panicked ==> forall m :: m in s ==>
      m.send == old(m.send) + if m.name != name then [Joined(name, m.name)] else []
  {
    for i := 0 to |s|
      invariant forall m :: m in s ==> m.closed == old(m.closed)
      invariant forall j :: 0 <= j < i && s[j].name != name ==> !s[j].closed
      invariant forall j :: 0 <= j < |s| ==>
        s[j].send == old(s[j].send) + if j < i && s[j].name != name then [Joined(name, s[j].name)] else []
    {
      var member := s[i];
      if member.name != name {
        if member.closed {
          // a send on a closed channel
          return true;
        }
        member.send := member.send + [Joined(name, member.name)];
      }
    }
    assert forall m :: m in s ==> exists j :: 0 <= j < |s| && s[j] == m;
    return false;
  }

  /** The unregister loop over the group's slice `s`. The array `a` is the
      slice's backing array and `len` its current length; the loop runs over
      the original length, reading `a` as the removals shift it. The result
      is the slice the loop leaves. */
  method SweepGroup(s: seq<Client>, x: string, ghost sent: map<Client, seq<Message>>, ghost closed: map<Client, bool>)
    returns (panicked: bool, rest: seq<Client>, ghost notified: seq<Client>)
    requires Notified(s, x, [], sent, closed)
    modifies s
    ensures Notified(s, x, notified, sent, closed)
    ensures panicked <==> Crashes(AsWritten(s, x), closed)
    ensures !panicked ==> AsWritten(s, x) == Done(notified, rest)
  {
    var a := Backing(s, x, sent, closed);
    var len: nat := |s|;
    notified := [];
    var k: nat := 0;
    ghost var buf := s;
    ghost var result := AsWritten(s, x);
    while k < |s|
      invariant Sweep(s, x, a, buf, len, k, notified, result, sent, closed)
      decreases |s| - k
    {
      panicked, len, buf, notified := Visit(s, x, a, k, len, buf, notified, result, sent, closed);
      if panicked {
        return panicked, [], notified;
      }
      k := k + 1;
    }
    rest := Finish(s, x, a, buf, len, notified, result, sent, closed);
    panicked := false;
  }

  /** The backing array at the start of the loop: it holds the slice `s`,
      and nothing has been sent yet. */
  method Backing(s: seq<Client>, x: string, ghost sent: map<Client, seq<Message>>, ghost closed: map<Client, bool>)
    returns (a: array<Client>)
    requires Notified(s, x, [], sent, closed)
    ensures fresh(a) && a[..] == s
    ensures Sweep(s, x, a, s, |s|, 0, [], AsWritten(s, x), sent, closed)
  {
    a := new Client[|s|](j requires 0 <= j < |s| => s[j]);
  }

  /** One iteration of the loop, at range index `k`. */
  method Visit(s: seq<Client>, x: string, a: array<Client>, k: nat, len: nat, ghost buf: seq<Client>,
               ghost notified: seq<Client>, ghost result: Outcome,
               ghost sent: map<Client, seq<Message>>, ghost closed: map<Client, bool>)
    returns (panicked: bool, len': nat, ghost buf': seq<Client>, ghost notified': seq<Client>)
    requires Sweep(s, x, a, buf, len, k, notified, result, sent, closed) && k < |s|
    modifies a, s
    ensures Notified(s, x, notified', sent, closed)
    ensures panicked ==> Crashes(result, closed)
    ensures !panicked ==> Sweep(s, x, a, buf', len', k + 1, notified', result, sent, closed)
  {
    if a[k].name != x {
      panicked, notified' := VisitOther(s, x, a, k, len, buf, notified, result, sent, closed);
      len', buf' := len, buf;
    } else {
      panicked, len', buf' := VisitMatch(s, x, a, k, len, buf, notified, result, sent, closed);
      notified' := notified;
    }
  }

  /** The slice the finished loop leaves: the first `len` slots of the
      backing array. */
  method Finish(s: seq<Client>, x: string, a: array<Client>, ghost buf: seq<Client>, len: nat,
                ghost notified: seq<Client>, ghost result: Outcome,
                ghost sent: map<Client, seq<Message>>, ghost closed: map<Client, bool>)
    returns (rest: seq<Client>)
    requires Sweep(s, x, a, buf, len, |s|, notified, result, sent, closed)
    ensures result == Done(notified, rest) && !Crashes(result, closed)
  {
    rest := a[..len];
    assert rest == buf[..len];
  }

  /** The `Left` notices that sending one to each entry of `notified`, in
      order, puts in the queue of `m`. */
  function Notices(x: string, m: Client, notified: seq<Client>): seq<Message>
  {
    if notified == [] then []
    else Notices(x, m, notified[..|notified| - 1]) + if notified[|notified| - 1] == m then [Left(x, m.name)] else []
  }

  /** A member receives one notice per occurrence in `notified`. */
  lemma {:induction false} NoticesRepeat(x: string, m: Client, notified: seq<Client>)
    ensures Notices(x, m, notified) == Repeat(Left(x, m.name), multiset(notified)[m])
  {
    if notified != [] {
      var init: seq<Client> := notified[..|notified| - 1];
      var last: Client := notified[|notified| - 1];
      assert notified == init + [last];
      NoticesRepeat(x, m, init);
      if last == m {
        RepeatOneMore(Left(x, m.name), multiset(init)[m]);
      }
    }
  }

  /** The queues of `Notified` in terms of the number of notices. */
  lemma NotifiedSends(s: seq<Client>, x: string, notified: seq<Client>,
                      sent: map<Client, seq<Message>>, closed: map<Client, bool>)
    requires Notified(s, x, notified, sent, closed)
    ensures forall m :: m in s ==> m.send == sent[m] + Repeat(Left(x, m.name), multiset(notified)[m])
    ensures forall m :: m in s && m.name == x ==> m.send == sent[m]
  {
    forall m | m in s
      ensures m.send == sent[m] + Repeat(Left(x, m.name), multiset(notified)[m])
      ensures m.name == x ==> multiset(notified)[m] == 0
    {
      NoticesRepeat(x, m, notified);
      if multiset(notified)[m] > 0 {
        assert m in notified;
      }
    }
  }

  /** `Left` notices sent to the members of `s` so far: each member has its
      queue as it was (`sent`) plus one notice per occurrence in `notified`,
      its `closed` flag as it was, and every notified member has an open
      queue and a name other than `x`. */
  ghost predicate Notified(s: seq<Client>, x: string, notified: seq<Client>,
                           sent: map<Client, seq<Message>>, closed: map<Client, bool>)
    reads s
  {
    && (forall i :: 0 <= i < |s| ==> s[i] in sent && s[i].send == sent[s[i]] + Notices(x, s[i], notified))
    && (forall i :: 0 <= i < |s| ==> s[i] in closed && s[i].closed == closed[s[i]])
    && (forall j :: 0 <= j < |notified| ==> notified[j] in s && notified[j].name != x && !notified[j].closed)
  }

  /** The send of one "left" notice to a member of the group. */
  method NotifyMember(s: seq<Client>, x: string, member: Client, ghost notified: seq<Client>,
                             ghost sent: map<Client, seq<Message>>, ghost closed: map<Client, bool>)
    returns (ghost notified': seq<Client>)
    requires member in s && member.name != x && !member.closed
    requires Notified(s, x, notified, sent, closed)
    modifies member
    ensures notified' == notified + [member]
    ensures Notified(s, x, notified', sent, closed)
  {
    assert (notified + [member])[..|notified|] == notified;
    member.send := member.send + [Left(x, member.name)];
    notified' := notified + [member];
  }

  /** Whether a loop that ends in `o` panics, given the `closed` flags of
      the members: by the slice-bounds panic, or by a send to a member whose
      queue is closed. */
  ghost predicate Crashes(o: Outcome, closed: map<Client, bool>)
  {
    o.OutOfRange? || exists m :: m in o.notified && m in closed && closed[m]
  }

  /** The unregister loop at range index `k`: the array `a` holds the backing
      array `buf` of the group's slice, whose current length is `len`; the
      rest of the loop ends in `result`; and the notices sent so far are those
      of `notified`. */
  ghost predicate Sweep(s: seq<Client>, x: string, a: array<Client>, buf: seq<Client>, len: nat, k: nat,
                        notified: seq<Client>, result: Outcome,
                        sent: map<Client, seq<Message>>, closed: map<Client, bool>)
    reads a, s
  {
    && |s| == a.Length == |buf| && k <= |s| && len <= |s|
    && (forall p :: 0 <= p < |s| ==> a[p] == buf[p] && buf[p] in s)
    && LoopFrom(buf, len, k, x, notified) == result
    && Notified(s, x, notified, sent, closed)
  }

  /** One iteration at a member not named `x`: the send of its notice, which
      panics when its queue is already closed. */
  method VisitOther(s: seq<Client>, x: string, a: array<Client>, k: nat, len: nat, ghost buf: seq<Client>,
                    ghost notified: seq<Client>, ghost result: Outcome,
                    ghost sent: map<Client, seq<Message>>, ghost closed: map<Client, bool>)
    returns (panicked: bool, ghost notified': seq<Client>)
    requires Sweep(s, x, a, buf, len, k, notified, result, sent, closed)
    requires k < |s| && a[k].name != x
    modifies s
    ensures Notified(s, x, notified', sent, closed)
    ensures panicked ==> Crashes(result, closed)
    ensures !panicked ==> Sweep(s, x, a, buf, len, k + 1, notified', result, sent, closed)
  {
    var member := a[k];
    if member.closed {
      // a send on a closed channel
      WillBeNotified(buf, len, k, x, notified);
      return true, notified;
    }
    NotifyStep(buf, len, k, x, notified);
    notified' := NotifyMember(s, x, member, notified, sent, closed);
    panicked := false;
  }

  /** One iteration at a member named `x`: its removal from the slice, which
      panics when `k + 1` is past the slice's current length. */
  method VisitMatch(s: seq<Client>, x: string, a: array<Client>, k: nat, len: nat, ghost buf: seq<Client>,
                    ghost notified: seq<Client>, ghost result: Outcome,
                    ghost sent: map<Client, seq<Message>>, ghost closed: map<Client, bool>)
    returns (panicked: bool, len': nat, ghost buf': seq<Client>)
    requires Sweep(s, x, a, buf, len, k, notified, result, sent, closed)
    requires k < |s| && a[k].name == x
    modifies a
    ensures panicked ==> result == OutOfRange
    ensures !panicked ==> Sweep(s, x, a, buf', len', k + 1, notified, result, sent, closed)
  {
    if len < k + 1 {
      // s[k+1:] with k + 1 beyond the slice's length
      return true, len, buf;
    }
    buf' := Shifted(buf, k, len);
    RemoveStep(buf, len, k, x, notified);
    RemoveAt(a, k, len, buf);
    len' := len - 1;
    panicked := false;
  }

  /** `append(s[:k], s[k+1:]...)` on a slice of length `len` whose backing
      array is `a`: the elements after `k` move one place left in place. */
  method RemoveAt(a: array<Client>, k: nat, len: nat, ghost buf: seq<Client>)
    requires k < len <= a.Length == |buf|
    requires forall p :: 0 <= p < a.Length ==> a[p] == buf[p]
    modifies a
    ensures forall p :: 0 <= p < a.Length ==> a[p] == Shifted(buf, k, len)[p]
  {
    forall j | k <= j < len - 1 {
      a[j] := a[j + 1];
    }
  }

  lemma RepeatOneMore(m: Message, k: nat)
    ensures Repeat(m, k + 1) == Repeat(m, k) + [m]
  {
  }

  /** A member the loop reaches without a name match is among those the
      finished loop notifies. */
  lemma WillBeNotified(buf: seq<Client>, len: nat, k: nat, x: string, acc: seq<Client>)
    requires len <= |buf| && k < |buf| && buf[k].name != x
    ensures LoopFrom(buf, len, k, x, acc).Done? ==> buf[k] in LoopFrom(buf, len, k, x, acc).notified
  {
    NotifiedExtends(buf, len, k + 1, x, acc + [buf[k]]);
    assert (acc + [buf[k]])[|acc|] == buf[k];
  }

  /** One step of the loop at a member not named `x`. */
  lemma NotifyStep(buf: seq<Client>, len: nat, k: nat, x: string, acc: seq<Client>)
    requires len <= |buf| && k < |buf| && buf[k].name != x
    ensures LoopFrom(buf, len, k, x, acc) == LoopFrom(buf, len, k + 1, x, acc + [buf[k]])
  {
  }

  /** One step of the loop at a member named `x` inside the slice. */
  lemma RemoveStep(buf: seq<Client>, len: nat, k: nat, x: string, acc: seq<Client>)
    requires k < len <= |buf| && buf[k].name == x
    ensures LoopFrom(buf, len, k, x, acc) == LoopFrom(Shifted(buf, k, len), len - 1, k + 1, x, acc)
  {
  }

  /** The notices sent so far are a prefix of those the finished loop sends. */
  lemma {:induction false} NotifiedExtends(buf: seq<Client>, len: nat, k: nat, x: string, acc: seq<Client>)
    requires len <= |buf|
    ensures LoopFrom(buf, len, k, x, acc).Done? ==> acc <= LoopFrom(buf, len, k, x, acc).notified
    decreases |buf| - k
  {
    if k < |buf| {
      if buf[k].name != x {
        NotifiedExtends(buf, len, k + 1, x, acc + [buf[k]]);
      } else if len >= k + 1 {
        NotifiedExtends(Shifted(buf, k, len), len - 1, k + 1, x, acc);
      }
    }
  }

  /** `ServeWs` after the upgrade: without a `user` cookie nothing happens;
      otherwise a client with the selected identity and an empty queue of
      capacity 256 is created and registered once. `upgraded` says whether the
      WebSocket upgrade succeeded. */
  method ServeWs(hub: Hub, upgraded: bool, header: string, cookie: Option<string>)
    returns (client: Client?, panicked: bool)
    requires hub.Valid()
    modifies hub, hub.group, hub.group.clients
    ensures hub.Valid()
    ensures client == null <==> !upgraded || SelectIdentity(header, cookie).None?
    ensures client == null ==> !panicked && hub.clients == old(hub.clients) && hub.group.clients == old(hub.group.clients)
    ensures client == null ==> forall m :: m in old(hub.group.clients) ==> m.send == old(m.send)
    ensures forall m :: m in old(hub.group.clients) ==> m.closed == old(m.closed)
    ensures client != null ==>
      && fresh(client)
      && client.name == SelectIdentity(header, cookie).value
      && client.capacity == SendBufferSize
      && client.send == [] && !client.closed
      && hub.clients == old(hub.clients)[client.name := client]
      && hub.group.clients == old(hub.group.clients) + [client]
      && (panicked <==> exists m :: m in old(hub.group.clients) && m.name != client.name && m.closed)
      && (!panicked ==> forall m :: m in old(hub.group.clients) ==>
            m.send == old(m.send) + if m.name != client.name then [Joined(client.name, m.name)] else [])
  {
    if !upgraded {
      return null, false;
    }
    var name := SelectIdentity(header, cookie);
    if name.None? {
      return null, false;
    }
    client := new Client(name.value, SendBufferSize);
    panicked := hub.Register(client);
  }
}
