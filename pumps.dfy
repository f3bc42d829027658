// The two per-connection loops of server/chat/client.go with the socket
// taken out: `readPump` consumes what the connection delivers and
// `writePump` consumes what happens on the client's queue and its ticker.
// Each is a loop over a finite sequence of such happenings; a sequence that
// runs out before the loop stops stands for a loop still blocked waiting.
module ChatPumps {
  import opened ChatClient

  // ---- readPump ----

  /** One `ReadMessage` followed by `json.Unmarshal`: a decoded message, a
      frame that does not decode, or a read error (the peer's close included). */
  datatype Inbound = Decoded(msg: Message) | Malformed | ReadFailed

  /** What `readPump` does towards the hub and the connection. */
  datatype Action = Broadcast(msg: Message) | Unregister | CloseConnection

  /** The reference behaviour of `readPump`: every decoded message goes to
      the hub as it is; the first frame that is not one ends the loop, after
      which the deferred calls unregister the client and close the connection. */
  function ReadActions(frames: seq<Inbound>): (r: seq<Action>)
    ensures |r| <= |frames| + 1
    ensures forall i :: 0 <= i < |r| && r[i] == CloseConnection ==> i == |r| - 1
  {
    if frames == [] then []
    else match frames[0]
      case Decoded(m) => [Broadcast(m)] + ReadActions(frames[1..])
      case _ => [Unregister, CloseConnection]
  }

  /** Whether some frame ends the read loop. */
  predicate ReadStops(frames: seq<Inbound>)
  {
    exists i :: 0 <= i < |frames| && !frames[i].Decoded?
  }

  /** The number of frames before the first one that ends the read loop. */
  function DecodedRun(frames: seq<Inbound>): (k: nat)
    ensures k <= |frames|
    ensures forall i :: 0 <= i < k ==> frames[i].Decoded?
    ensures k < |frames| ==> !frames[k].Decoded?
  {
    if frames == [] || !frames[0].Decoded? then 0 else 1 + DecodedRun(frames[1..])
  }

  /** The read loop. */
  method ReadPump(frames: seq<Inbound>) returns (actions: seq<Action>)
    ensures actions == ReadActions(frames)
  {
    actions := [];
    var i := 0;
    while i < |frames|
      invariant i <= |frames|
      invariant ReadActions(frames) == actions + ReadActions(frames[i..])
    {
      assert frames[i..] == [frames[i]] + frames[i + 1..];
      match frames[i] {
        case Decoded(m) =>
          actions := actions + [Broadcast(m)];
        case _ =>
          // read or decode error: break, then the deferred unregister and close
          return actions + [Unregister, CloseConnection];
      }
      i := i + 1;
    }
  }

  /** `readPump` forwards the decoded messages unchanged and in read order (it
      does not rewrite `from`); once a frame ends the loop it unregisters the
      client and closes the connection, and until then it does neither. */
  lemma {:induction false} ReadForwardsInOrder(frames: seq<Inbound>)
    ensures |ReadActions(frames)| == DecodedRun(frames) + if ReadStops(frames) then 2 else 0
    ensures forall i :: 0 <= i < DecodedRun(frames) ==>
      ReadActions(frames)[i] == Broadcast(frames[i].msg)
    ensures ReadStops(frames) ==>
      ReadActions(frames)[DecodedRun(frames)..] == [Unregister, CloseConnection]
  {
    if frames != [] && frames[0].Decoded? {
      ReadForwardsInOrder(frames[1..]);
      if ReadStops(frames[1..]) {
        var i :| 0 <= i < |frames| - 1 && !frames[1..][i].Decoded?;
        assert !frames[i + 1].Decoded?;
      }
      if ReadStops(frames) {
        var i :| 0 <= i < |frames| && !frames[i].Decoded?;
        assert !frames[1..][i - 1].Decoded?;
      }
    } else if frames != [] {
      assert !frames[0].Decoded?;
    }
  }

  /** The client is unregistered at most once, and exactly once when the
      loop ends. */
  lemma {:induction false} ReadUnregistersOnce(frames: seq<Inbound>)
    ensures multiset(ReadActions(frames))[Unregister] == if ReadStops(frames) then 1 else 0
  {
    if frames != [] && frames[0].Decoded? {
      ReadUnregistersOnce(frames[1..]);
      assert ReadStops(frames) <==> ReadStops(frames[1..]) by {
        if ReadStops(frames[1..]) {
          var i :| 0 <= i < |frames| - 1 && !frames[1..][i].Decoded?;
          assert !frames[i + 1].Decoded?;
        }
        if ReadStops(frames) {
          var i :| 0 <= i < |frames| && !frames[i].Decoded?;
          assert !frames[1..][i - 1].Decoded?;
        }
      }
    } else if frames != [] {
      assert !frames[0].Decoded?;
    }
  }

  /** Nothing delivered after the frame that ends the loop is read. */
  lemma {:induction false} ReadIgnoresLater(frames: seq<Inbound>, later: seq<Inbound>)
    requires ReadStops(frames)
    ensures ReadActions(frames + later) == ReadActions(frames)
  {
    var i :| 0 <= i < |frames| && !frames[i].Decoded?;
    if frames[0].Decoded? {
      assert (frames + later)[1..] == frames[1..] + later;
      assert !frames[1..][i - 1].Decoded?;
      ReadIgnoresLater(frames[1..], later);
    }
  }

  // ---- writePump ----

  /** What the `select` of `writePump` takes next: a message from the queue
      (with `written` false when `NextWriter` or closing the writer fails), the
      queue found closed by the hub (with `written` false when the close frame
      cannot be written, an error the loop ignores), or a ticker tick (with
      `written` false when the ping fails). */
  datatype Outbound = Dequeued(msg: Message, written: bool) | QueueClosed(written: bool) | Tick(written: bool)

  /** A frame put on the wire. */
  datatype WireFrame = Text(msg: Message) | Ping | Close

  /** The frames written, and whether the loop has returned. */
  datatype WriteLog = WriteLog(frames: seq<WireFrame>, stopped: bool)

  /** The reference behaviour of `writePump`: at most one frame per event,
      and one for every event while the loop still runs. */
  function Transmitted(events: seq<Outbound>): (r: WriteLog)
    ensures |r.frames| <= |events|
    ensures !r.stopped ==> |r.frames| == |events|
  {
    if events == [] then WriteLog([], false)
    else match events[0]
      case QueueClosed(written) => WriteLog(if written then [Close] else [], true)
      case Dequeued(m, written) =>
        if !written then WriteLog([], true)
        else var rest := Transmitted(events[1..]); WriteLog([Text(m)] + rest.frames, rest.stopped)
      case Tick(written) =>
        if !written then WriteLog([], true)
        else var rest := Transmitted(events[1..]); WriteLog([Ping] + rest.frames, rest.stopped)
  }

  /** The write loop. */
  method WritePump(events: seq<Outbound>) returns (frames: seq<WireFrame>, stopped: bool)
    ensures WriteLog(frames, stopped) == Transmitted(events)
  {
    frames := [];
    var i := 0;
    while i < |events|
      invariant i <= |events|
      invariant Transmitted(events) == WriteLog(frames + Transmitted(events[i..]).frames, Transmitted(events[i..]).stopped)
    {
      assert events[i..] == [events[i]] + events[i + 1..];
      ghost var rest := Transmitted(events[i + 1..]).frames;
      match events[i] {
        case QueueClosed(written) =>
          // the hub closed the channel: a close frame, its error ignored, then return
          if written {
            return frames + [Close], true;
          }
          return frames, true;
        case Dequeued(m, written) =>
          if !written {
            return frames, true;
          }
          assert frames + [Text(m)] + rest == frames + ([Text(m)] + rest);
          frames := frames + [Text(m)];
        case Tick(written) =>
          if !written {
            return frames, true;
          }
          assert frames + [Ping] + rest == frames + ([Ping] + rest);
          frames := frames + [Ping];
      }
      i := i + 1;
    }
    stopped := false;
  }

  /** The messages of the text frames, in order. */
  function Texts(frames: seq<WireFrame>): seq<Message>
  {
    if frames == [] then []
    else (if frames[0].Text? then [frames[0].msg] else []) + Texts(frames[1..])
  }

  /** The messages taken off the queue, in order. */
  function Dequeues(events: seq<Outbound>): seq<Message>
  {
    if events == [] then []
    else (if events[0].Dequeued? then [events[0].msg] else []) + Dequeues(events[1..])
  }

  /** The text frames carry the dequeued messages in dequeue order: all of
      them while the loop runs, and a prefix of them once it has returned
      (`WrittenUntilReturn` says which prefix). */
  lemma {:induction false} WritesInDequeueOrder(events: seq<Outbound>)
    ensures Texts(Transmitted(events).frames) <= Dequeues(events)
    ensures !Transmitted(events).stopped ==> Texts(Transmitted(events).frames) == Dequeues(events)
  {
    if events != [] {
      WritesInDequeueOrder(events[1..]);
      var rest := Transmitted(events[1..]);
      match events[0]
      case QueueClosed(_) =>
        assert Texts([Close]) == Texts([Close][1..]);
      case Dequeued(m, written) =>
        if written {
          assert ([Text(m)] + rest.frames)[1..] == rest.frames;
        }
      case Tick(written) =>
        if written {
          assert ([Ping] + rest.frames)[1..] == rest.frames;
        }
    }
  }

  /** An event that makes the write loop return: the queue found closed, or
      a write that fails. */
  predicate Ends(e: Outbound)
  {
    e.QueueClosed? || !e.written
  }

  /** When the loop returns at event `j`, every message dequeued before it
      has been written, in dequeue order; a message whose write failed is
      not among them. */
  lemma {:induction false} WrittenUntilReturn(events: seq<Outbound>, j: nat)
    requires j < |events| && Ends(events[j])
    requires forall i :: 0 <= i < j ==> !Ends(events[i])
    ensures Transmitted(events).stopped
    ensures Texts(Transmitted(events).frames) == Dequeues(events[..j])
  {
    if j == 0 {
      assert Texts([Close]) == Texts([Close][1..]);
      assert Texts([]) == [];
    } else {
      assert !Ends(events[0]);
      WrittenUntilReturn(events[1..], j - 1);
      assert events[1..][..j - 1] == events[..j][1..];
      var rest := Transmitted(events[1..]);
      match events[0]
      case Dequeued(m, _) =>
        assert ([Text(m)] + rest.frames)[1..] == rest.frames;
      case Tick(_) =>
        assert ([Ping] + rest.frames)[1..] == rest.frames;
    }
  }

  /** A close frame is written only as the last frame, and exactly when the
      queue is found closed before any write fails and the close frame's own
      write succeeds. */
  lemma {:induction false} CloseIsLast(events: seq<Outbound>)
    ensures forall i :: 0 <= i < |Transmitted(events).frames| && Transmitted(events).frames[i] == Close ==>
      i == |Transmitted(events).frames| - 1 && Transmitted(events).stopped
    ensures Close in Transmitted(events).frames <==> ClosedFirst(events)
  {
    if events != [] {
      CloseIsLast(events[1..]);
      var rest := Transmitted(events[1..]);
      match events[0]
      case QueueClosed(_) =>
      case Dequeued(m, written) =>
        if written {
          assert forall i :: 1 <= i < |rest.frames| + 1 ==> ([Text(m)] + rest.frames)[i] == rest.frames[i - 1];
        }
      case Tick(written) =>
        if written {
          assert forall i :: 1 <= i < |rest.frames| + 1 ==> ([Ping] + rest.frames)[i] == rest.frames[i - 1];
        }
    }
  }

  /** The queue is found closed, and the close frame written, before any
      write has failed. */
  predicate ClosedFirst(events: seq<Outbound>)
  {
    exists j :: 0 <= j < |events| && events[j].QueueClosed? && events[j].written &&
      forall i :: 0 <= i < j ==> !events[i].QueueClosed? && events[i].written
  }
}
