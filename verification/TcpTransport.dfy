/**
 The stream transport: frames accepted for sending become records on the wire, with what a short write
 leaves behind kept in an outbox; frames received are queued until they are handed out.
 */
module TcpTransport {
  import opened Octets
  import opened StreamFraming
  import SshFramer

  // ----- the socket -----

  datatype ReadResult = Chunk(bytes: Bytes) | Drained | Closed | ReadError

  /** A connected socket: any write may be short or fail, any read may return any part of what has arrived. */
  class Socket {
    /** Everything written. */
    ghost var sent: Bytes
    /** Everything read. */
    ghost var taken: Bytes
    /** What has arrived and is not read yet. */
    var incoming: Bytes
    /** How often a write failed, a write was not taken at all, a read failed or found the stream closed, and a read
        found nothing. */
    ghost var failedWrites: nat
    ghost var refusedWrites: nat
    ghost var failedReads: nat
    ghost var emptyReads: nat

    method Write(bytes: Bytes) returns (n: int)
      modifies this
      ensures -1 <= n <= |bytes|
      ensures sent == old(sent) + if n > 0 then bytes[..n] else []
      ensures taken == old(taken) && incoming == old(incoming)
      ensures failedWrites == old(failedWrites) + if n < 0 then 1 else 0
      ensures refusedWrites == old(refusedWrites) + if n == 0 then 1 else 0
      ensures failedReads == old(failedReads) && emptyReads == old(emptyReads)
    {
      n :| -1 <= n <= |bytes|;
      if n > 0 { sent := sent + bytes[..n]; }
      if n < 0 { failedWrites := failedWrites + 1; }
      if n == 0 { refusedWrites := refusedWrites + 1; }
    }

    method Read(limit: nat) returns (r: ReadResult)
      requires limit > 0
      modifies this
      ensures sent == old(sent)
      ensures taken + incoming == old(taken + incoming)
      ensures r.Chunk? ==> |r.bytes| > 0 && taken == old(taken) + r.bytes && |incoming| < |old(incoming)|
      ensures !r.Chunk? ==> taken == old(taken) && incoming == old(incoming)
      ensures failedReads == old(failedReads) + if r.Closed? || r.ReadError? then 1 else 0
      ensures emptyReads == old(emptyReads) + if r.Drained? then 1 else 0
      ensures failedWrites == old(failedWrites) && refusedWrites == old(refusedWrites)
    {
      if |incoming| == 0 {
        if * {
          emptyReads := emptyReads + 1;
          return Drained;
        }
        failedReads := failedReads + 1;
        if * { return Closed; } else { return ReadError; }
      }
      if * {
        failedReads := failedReads + 1;
        return ReadError;
      }
      var n :| 0 < n <= |incoming| && n <= limit by {
        assert 0 < 1 <= |incoming|;
      }
      r := Chunk(incoming[..n]);
      taken, incoming := taken + incoming[..n], incoming[n..];
    }
  }

  // ----- reassembly -----

  class FrameReassembler {
    const maximum: nat
    var buffer: Bytes
    var consumed: nat
    var violated: bool

    ghost predicate Valid()
      reads this
    {
      consumed <= |buffer|
    }

    ghost function Pending(): (b: Bytes)
      requires Valid()
      reads this
    {
      buffer[consumed..]
    }

    constructor (maximum: nat)
      ensures Valid() && this.maximum == maximum && Pending() == [] && !violated
    {
      this.maximum := maximum;
      buffer, consumed, violated := [], 0, false;
    }

    method Push(bytes: Bytes) returns (ok: bool)
      requires Valid()
      modifies this
      ensures Valid() && violated == old(violated) && ok == !violated
      ensures Pending() == old(Pending()) + if ok then bytes else []
    {
      if violated { return false; }
      buffer := buffer + bytes;
      return true;
    }

    method Compact()
      requires Valid()
      modifies this
      ensures Valid() && violated == old(violated) && Pending() == old(Pending())
    {
      if consumed == 0 { return; }
      buffer := buffer[consumed..];
      consumed := 0;
    }

    /** The next complete frame, or nothing when none is complete; a frame over the maximum is a violation. */
    method Next() returns (frame: Bytes)
      requires Valid()
      modifies this
      ensures Valid()
      ensures old(violated) ==> frame == [] && violated && Pending() == old(Pending())
      ensures !old(violated) ==>
                match Parse(Plain(maximum), old(Pending()))
                case NeedMore => frame == [] && !violated && Pending() == old(Pending())
                case Broken => frame == [] && violated
                case Frame(f, n) => frame == f && !violated && Pending() == old(Pending())[n..]
    {
      if violated { return []; }
      ghost var before := Pending();
      var available := |buffer| - consumed;
      if available < PREFIX {
        Compact();
        return [];
      }
      var length := Load16(buffer, consumed);
      assert length == Load16(before, 0);
      if length > maximum {
        violated := true;
        return [];
      }
      if available < PREFIX + length {
        Compact();
        return [];
      }
      frame := buffer[consumed + PREFIX..consumed + PREFIX + length];
      assert frame == before[PREFIX..PREFIX + length];
      consumed := consumed + PREFIX + length;
      assert Pending() == before[PREFIX + length..];
      if consumed > 65536 || consumed * 2 > |buffer| { Compact(); }
    }
  }

  // ----- the transport -----

  datatype SendResult = Sent | NotStarted | MessageTooLarge | WouldBlock | SendFailed

  datatype ReceiveResult = Received(frames: seq<Bytes>) | ReceiveNotStarted | ReceiveFailed | Oversized

  /** How many frames a queue still takes. */
  function Room(size: nat, queue: seq<Bytes>): (n: nat)
  {
    if |queue| < size then size - |queue| else 0
  }

  class TcpTransport {
    const socket: Socket
    const ssh: bool
    const reassembler: FrameReassembler
    var connected: bool
    var outbox: Bytes
    var sshReassembly: Bytes
    var ready: seq<Bytes>
    var readyHead: nat

    /** The frames accepted for sending, and the record made of each. */
    ghost var accepted: seq<Bytes>
    ghost var records: seq<Bytes>
    /** What was written of a record whose frame was not accepted, the connection having failed. */
    ghost var cut: Bytes
    /** The frames handed out. */
    ghost var delivered: seq<Bytes>

    ghost function MyShape(): (s: Shape)
    {
      if ssh then Ssh else Plain(MAXIMUM_FRAME)
    }

    /** On a live connection the octets written and the outbox are the records of all accepted frames; on a failed
        one the octets written are a leading part of those records and one cut short. */
    ghost predicate SendOk()
      reads this, socket
    {
      && AreRecords(MyShape(), records, accepted)
      && (connected ==> socket.sent + outbox == Joined(records))
      && IsCut(MyShape(), cut) && socket.sent <= Joined(records) + cut
    }

    ghost predicate Shaped()
      reads this, reassembler
    {
      reassembler.Valid() && reassembler.maximum == MAXIMUM_FRAME && readyHead <= |ready|
    }

    /** What has been read but not yet parsed. */
    ghost function Unparsed(): (b: Bytes)
      requires Shaped()
      reads this, reassembler
    {
      if ssh then sshReassembly else reassembler.Pending()
    }

    /** The frames of everything read are those handed out, those queued and those still to be parsed. */
    ghost predicate Accounted()
      requires Shaped()
      reads this, socket, reassembler
    {
      !reassembler.violated && Accounts(MyShape(), socket.taken, delivered + ready[readyHead..], Unparsed())
    }

    ghost predicate ReceiveOk()
      reads this, socket, reassembler
    {
      && Shaped() && (connected ==> Accounted())
      && delivered <= Kept(MyShape(), Frames(MyShape(), socket.taken))
    }

    ghost predicate Valid()
      reads this, socket, reassembler
    {
      SendOk() && ReceiveOk()
    }

    constructor (socket: Socket, ssh: bool)
      requires socket.sent == [] && socket.taken == []
      ensures Valid() && connected && this.socket == socket && this.ssh == ssh && fresh(reassembler)
      ensures accepted == [] && delivered == []
    {
      this.socket, this.ssh := socket, ssh;
      var r := new FrameReassembler(MAXIMUM_FRAME);
      reassembler := r;
      connected, outbox, sshReassembly, ready, readyHead := true, [], [], [], 0;
      accepted, records, cut, delivered := [], [], [], [];
    }

    // ----- sending -----

    /** Writes as much as the socket takes; stops at the first refusal. */
    method WriteOut(bytes: Bytes) returns (written: nat, failed: bool)
      modifies socket, this`connected
      ensures written <= |bytes| && socket.sent == old(socket.sent) + bytes[..written]
      ensures socket.taken == old(socket.taken)
      ensures failed ==> !connected && written < |bytes|
      ensures !failed ==> connected == old(connected)
      ensures failed <==> socket.failedWrites > old(socket.failedWrites)
      ensures !failed ==> (written < |bytes| <==> socket.refusedWrites > old(socket.refusedWrites))
      ensures socket.failedWrites >= old(socket.failedWrites) && socket.refusedWrites >= old(socket.refusedWrites)
      ensures socket.failedReads == old(socket.failedReads) && socket.emptyReads == old(socket.emptyReads)
    {
      written, failed := 0, false;
      assert bytes[..0] == [];
      while written < |bytes|
        invariant written <= |bytes| && socket.sent == old(socket.sent) + bytes[..written]
        invariant socket.taken == old(socket.taken) && connected == old(connected)
        invariant socket.failedWrites == old(socket.failedWrites) && socket.refusedWrites == old(socket.refusedWrites)
        invariant socket.failedReads == old(socket.failedReads) && socket.emptyReads == old(socket.emptyReads)
      {
        var n := socket.Write(bytes[written..]);
        if n < 0 {
          connected := false;
          return written, true;
        }
        if n == 0 { break; }
        assert bytes[..written] + bytes[written..][..n] == bytes[..written + n];
        written := written + n;
      }
    }

    method FlushOutput() returns (r: SendResult, drained: bool)
      requires Valid()
      modifies this`connected, this`outbox, socket
      ensures Valid() && socket.taken == old(socket.taken)
      ensures r.Sent? ==> connected && (drained <==> outbox == [])
      ensures r.Sent? || r.SendFailed? || r.NotStarted?
      ensures (r.NotStarted? <==> !old(connected)) && (r.SendFailed? ==> !connected)
      ensures r.SendFailed? <==> socket.failedWrites > old(socket.failedWrites)
      ensures socket.failedWrites >= old(socket.failedWrites) && socket.refusedWrites >= old(socket.refusedWrites)
      ensures r.Sent? ==> socket.sent + outbox == old(socket.sent + outbox)
      ensures r.Sent? ==> (drained <==> socket.refusedWrites == old(socket.refusedWrites))
    {
      hide AreRecords, IsCut, Joined, Frames, Kept, Accounts;
      if !connected { return NotStarted, false; }
      ghost var before := socket.sent;
      var offset, failed := WriteOut(outbox);
      assert before + outbox[..offset] <= before + outbox;
      if failed { return SendFailed, false; }
      assert before + outbox == (before + outbox[..offset]) + outbox[offset..];
      outbox := outbox[offset..];
      return Sent, outbox == [];
    }

    /** The record of a frame in the shape in use. */
    method MakeRecord(frame: Bytes) returns (record: Bytes)
      requires |frame| <= MAXIMUM_FRAME
      ensures IsRecord(MyShape(), record, frame)
    {
      if ssh {
        var out := new Byte[SshFramer.HEADER + |frame| + SshFramer.PaddingFor(|frame|)];
        var total, ok, error := SshFramer.Wrap(frame, out);
        record := out[..total];
      } else {
        record := [|frame| / 256 % 256, |frame| % 256] + frame;
      }
    }

    method SendFrame(frame: Bytes) returns (r: SendResult)
      requires Valid()
      modifies this`connected, this`outbox, this`accepted, this`records, this`cut, socket
      ensures Valid() && socket.taken == old(socket.taken)
      ensures r.Sent? ==> connected && accepted == old(accepted) + [frame] && |frame| <= MAXIMUM_FRAME
      ensures !r.Sent? ==> accepted == old(accepted)
      ensures r.WouldBlock? ==> connected && outbox != []
      ensures r.MessageTooLarge? <==> old(connected) && |frame| > MAXIMUM_FRAME
      ensures (r.NotStarted? <==> !old(connected)) && (r.SendFailed? ==> !connected)
      ensures r.MessageTooLarge? || r.NotStarted? ==> outbox == old(outbox) && socket.sent == old(socket.sent)
      ensures r.SendFailed? <==> socket.failedWrites > old(socket.failedWrites)
      ensures !r.SendFailed? ==> connected == old(connected)
      ensures r.WouldBlock? ==>
                && socket.sent + outbox == old(socket.sent + outbox)
                && socket.refusedWrites > old(socket.refusedWrites)
      ensures r.Sent? ==> old(socket.sent + outbox) <= socket.sent
                          && (outbox == [] <==> socket.refusedWrites == old(socket.refusedWrites))
    {
      hide IsRecord, IsCut, AreRecords, Frames, Rest, Kept, Joined, Accounts;
      if !connected { return NotStarted; }
      if |frame| > MAXIMUM_FRAME { return MessageTooLarge; }
      var flushed, drained := FlushOutput();
      if !flushed.Sent? { return flushed; }
      if !drained { return WouldBlock; }
      assert socket.sent + outbox == socket.sent;
      r := SendRecord(frame);
    }

    /** Writes the record of a frame, what the socket does not take going to the empty outbox. */
    method SendRecord(frame: Bytes) returns (r: SendResult)
      requires Valid() && connected && outbox == [] && |frame| <= MAXIMUM_FRAME
      modifies this`connected, this`outbox, this`accepted, this`records, this`cut, socket
      ensures Valid() && socket.taken == old(socket.taken)
      ensures r.Sent? || r.SendFailed?
      ensures r.Sent? ==> connected && accepted == old(accepted) + [frame]
      ensures r.SendFailed? ==> !connected && accepted == old(accepted)
      ensures r.SendFailed? <==> socket.failedWrites > old(socket.failedWrites)
      ensures socket.failedWrites >= old(socket.failedWrites) && socket.refusedWrites >= old(socket.refusedWrites)
      ensures r.Sent? ==>
                old(socket.sent) <= socket.sent && (outbox == [] <==> socket.refusedWrites == old(socket.refusedWrites))
    {
      hide IsRecord, IsCut, AreRecords, Frames, Rest, Kept, Joined, Accounts;
      var record := MakeRecord(frame);
      ghost var before := socket.sent;
      OneMoreRecord(MyShape(), records, accepted, record, frame);
      assert before + [] == before;
      var written, failed := WriteOut(record);
      if failed {
        CutRecord(MyShape(), record, frame, written);
        cut := record[..written];
        return SendFailed;
      }
      if written < |record| { outbox := record[written..]; }
      assert before + record == (before + record[..written]) + record[written..];
      accepted, records := accepted + [frame], records + [record];
      return Sent;
    }

    // ----- receiving -----

    /** Parses frames into the queue until it holds `size` of them or none is left to parse. */
    method FillReady(size: nat) returns (ok: bool)
      requires Shaped() && Accounted()
      modifies this`ready, this`sshReassembly, reassembler
      ensures Shaped()
      ensures ok ==> Accounted() && FilledFrom(old(ready), old(Waiting()), size)
      ensures !ok <==> RunsIntoBreach(MyShape(), old(Unparsed()), Room(size, old(ready)))
    {
      if ssh {
        ok := FillFromSsh(size);
      } else {
        ok := FillFromReassembler(size);
      }
    }

    /** The frames that are complete but not yet queued. */
    ghost function Waiting(): (frames: seq<Bytes>)
      requires Shaped()
      reads this, reassembler
    {
      Frames(MyShape(), Unparsed())
    }

    /** One filling has been made of a queue that held `queued`, with `waiting` to be parsed. */
    ghost predicate FilledFrom(queued: seq<Bytes>, waiting: seq<Bytes>, size: nat)
      requires Shaped()
      reads this, reassembler
    {
      var (added, left) := Filled(MyShape(), waiting, Room(size, queued));
      ready == queued + added && Waiting() == left
    }

    /** Such a filling is under way, and `unparsed` is left. */
    ghost predicate FillingFrom(queued: seq<Bytes>, waiting: seq<Bytes>, size: nat, unparsed: Bytes)
      reads this
    {
      && queued <= ready
      && Filling(MyShape(), waiting, Room(size, queued),
                 ready[|queued|..], Frames(MyShape(), unparsed), Room(size, ready))
    }

    method FillFromReassembler(size: nat) returns (ok: bool)
      requires Shaped() && Accounted() && !ssh
      modifies this`ready, reassembler
      ensures Shaped()
      ensures ok ==> Accounted() && FilledFrom(old(ready), old(Waiting()), size)
      ensures !ok <==> RunsIntoBreach(MyShape(), old(Unparsed()), Room(size, old(ready)))
    {
      hide Accounts, Parse, Kept, Rest, Frames, Filled, Filling, RunsIntoBreach;
      ghost var shape, queued, waiting, first := MyShape(), ready, Waiting(), Unparsed();
      FillingStarts(shape, waiting, Room(size, queued));
      assert ready[|queued|..] == [];
      while |ready| < size
        invariant Shaped() && Accounted() && FillingFrom(queued, waiting, size, Unparsed())
        invariant Rest(shape, Unparsed()) == Rest(shape, first)
        decreases size - |ready|
      {
        ghost var before := Unparsed();
        ghost var added := ready[|queued|..];
        var frame := reassembler.Next();
        FillOne(shape, first, Room(size, queued), added, before, Room(size, ready),
                socket.taken, delivered + ready[readyHead..]);
        if reassembler.violated { return false; }
        if |frame| == 0 { return true; }
        assert delivered + ready[readyHead..] + [frame] == delivered + (ready + [frame])[readyHead..];
        assert (ready + [frame])[|queued|..] == added + [frame];
        ready := ready + [frame];
      }
      FillingEnds(shape, first, Room(size, queued), ready[|queued|..], Unparsed(), Room(size, ready));
      return true;
    }

    method FillFromSsh(size: nat) returns (ok: bool)
      requires Shaped() && Accounted() && ssh
      modifies this`ready, this`sshReassembly
      ensures Shaped()
      ensures ok ==> Accounted() && FilledFrom(old(ready), old(Waiting()), size)
      ensures !ok <==> RunsIntoBreach(MyShape(), old(Unparsed()), Room(size, old(ready)))
    {
      hide Accounts, Kept, Rest, Frames, Filled, Filling, RunsIntoBreach;
      ghost var shape, queued, waiting, first := MyShape(), ready, Waiting(), Unparsed();
      FillingStarts(shape, waiting, Room(size, queued));
      assert ready[|queued|..] == [];
      var offset: nat := 0;
      var payload := new Byte[MAXIMUM_FRAME];
      assert sshReassembly[0..] == sshReassembly;
      while |ready| < size
        invariant Shaped() && offset <= |sshReassembly| && !reassembler.violated
        invariant sshReassembly == old(sshReassembly) && FillingFrom(queued, waiting, size, sshReassembly[offset..])
        invariant Rest(shape, sshReassembly[offset..]) == Rest(shape, first)
        invariant Accounts(MyShape(), socket.taken, delivered + ready[readyHead..], sshReassembly[offset..])
        decreases size - |ready|
      {
        ghost var before := sshReassembly[offset..];
        ghost var added := ready[|queued|..];
        var r := SshFramer.UnwrapInto(sshReassembly[offset..], payload);
        FillOne(shape, first, Room(size, queued), added, before, Room(size, ready),
                socket.taken, delivered + ready[readyHead..]);
        if r.Failed? {
          if r.error.Incomplete? { break; }
          return false;
        }
        assert delivered + ready[readyHead..] + [r.payload] == delivered + (ready + [r.payload])[readyHead..];
        assert (ready + [r.payload])[|queued|..] == added + [r.payload];
        assert before[r.consumed..] == sshReassembly[offset + r.consumed..];
        ready := ready + [r.payload];
        offset := offset + r.consumed;
      }
      FillingEnds(shape, first, Room(size, queued), ready[|queued|..], sshReassembly[offset..], Room(size, ready));
      assert offset == 0 ==> sshReassembly[offset..] == sshReassembly;
      if offset > 0 { sshReassembly := sshReassembly[offset..]; }
      return true;
    }

    method TakeChunk(chunk: Bytes, ghost before: Bytes)
      requires Shaped() && !reassembler.violated && socket.taken == before + chunk
      requires Accounts(MyShape(), before, delivered + ready[readyHead..], Unparsed())
      modifies this`sshReassembly, reassembler
      ensures Shaped() && Accounted()
    {
      hide Accounts, Parse;
      TakeIn(MyShape(), before, delivered + ready[readyHead..], Unparsed(), chunk);
      if ssh {
        sshReassembly := sshReassembly + chunk;
      } else {
        var ok := reassembler.Push(chunk);
        assert ok;
      }
    }

    /** No frame of what was read is one that a filling swallows. */
    ghost predicate NoneSwallowed()
      reads socket
    {
      ssh || [] !in Frames(MyShape(), socket.taken)
    }

    lemma NothingIsLeft(queued: seq<Bytes>, waiting: seq<Bytes>, size: nat)
      requires Shaped() && Accounted() && |queued| <= size && FilledFrom(queued, waiting, size)
      requires EndsWith(Frames(MyShape(), socket.taken), waiting)
      ensures |ready| < size && NoneSwallowed() ==> Waiting() == []
      ensures |ready| <= size
    {
      hide Accounts, Filled, Frames;
      FilledAdds(MyShape(), waiting, Room(size, queued));
      if NoneSwallowed() { FilledLeavesNothing(MyShape(), waiting, Room(size, queued)); }
    }

    /** Fills the emptied queue, reading from the socket until there are `size` frames or nothing more to read. */
    method Refill(size: nat) returns (error: Option<ReceiveResult>)
      requires Shaped() && Accounted() && connected && readyHead == 0 && ready == []
      modifies this`connected, this`ready, this`sshReassembly, reassembler, socket
      ensures Shaped() && (error.None? ==> Accounted())
      ensures error.Some? ==> !error.value.Received? && !connected
      ensures socket.taken + socket.incoming == old(socket.taken + socket.incoming) && socket.sent == old(socket.sent)
      ensures old(socket.taken) <= socket.taken
      ensures socket.failedReads >= old(socket.failedReads) && socket.emptyReads >= old(socket.emptyReads)
      ensures socket.failedReads > old(socket.failedReads) ==> !connected
      ensures error.Some? ==> error.value == Oversized || error.value == ReceiveFailed
      ensures error == Some(Oversized) ==> Breached(MyShape(), socket.taken)
      ensures error == Some(ReceiveFailed) || (error.None? && !connected) ==>
                socket.failedReads > old(socket.failedReads)
      ensures error.None? && connected && |ready| < size ==> socket.emptyReads > old(socket.emptyReads)
      ensures error.None? ==> |ready| <= size
      ensures error.None? && |ready| < size && NoneSwallowed() ==> Waiting() == []
      ensures error.None? && old(socket.incoming) == [] ==> FilledFrom([], old(Waiting()), size)
    {
      hide Accounts, Parse, Kept, Frames, Rest, Filled, RunsIntoBreach, Breached;
      ghost var waiting, unparsed, queue := Waiting(), Unparsed(), delivered + ready[readyHead..];
      WaitingAtTheEnd(MyShape(), socket.taken, delivered + ready[readyHead..], Unparsed());
      var ok := FillReady(size);
      if !ok {
        BreachIsInTaken(MyShape(), socket.taken, queue, unparsed, Room(size, []));
        connected := false;
        return Some(Oversized);
      }
      NothingIsLeft([], waiting, size);
      while |ready| < size
        invariant Shaped() && Accounted() && connected && old(socket.taken) <= socket.taken && |ready| <= size
        invariant socket.taken + socket.incoming == old(socket.taken + socket.incoming)
        invariant socket.sent == old(socket.sent)
        invariant |ready| < size && NoneSwallowed() ==> Waiting() == []
        invariant |socket.incoming| <= |old(socket.incoming)|
        invariant socket.failedReads == old(socket.failedReads) && socket.emptyReads == old(socket.emptyReads)
        invariant old(socket.incoming) == [] ==> FilledFrom([], old(Waiting()), size)
        decreases |socket.incoming|
      {
        ghost var before := socket.taken;
        var got := socket.Read(READ_SIZE);
        if got.Closed? {
          connected := false;
          break;
        }
        if got.Drained? { break; }
        if got.ReadError? {
          connected := false;
          return Some(ReceiveFailed);
        }
        TakeChunk(got.bytes, before);
        ghost var queued, later, rest := ready, Waiting(), Unparsed();
        ghost var handled := delivered + ready[readyHead..];
        WaitingAtTheEnd(MyShape(), socket.taken, delivered + ready[readyHead..], Unparsed());
        ok := FillReady(size);
        if !ok {
          BreachIsInTaken(MyShape(), socket.taken, handled, rest, Room(size, queued));
          connected := false;
          return Some(Oversized);
        }
        NothingIsLeft(queued, later, size);
      }
      error := None;
    }

    /** Hands out queued frames. */
    method HandOut(size: nat) returns (frames: seq<Bytes>)
      requires Shaped() && Accounted()
      modifies this`readyHead, this`delivered
      ensures Shaped() && Accounted()
      ensures |frames| <= size && delivered == old(delivered) + frames
      ensures |frames| < size ==> ready[readyHead..] == []
      ensures old(ready[readyHead..]) == frames + ready[readyHead..]
    {
      hide Accounts;
      frames := [];
      ghost var start := readyHead;
      while |frames| < size && readyHead < |ready|
        invariant start <= readyHead <= |ready| && |frames| <= size
        invariant frames == ready[start..readyHead] && delivered == old(delivered) + frames
        decreases |ready| - readyHead
      {
        assert old(delivered) + frames + [ready[readyHead]] == old(delivered) + (frames + [ready[readyHead]]);
        frames := frames + [ready[readyHead]];
        delivered := delivered + [ready[readyHead]];
        readyHead := readyHead + 1;
      }
      assert ready[start..] == frames + ready[readyHead..];
      assert (old(delivered) + frames) + ready[readyHead..] == old(delivered) + (frames + ready[readyHead..]);
    }

    /** Hands out at most `size` frames. Everything handed out so far is a prefix of the frames of everything
        read. A call that finds the queue empty and hands out fewer than `size` leaves no complete frame behind,
        unless an empty one was among those read; with nothing more to read it makes exactly one filling. */
    method ReceiveFrames(size: nat) returns (r: ReceiveResult)
      requires Valid()
      modifies this`connected, this`ready, this`readyHead, this`sshReassembly, this`delivered, reassembler, socket
      ensures Valid()
      ensures socket.taken + socket.incoming == old(socket.taken + socket.incoming) && socket.sent == old(socket.sent)
      ensures r.Received? ==> |r.frames| <= size && delivered == old(delivered) + r.frames
      ensures !r.Received? ==> delivered == old(delivered) && !connected
      ensures r.ReceiveNotStarted? <==> !old(connected)
      ensures r.Oversized? ==> Breached(MyShape(), socket.taken)
      ensures r.ReceiveFailed? || (r.Received? && !connected) ==> socket.failedReads > old(socket.failedReads)
      ensures socket.failedReads > old(socket.failedReads) ==> !connected
      ensures r.Received? && connected && |r.frames| < size && old(ready[readyHead..]) == [] ==>
                socket.emptyReads > old(socket.emptyReads)
      ensures r.Received? && |r.frames| < size && old(ready[readyHead..]) == [] && NoneSwallowed() ==>
                ready[readyHead..] == [] && Waiting() == []
      ensures r.Received? && old(ready[readyHead..]) == [] && old(socket.incoming) == [] ==>
                (r.frames, Waiting()) == Filled(MyShape(), old(Waiting()), size)
    {
      hide Accounts, Parse, Kept, AreRecords, IsCut, Joined, Frames, Filled, Breached;
      if !connected { return ReceiveNotStarted; }
      assert delivered + [] == delivered;
      if size == 0 {
        FillingStarts(MyShape(), Waiting(), 0);
        FillingEnds(MyShape(), Unparsed(), 0, [], Unparsed(), 0);
        return Received([]);
      }
      if readyHead >= |ready| {
        ghost var before := socket.taken;
        assert ready[readyHead..] == [];
        ready, readyHead := [], 0;
        assert ready[readyHead..] == [];
        var error := Refill(size);
        if error.Some? {
          DeliveredStaysPrefix(MyShape(), before, socket.taken, delivered);
          return error.value;
        }
      }
      assert readyHead == 0 ==> ready[readyHead..] == ready;
      ghost var queued, waiting := ready[readyHead..], Waiting();
      var frames := HandOut(size);
      assert Waiting() == waiting;
      if |queued| <= size {
        assert ready[readyHead..] == [];
        assert frames + [] == frames;
      }
      PrefixDelivered(MyShape(), socket.taken, delivered, ready[readyHead..], Unparsed());
      return Received(frames);
    }
  }

  lemma PrefixDelivered(shape: Shape, taken: Bytes, delivered: seq<Bytes>, queued: seq<Bytes>, unparsed: Bytes)
    requires Accounts(shape, taken, delivered + queued, unparsed)
    ensures delivered <= Kept(shape, Frames(shape, taken))
  {
    hide Frames, Kept, Rest;
  }

  lemma DeliveredStaysPrefix(shape: Shape, before: Bytes, after: Bytes, delivered: seq<Bytes>)
    requires before <= after && delivered <= Kept(shape, Frames(shape, before))
    ensures delivered <= Kept(shape, Frames(shape, after))
  {
    hide Frames, Kept, Rest, Parse;
    assert after == before + after[|before|..];
    FramesAppend(shape, before, after[|before|..]);
    KeptConcat(shape, Frames(shape, before), Frames(shape, Rest(shape, before) + after[|before|..]));
  }

  lemma OneMoreRecord(shape: Shape, records: seq<Bytes>, frames: seq<Bytes>, record: Bytes, frame: Bytes)
    requires AreRecords(shape, records, frames) && IsRecord(shape, record, frame)
    ensures AreRecords(shape, records + [record], frames + [frame])
    ensures Joined(records + [record]) == Joined(records) + record
  {
    hide IsRecord;
    assert (records + [record])[..|records|] == records;
  }

  lemma CutRecord(shape: Shape, record: Bytes, frame: Bytes, n: nat)
    requires IsRecord(shape, record, frame) && n < |record|
    ensures IsCut(shape, record[..n])
  {
    hide IsRecord;
  }

  /** All that the sender accepted was written and read, queued and handed out. */
  ghost predicate AllArrived(a: TcpTransport, b: TcpTransport)
    requires b.Shaped()
    reads a, a.socket, b, b.socket, b.reassembler
  {
    && b.connected && b.ready[b.readyHead..] == [] && b.Waiting() == []
    && (Joined(a.records) <= b.socket.taken || (a.connected && a.outbox == [] && b.socket.taken == a.socket.sent))
  }

  /** Between two ends of a connection, whether or not the sender's has failed since: what one end has handed out
      is a prefix of what the other accepted, less swallowed empty frames, and all of it once everything has
      arrived. A sender of non-empty frames has every one of them delivered, and none of its reader's calls ends
      early. */
  lemma ReceivedIsWhatWasSent(a: TcpTransport, b: TcpTransport)
    requires a.Valid() && b.Valid() && a.ssh == b.ssh && b.socket.taken <= a.socket.sent
    ensures b.delivered <= Kept(a.MyShape(), a.accepted)
    ensures AllArrived(a, b) ==> b.delivered == Kept(a.MyShape(), a.accepted)
    ensures a.ssh || [] !in a.accepted ==>
              b.NoneSwallowed() && b.delivered <= a.accepted && (AllArrived(a, b) ==> b.delivered == a.accepted)
  {
    hide Parse, Frames, Rest, Joined, Kept, AreRecords, IsCut;
    var shape, taken := a.MyShape(), b.socket.taken;
    assert taken <= Joined(a.records) + a.cut;
    if a.connected && a.outbox == [] { assert a.socket.sent + [] == a.socket.sent; }
    CutStreamHoldsPrefix(shape, a.records, a.accepted, a.cut, taken);
    KeptIsAll(shape, a.accepted);
    var seen := Frames(shape, taken);
    assert a.accepted == seen + a.accepted[|seen|..];
    KeptConcat(shape, seen, a.accepted[|seen|..]);
    if b.connected {
      HandedOutInOrder(shape, a.records, a.accepted, a.cut, taken, b.delivered, b.ready[b.readyHead..], b.Unparsed());
    }
  }
}
