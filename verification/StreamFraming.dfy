/**
 Frames over a byte stream: length-prefixed or SSH-shaped records, written with short writes and read
 back from chunks cut anywhere.
 */
module StreamFraming {
  import opened Octets
  import SshFramer

  const PREFIX := 2
  const MAXIMUM_FRAME := SshFramer.MAXIMUM_FRAME
  const READ_SIZE := 65536

  /** How records are shaped: a two-octet length, or the SSH packet shape. */
  datatype Shape = Plain(maximum: nat) | Ssh

  datatype Parsed = NeedMore | Broken | Frame(frame: Bytes, consumed: nat)

  function Parse(shape: Shape, b: Bytes): (r: Parsed)
    ensures r.Frame? ==> 0 < r.consumed <= |b|
  {
    match shape
    case Plain(maximum) =>
      if |b| < PREFIX then NeedMore
      else if Load16(b, 0) > maximum then Broken
      else if |b| < PREFIX + Load16(b, 0) then NeedMore
      else Frame(b[PREFIX..PREFIX + Load16(b, 0)], PREFIX + Load16(b, 0))
    case Ssh =>
      match SshFramer.Unwrap(b, MAXIMUM_FRAME)
      case Unwrapped(payload, consumed) => Frame(payload, consumed)
      case Failed(e) => if e.Incomplete? then NeedMore else Broken
  }

  ghost predicate IsRecord(shape: Shape, record: Bytes, frame: Bytes)
  {
    && |frame| <= MAXIMUM_FRAME
    && match shape
       case Plain(maximum) =>
         |frame| <= maximum && record == [|frame| / 256 % 256, |frame| % 256] + frame
       case Ssh => SshFramer.IsRecord(record, frame)
  }

  lemma RecordParses(shape: Shape, record: Bytes, frame: Bytes, rest: Bytes)
    requires IsRecord(shape, record, frame)
    ensures Parse(shape, record + rest) == Frame(frame, |record|)
  {
    if shape.Ssh? {
      SshFramer.RecordUnwraps(record, frame, rest, MAXIMUM_FRAME);
    } else {
      assert (record + rest)[PREFIX..PREFIX + |frame|] == frame;
    }
  }

  lemma ParseIsStable(shape: Shape, b: Bytes, more: Bytes)
    requires Parse(shape, b) != NeedMore
    ensures Parse(shape, b + more) == Parse(shape, b)
  {
    if shape.Ssh? {
      SshFramer.UnwrapIsStable(b, more, MAXIMUM_FRAME);
    } else {
      var n := Load16(b, 0);
      assert Load16(b + more, 0) == n;
      if Parse(shape, b).Frame? { assert (b + more)[PREFIX..PREFIX + n] == b[PREFIX..PREFIX + n]; }
    }
  }

  // ----- all frames of a stream -----

  function Frames(shape: Shape, b: Bytes): (r: seq<Bytes>)
    decreases |b|
  {
    match Parse(shape, b)
    case Frame(f, n) => [f] + Frames(shape, b[n..])
    case _ => []
  }

  /** What is left after the last complete frame. */
  function Rest(shape: Shape, b: Bytes): (r: Bytes)
    decreases |b|
  {
    match Parse(shape, b)
    case Frame(f, n) => Rest(shape, b[n..])
    case _ => b
  }

  /** Reading in two parts finds the same frames as reading at once. */
  lemma {:induction false} FramesAppend(shape: Shape, b: Bytes, more: Bytes)
    ensures Frames(shape, b + more) == Frames(shape, b) + Frames(shape, Rest(shape, b) + more)
    ensures Rest(shape, b + more) == Rest(shape, Rest(shape, b) + more)
    decreases |b|
  {
    hide Parse;
    match Parse(shape, b)
    case Frame(f, n) =>
      ParseIsStable(shape, b, more);
      assert (b + more)[n..] == b[n..] + more;
      FramesAppend(shape, b[n..], more);
    case _ =>
  }

  ghost predicate AreRecords(shape: Shape, records: seq<Bytes>, frames: seq<Bytes>)
  {
    |records| == |frames| && forall k :: 0 <= k < |records| ==> IsRecord(shape, records[k], frames[k])
  }

  /** A stream of records holds exactly their frames, in order. */
  lemma {:induction false} StreamHoldsFrames(shape: Shape, records: seq<Bytes>, frames: seq<Bytes>)
    requires AreRecords(shape, records, frames)
    ensures Frames(shape, Joined(records)) == frames
    ensures Rest(shape, Joined(records)) == []
  {
    hide Parse, IsRecord, Frames, Rest;
    NothingParses(shape);
    NoFrame(shape, []);
    if |records| > 0 {
      var n := |records| - 1;
      StreamHoldsFrames(shape, records[..n], frames[..n]);
      FramesAppend(shape, Joined(records[..n]), records[n]);
      assert [] + records[n] == records[n] == records[n] + [];
      RecordParses(shape, records[n], frames[n], []);
      assert records[n][|records[n]|..] == [];
      FrameStep(shape, records[n]);
      assert frames == frames[..n] + [frames[n]];
    }
  }

  lemma NothingParses(shape: Shape)
    ensures Parse(shape, []) == NeedMore
  {
  }

  /** Nothing, or a record without its end. */
  ghost predicate IsCut(shape: Shape, cut: Bytes)
  {
    cut == [] || exists record, frame :: IsRecord(shape, record, frame) && cut < record
  }

  lemma CutNeedsMore(shape: Shape, cut: Bytes)
    requires IsCut(shape, cut)
    ensures Parse(shape, cut) == NeedMore
  {
    hide Parse, IsRecord;
    if cut == [] {
      NothingParses(shape);
    } else if Parse(shape, cut) != NeedMore {
      var record, frame :| IsRecord(shape, record, frame) && cut < record;
      assert record == cut + record[|cut|..] == record + [];
      ParseIsStable(shape, cut, record[|cut|..]);
      RecordParses(shape, record, frame, []);
      assert false;
    }
  }

  /** A stream of records, the last of them perhaps cut, holds exactly the frames of the whole ones. */
  lemma CutRecordHoldsNothing(shape: Shape, records: seq<Bytes>, frames: seq<Bytes>, cut: Bytes)
    requires AreRecords(shape, records, frames) && IsCut(shape, cut)
    ensures Frames(shape, Joined(records) + cut) == frames
  {
    hide Parse, IsRecord, IsCut;
    StreamHoldsFrames(shape, records, frames);
    FramesAppend(shape, Joined(records), cut);
    CutNeedsMore(shape, cut);
    assert [] + cut == cut;
  }

  /** Any prefix of such a stream holds a prefix of the frames. */
  lemma CutStreamHoldsPrefix(shape: Shape, records: seq<Bytes>, frames: seq<Bytes>, cut: Bytes, b: Bytes)
    requires AreRecords(shape, records, frames) && IsCut(shape, cut) && b <= Joined(records) + cut
    ensures Frames(shape, b) <= frames
    ensures Joined(records) <= b ==> Frames(shape, b) == frames
  {
    hide Parse, IsRecord, IsCut, Frames, Rest, Joined;
    var all := Joined(records) + cut;
    CutRecordHoldsNothing(shape, records, frames, cut);
    assert all == b + all[|b|..];
    FramesAppend(shape, b, all[|b|..]);
    if Joined(records) <= b {
      var tail := b[|Joined(records)|..];
      assert b == Joined(records) + tail;
      StreamHoldsFrames(shape, records, frames);
      FramesAppend(shape, Joined(records), tail);
    }
  }

  /** What the receiver hands out: in the plain shape empty frames are swallowed. */
  function Kept(shape: Shape, frames: seq<Bytes>): (r: seq<Bytes>)
  {
    if |frames| == 0 then []
    else Kept(shape, frames[..|frames| - 1])
         + if shape.Plain? && |frames[|frames| - 1]| == 0 then [] else [frames[|frames| - 1]]
  }

  lemma KeptStep(shape: Shape, frames: seq<Bytes>)
    ensures |frames| == 0 ==> Kept(shape, frames) == []
    ensures |frames| > 0 ==>
              var n := |frames| - 1;
              Kept(shape, frames)
              == Kept(shape, frames[..n]) + if shape.Plain? && |frames[n]| == 0 then [] else [frames[n]]
  {
  }

  lemma {:induction false} KeptConcat(shape: Shape, a: seq<Bytes>, b: seq<Bytes>)
    ensures Kept(shape, a + b) == Kept(shape, a) + Kept(shape, b)
  {
    hide Kept;
    KeptStep(shape, b);
    KeptStep(shape, a + b);
    if |b| == 0 {
      assert a + b == a;
    } else {
      var n := |b| - 1;
      KeptConcat(shape, a, b[..n]);
      assert (a + b)[..|a| + n] == a + b[..n];
    }
  }

  lemma KeptOne(shape: Shape, f: Bytes)
    ensures Kept(shape, [f]) == if shape.Plain? && |f| == 0 then [] else [f]
  {
    assert [f][..0] == [];
  }

  /** Nothing is lost exactly where empty frames are kept or there are none. */
  lemma {:induction false} KeptIsAll(shape: Shape, frames: seq<Bytes>)
    ensures |Kept(shape, frames)| <= |frames|
    ensures Kept(shape, frames) == frames <==> shape.Ssh? || [] !in frames
  {
    if |frames| > 0 {
      var n := |frames| - 1;
      KeptIsAll(shape, frames[..n]);
      assert frames == frames[..n] + [frames[n]];
      if Kept(shape, frames) == frames && |frames[n]| != 0 {
        assert Kept(shape, frames)[..n] == Kept(shape, frames[..n]);
      }
    }
  }

  // ----- bookkeeping of a receiver -----

  /** Of the frames waiting to be parsed, those one filling of a queue with `room` places adds to it, and those it
      leaves: in the plain shape an empty frame is swallowed and ends the filling. */
  function Filled(shape: Shape, waiting: seq<Bytes>, room: nat): (r: (seq<Bytes>, seq<Bytes>))
    decreases room
  {
    if room == 0 || |waiting| == 0 then ([], waiting)
    else if shape.Plain? && |waiting[0]| == 0 then ([], waiting[1..])
    else var (added, left) := Filled(shape, waiting[1..], room - 1); ([waiting[0]] + added, left)
  }

  lemma {:induction false} FilledKeeps(shape: Shape, waiting: seq<Bytes>, room: nat)
    ensures var (added, left) := Filled(shape, waiting, room);
            Kept(shape, waiting) == added + Kept(shape, left)
    decreases room
  {
    hide Kept;
    if room > 0 && |waiting| > 0 {
      var f, rest := waiting[0], waiting[1..];
      assert waiting == [f] + rest;
      KeptConcat(shape, [f], rest);
      KeptOne(shape, f);
      if !(shape.Plain? && |f| == 0) {
        FilledKeeps(shape, rest, room - 1);
        var (added, left) := Filled(shape, rest, room - 1);
        assert [f] + (added + Kept(shape, left)) == ([f] + added) + Kept(shape, left);
      }
    }
  }

  lemma {:induction false} FilledIsPrefix(shape: Shape, waiting: seq<Bytes>, room: nat)
    ensures var (added, left) := Filled(shape, waiting, room);
            && |added| <= room && |added| <= |waiting| && (shape.Plain? ==> [] !in added)
            && (if |added| == room || |added| == |waiting| then waiting == added + left
                else shape.Plain? && waiting == added + [[]] + left)
    decreases room
  {
    if room > 0 && |waiting| > 0 {
      var f, rest := waiting[0], waiting[1..];
      assert waiting == [f] + rest;
      if !(shape.Plain? && |f| == 0) {
        FilledIsPrefix(shape, rest, room - 1);
        var (added, left) := Filled(shape, rest, room - 1);
        assert [f] + (added + left) == ([f] + added) + left;
        assert [f] + (added + [[]] + left) == ([f] + added) + [[]] + left;
      }
    }
  }

  /** A filling adds a leading part of what waits, as much as there is room for up to the first empty frame. */
  lemma FilledAdds(shape: Shape, waiting: seq<Bytes>, room: nat)
    ensures var (added, left) := Filled(shape, waiting, room);
            && |added| <= room && added <= waiting && (shape.Plain? ==> [] !in added)
            && Kept(shape, waiting) == added + Kept(shape, left)
            && (if |added| == room || |added| == |waiting| then waiting == added + left
                else shape.Plain? && waiting == added + [[]] + left)
  {
    hide Kept, Filled;
    FilledKeeps(shape, waiting, room);
    FilledIsPrefix(shape, waiting, room);
  }

  /** A filling under way: `added` so far, `waiting` and `room` left of `waiting0` and `room0`. */
  ghost predicate Filling(shape: Shape, waiting0: seq<Bytes>, room0: nat,
                          added: seq<Bytes>, waiting: seq<Bytes>, room: nat)
  {
    var (a, left) := Filled(shape, waiting, room);
    && |added| + room == room0 && waiting0 == added + waiting
    && Filled(shape, waiting0, room0) == (added + a, left)
  }

  lemma FillingStarts(shape: Shape, waiting: seq<Bytes>, room: nat)
    ensures Filling(shape, waiting, room, [], waiting, room)
  {
    hide Filled;
    assert [] + Filled(shape, waiting, room).0 == Filled(shape, waiting, room).0 && [] + waiting == waiting;
  }

  lemma FillingStep(shape: Shape, waiting0: seq<Bytes>, room0: nat, added: seq<Bytes>, waiting: seq<Bytes>, room: nat)
    requires Filling(shape, waiting0, room0, added, waiting, room) && room > 0 && |waiting| > 0
    requires shape.Ssh? || |waiting[0]| > 0
    ensures Filling(shape, waiting0, room0, added + [waiting[0]], waiting[1..], room - 1)
  {
    var (a, left) := Filled(shape, waiting[1..], room - 1);
    assert added + ([waiting[0]] + a) == (added + [waiting[0]]) + a;
    assert added + waiting == (added + [waiting[0]]) + waiting[1..];
  }

  /** Unless an empty frame of the plain shape waits, a filling that leaves room leaves nothing else. */
  lemma FilledLeavesNothing(shape: Shape, waiting: seq<Bytes>, room: nat)
    requires shape.Ssh? || [] !in waiting
    ensures |Filled(shape, waiting, room).0| < room ==> Filled(shape, waiting, room).1 == []
  {
    hide Filled, Kept;
    FilledAdds(shape, waiting, room);
    var (added, left) := Filled(shape, waiting, room);
    assert [] in added + [[]] + left;
  }

  /** A filling meets octets that are no record: all frames before them are added and there is room for more. */
  ghost predicate RunsIntoBreach(shape: Shape, unparsed: Bytes, room: nat)
  {
    var waiting := Frames(shape, unparsed);
    Parse(shape, Rest(shape, unparsed)).Broken? && |waiting| < room && Filled(shape, waiting, room).0 == waiting
  }

  /** How a filling of `room0` places ends, `b` being left of `first`: without room, without another frame, or with
      an empty frame of the plain shape. */
  lemma FillingEnds(shape: Shape, first: Bytes, room0: nat, added: seq<Bytes>, b: Bytes, room: nat)
    requires Filling(shape, Frames(shape, first), room0, added, Frames(shape, b), room)
    requires Rest(shape, b) == Rest(shape, first)
    ensures room == 0 || !Parse(shape, b).Frame? ==>
              Filled(shape, Frames(shape, first), room0) == (added, Frames(shape, b))
    ensures room == 0 ==> !RunsIntoBreach(shape, first, room0)
    ensures room > 0 && !Parse(shape, b).Frame? ==>
              (RunsIntoBreach(shape, first, room0) <==> Parse(shape, b).Broken?)
    ensures room > 0 && shape.Plain? && Parse(shape, b).Frame? && |Parse(shape, b).frame| == 0 ==>
              && Filled(shape, Frames(shape, first), room0) == (added, Frames(shape, b[Parse(shape, b).consumed..]))
              && !RunsIntoBreach(shape, first, room0)
  {
    hide Parse, Frames, Rest;
    if Parse(shape, b).Frame? { FrameStep(shape, b); } else { NoFrame(shape, b); }
    assert added + [] == added;
  }

  function EmptyFrames(n: nat): (r: seq<Bytes>)
  {
    seq(n, _ => [])
  }

  /** What `n` fillings in a row add, with nothing arriving in between, and what they leave. */
  function FilledOften(shape: Shape, waiting: seq<Bytes>, room: nat, n: nat): (r: (seq<Bytes>, seq<Bytes>))
    decreases n
  {
    if n == 0 then ([], waiting)
    else
      var (added, left) := Filled(shape, waiting, room);
      var (later, rest) := FilledOften(shape, left, room, n - 1);
      (added + later, rest)
  }

  /** With `n` empty frames in front, `n` fillings in a row add nothing, one empty frame going each time. */
  lemma {:induction false} EmptyFramesHoldUp(maximum: nat, n: nat, behind: seq<Bytes>, room: nat)
    requires room > 0
    ensures FilledOften(Plain(maximum), EmptyFrames(n) + behind, room, n) == ([], behind)
  {
    if n == 0 {
      assert EmptyFrames(n) + behind == behind;
    } else {
      var waiting: seq<Bytes> := EmptyFrames(n) + behind;
      assert waiting[1..] == EmptyFrames(n - 1) + behind;
      assert Filled(Plain(maximum), waiting, room) == ([], waiting[1..]);
      EmptyFramesHoldUp(maximum, n - 1, behind, room);
      assert FilledOften(Plain(maximum), waiting, room, n).0 == [];
    }
  }

  /** Two empty frames and one octet behind them: two calls in a row come back with nothing, and the frame is still
      waiting. */
  lemma TwoEmptyFrames(room: nat)
    requires room > 0
    ensures var shape := Plain(MAXIMUM_FRAME);
            && Frames(shape, [0, 0, 0, 0, 0, 1, 7]) == [[], [], [7]]
            && Filled(shape, [[], [], [7]], room) == ([], [[], [7]])
            && Filled(shape, [[], [7]], room) == ([], [[7]])
  {
    hide Frames, Rest, Parse;
    var shape := Plain(MAXIMUM_FRAME);
    var records: seq<Bytes>, frames: seq<Bytes> := [[0, 0], [0, 0], [0, 1, 7]], [[], [], [7]];
    assert records[..2] == [[0, 0], [0, 0]] && records[..2][..1] == [[0, 0]] && records[..2][..1][..0] == [];
    assert Joined(records[..2][..1]) == [0, 0];
    assert Joined(records[..2]) == [0, 0, 0, 0];
    assert Joined(records) == [0, 0, 0, 0, 0, 1, 7];
    StreamHoldsFrames(shape, records, frames);
  }

  predicate EndsWith(all: seq<Bytes>, tail: seq<Bytes>)
  {
    |tail| <= |all| && all[|all| - |tail|..] == tail
  }

  /** The frames in everything taken from the stream are those handled so far and those still unparsed. */
  ghost predicate Accounts(shape: Shape, taken: Bytes, handled: seq<Bytes>, unparsed: Bytes)
  {
    && Kept(shape, Frames(shape, taken)) == handled + Kept(shape, Frames(shape, unparsed))
    && EndsWith(Frames(shape, taken), Frames(shape, unparsed))
    && Rest(shape, taken) == Rest(shape, unparsed)
  }

  lemma FrameStep(shape: Shape, b: Bytes)
    requires Parse(shape, b).Frame?
    ensures Frames(shape, b) == [Parse(shape, b).frame] + Frames(shape, b[Parse(shape, b).consumed..])
    ensures Rest(shape, b) == Rest(shape, b[Parse(shape, b).consumed..])
  {
    hide Parse;
  }

  lemma WaitingAtTheEnd(shape: Shape, taken: Bytes, handled: seq<Bytes>, unparsed: Bytes)
    requires Accounts(shape, taken, handled, unparsed)
    ensures EndsWith(Frames(shape, taken), Frames(shape, unparsed))
  {
    hide Frames, Rest, Kept;
  }

  /** One parse in a filling with room. */
  lemma FillOne(shape: Shape, first: Bytes, room0: nat, added: seq<Bytes>, b: Bytes, room: nat,
                taken: Bytes, handled: seq<Bytes>)
    requires Filling(shape, Frames(shape, first), room0, added, Frames(shape, b), room) && room > 0
    requires Rest(shape, b) == Rest(shape, first) && Accounts(shape, taken, handled, b)
    ensures Parse(shape, b).NeedMore? ==> !RunsIntoBreach(shape, first, room0)
    ensures Parse(shape, b).NeedMore? ==> Filled(shape, Frames(shape, first), room0) == (added, Frames(shape, b))
    ensures Parse(shape, b).Broken? ==> RunsIntoBreach(shape, first, room0)
    ensures Parse(shape, b).Frame? ==>
              var f, rest := Parse(shape, b).frame, b[Parse(shape, b).consumed..];
              && Rest(shape, rest) == Rest(shape, first)
              && if shape.Plain? && |f| == 0 then
                   && Filled(shape, Frames(shape, first), room0) == (added, Frames(shape, rest))
                   && !RunsIntoBreach(shape, first, room0) && Accounts(shape, taken, handled, rest)
                 else
                   && Filling(shape, Frames(shape, first), room0, added + [f], Frames(shape, rest), room - 1)
                   && Accounts(shape, taken, handled + [f], rest)
  {
    hide Parse, Frames, Rest, Filling, Filled, Accounts, RunsIntoBreach, Kept;
    FillingEnds(shape, first, room0, added, b, room);
    if Parse(shape, b).Frame? {
      FrameStep(shape, b);
      HandleOne(shape, taken, handled, b);
      assert handled + [] == handled;
      if !(shape.Plain? && |Parse(shape, b).frame| == 0) {
        FillingStep(shape, Frames(shape, first), room0, added, Frames(shape, b), room);
      }
    }
  }

  /** What is read holds, behind its last frame, octets that are no record. */
  ghost predicate Breached(shape: Shape, taken: Bytes)
  {
    Parse(shape, Rest(shape, taken)).Broken?
  }

  lemma BreachIsInTaken(shape: Shape, taken: Bytes, handled: seq<Bytes>, unparsed: Bytes, room: nat)
    requires Accounts(shape, taken, handled, unparsed) && RunsIntoBreach(shape, unparsed, room)
    ensures Breached(shape, taken)
  {
    hide Frames, Rest, Kept, Parse;
  }

  lemma NoFrame(shape: Shape, b: Bytes)
    requires !Parse(shape, b).Frame?
    ensures Frames(shape, b) == [] && Rest(shape, b) == b
  {
    hide Parse;
  }

  lemma HandleOne(shape: Shape, taken: Bytes, handled: seq<Bytes>, unparsed: Bytes)
    requires Accounts(shape, taken, handled, unparsed) && Parse(shape, unparsed).Frame?
    ensures var f, n := Parse(shape, unparsed).frame, Parse(shape, unparsed).consumed;
            && Accounts(shape, taken, handled + (if shape.Plain? && |f| == 0 then [] else [f]), unparsed[n..])
            && f in Frames(shape, taken)
  {
    hide Parse, Frames, Rest, Kept;
    var f, n := Parse(shape, unparsed).frame, Parse(shape, unparsed).consumed;
    FrameStep(shape, unparsed);
    var all, tail := Frames(shape, taken), Frames(shape, unparsed);
    assert all[|all| - |tail|..][0] == all[|all| - |tail|] == f;
    assert all[|all| - |tail| + 1..] == tail[1..] == Frames(shape, unparsed[n..]);
    KeptConcat(shape, [f], Frames(shape, unparsed[n..]));
    KeptOne(shape, f);
    assert handled + (Kept(shape, [f]) + Kept(shape, Frames(shape, unparsed[n..])))
        == (handled + Kept(shape, [f])) + Kept(shape, Frames(shape, unparsed[n..]));
  }

  lemma TakeIn(shape: Shape, taken: Bytes, handled: seq<Bytes>, unparsed: Bytes, chunk: Bytes)
    requires Accounts(shape, taken, handled, unparsed)
    ensures Accounts(shape, taken + chunk, handled, unparsed + chunk)
  {
    hide Parse, Frames, Rest, Kept;
    var later := Frames(shape, Rest(shape, taken) + chunk);
    FramesAppend(shape, taken, chunk);
    FramesAppend(shape, unparsed, chunk);
    KeptConcat(shape, Frames(shape, taken), later);
    KeptConcat(shape, Frames(shape, unparsed), later);
  }

  /** What is handed out is always a prefix of what was sent, less swallowed empty frames; nothing is missing
      once nothing complete is left to hand out. */
  lemma HandedOutInOrder(shape: Shape, records: seq<Bytes>, frames: seq<Bytes>, cut: Bytes, taken: Bytes,
                         delivered: seq<Bytes>, queued: seq<Bytes>, unparsed: Bytes)
    requires AreRecords(shape, records, frames) && IsCut(shape, cut) && taken <= Joined(records) + cut
    requires Accounts(shape, taken, delivered + queued, unparsed)
    ensures delivered <= Kept(shape, frames)
    ensures Joined(records) <= taken && queued == [] && Frames(shape, unparsed) == [] ==>
              delivered == Kept(shape, frames)
  {
    hide Parse, Frames, Rest, Joined, IsCut, AreRecords;
    CutStreamHoldsPrefix(shape, records, frames, cut, taken);
    var seen := Frames(shape, taken);
    assert frames == seen + frames[|seen|..];
    KeptConcat(shape, seen, frames[|seen|..]);
  }
}
