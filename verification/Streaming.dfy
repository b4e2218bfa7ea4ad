/** A streamed read: the server's chunking of a file and the client's buffering reader. */
module Streaming {
  import opened Text

  datatype Response = Response(chunk: Bytes, isLast: bool, totalSize: nat)

  // ---------- the server ----------

  /** The answer to a read that got these pieces before the end of the file or a read error. */
  function Responses(pieces: seq<Bytes>, fails: bool): (rs: seq<Response>)
    ensures |rs| == if pieces == [] && !fails then 1 else |pieces|
  {
    if pieces == [] then if fails then [] else [Response([], true, 0)]
    else
      seq(|pieces|, i requires 0 <= i < |pieces| =>
        Response(pieces[i], i == |pieces| - 1, if i == 0 then |Flatten(pieces)| else 0))
  }

  /** The read loop; a read error ends it like the end of the file does.  Afterwards the
      first chunk gets the total and the last chunk is flagged. */
  method ReadObject(pieces: seq<Bytes>, fails: bool) returns (chunks: seq<Response>)
    ensures chunks == Responses(pieces, fails)
  {
    chunks := [];
    var total := 0;
    for i := 0 to |pieces|
      invariant total == |Flatten(pieces[..i])|
      invariant |chunks| == i && forall j :: 0 <= j < i ==> chunks[j] == Response(pieces[j], false, 0)
    {
      OneMore(pieces, i);
      total := total + |pieces[i]|;
      chunks := chunks + [Response(pieces[i], false, 0)];
    }
    assert pieces[..|pieces|] == pieces;
    if !fails && chunks == [] {
      chunks := [Response([], true, 0)];
    }
    if chunks != [] {
      chunks := chunks[0 := chunks[0].(totalSize := total)];
      chunks := chunks[|chunks| - 1 := chunks[|chunks| - 1].(isLast := true)];
    }
  }

  /** The chunks are the reads; only the first one says how long the file is, only the last one is
      flagged, and an empty file is one empty flagged chunk. */
  lemma ResponsesExactly(pieces: seq<Bytes>, fails: bool)
    ensures var rs := Responses(pieces, fails);
            && (rs == [] <==> pieces == [] && fails)
            && (pieces == [] && !fails ==> rs == [Response([], true, 0)])
            && (forall i :: 0 <= i < |pieces| ==> rs[i].chunk == pieces[i] && (rs[i].isLast <==> i + 1 == |rs|))
            && (pieces != [] ==> |rs| == |pieces| && rs[0].totalSize == |Flatten(pieces)|)
            && (forall i :: 0 < i < |rs| ==> rs[i].totalSize == 0)
  {
  }

  lemma OneMore(pieces: seq<Bytes>, i: nat)
    requires i < |pieces|
    ensures Flatten(pieces[..i + 1]) == Flatten(pieces[..i]) + pieces[i]
  {
    FlattenSplit(pieces[..i], [pieces[i]]);
    assert pieces[..i + 1] == pieces[..i] + [pieces[i]];
    assert Flatten([pieces[i]]) == pieces[i] + Flatten<Byte>([]);
  }

  // ---------- the client ----------

  /** What the forwarder puts on the channel: data, and an error if the transport broke. */
  datatype Channel = Channel(data: seq<Bytes>, error: bool)

  /** The forwarding loop on the messages that arrived: nonempty chunks go on, a flagged chunk
      ends the loop, and only a loop that is still reading sees the transport break. */
  function Forwarded(arrived: seq<Response>, broken: bool): Channel {
    if arrived == [] then Channel([], broken)
    else
      var first := if arrived[0].chunk != [] then [arrived[0].chunk] else [];
      if arrived[0].isLast then Channel(first, false)
      else var rest := Forwarded(arrived[1..], broken); Channel(first + rest.data, rest.error)
  }

  /** How far the answer got: `k` of the chunks arrived, and the transport broke if that was
      not all of them. */
  ghost predicate Arrival(rs: seq<Response>, k: nat, broken: bool) {
    k <= |rs| && (k < |rs| ==> broken)
  }

  lemma {:induction false} ForwardsFrom(pieces: seq<Bytes>, fails: bool, k: nat, broken: bool, i: nat)
    requires i <= k <= |pieces| && pieces != [] && forall j :: 0 <= j < |pieces| ==> pieces[j] != []
    ensures Forwarded(Responses(pieces, fails)[i..k], broken)
            == Channel(pieces[i..k], broken && (i == |pieces| || k < |pieces|))
    decreases k - i
  {
    if i < k {
      ForwardsFrom(pieces, fails, k, broken, i + 1);
      var rs := Responses(pieces, fails);
      assert rs[i..k][0] == rs[i] && rs[i..k][1..] == rs[i + 1..k];
      assert pieces[i..k] == [pieces[i]] + pieces[i + 1..k];
      assert rs[i].isLast <==> i == |pieces| - 1;
      if i == |pieces| - 1 {
        assert pieces[i + 1..k] == [];
      }
    }
  }

  /** The channel carries exactly the pieces that arrived.  The error is passed on exactly when
      the transport broke before the flagged chunk, or there was none to wait for. */
  lemma ForwardsArrived(pieces: seq<Bytes>, fails: bool, k: nat, broken: bool)
    requires k <= |Responses(pieces, fails)| && forall j :: 0 <= j < |pieces| ==> pieces[j] != []
    ensures Forwarded(Responses(pieces, fails)[..k], broken)
            == Channel(if k <= |pieces| then pieces[..k] else pieces,
                       broken && (k < |Responses(pieces, fails)| || Responses(pieces, fails) == []))
  {
    var rs := Responses(pieces, fails);
    if pieces != [] {
      ForwardsFrom(pieces, fails, k, broken, 0);
      assert rs[0..k] == rs[..k] && pieces[0..k] == pieces[..k];
    } else if k > 0 {
      assert rs[..k] == [Response([], true, 0)];
    }
  }

  datatype Reader = Reader(buffer: Bytes, queue: seq<Bytes>, broken: bool) {
    function Remaining(): Bytes {
      buffer + Flatten(queue)
    }

    ghost predicate Valid() {
      forall i :: 0 <= i < |queue| ==> queue[i] != []
    }
  }

  datatype Poll = Pending | Ready(data: Bytes) | Failed

  function Min(a: nat, b: nat): nat {
    if a < b then a else b
  }

  /** One poll with room for `room` bytes; `arrived` says whether the channel has something
      to say yet. */
  function PollOf(r: Reader, room: nat, arrived: bool): (Reader, Poll) {
    if r.buffer != [] then
      var n := Min(|r.buffer|, room);
      (r.(buffer := r.buffer[n..]), Ready(r.buffer[..n]))
    else if !arrived then (r, Pending)
    else if r.queue != [] then
      var data := r.queue[0];
      var n := Min(|data|, room);
      (r.(buffer := data[n..], queue := r.queue[1..]), Ready(data[..n]))
    else if r.broken then (r.(broken := false), Failed)
    else (r, Ready([]))
  }

  class StreamingReader {
    var buffer: Bytes
    var queue: seq<Bytes>
    var broken: bool

    ghost function State(): Reader
      reads this
    {
      Reader(buffer, queue, broken)
    }

    constructor (arrived: seq<Response>, broken: bool)
      ensures State() == Open(arrived, broken)
    {
      var channel := Forwarded(arrived, broken);
      buffer, queue := [], channel.data;
      this.broken := channel.error;
    }

    method PollRead(room: nat, arrived: bool) returns (poll: Poll)
      modifies this
      ensures (State(), poll) == PollOf(old(State()), room, arrived)
    {
      if buffer != [] {
        var toCopy := Min(|buffer|, room);
        poll := Ready(buffer[..toCopy]);
        buffer := buffer[toCopy..];
        return;
      }
      if !arrived {
        return Pending;
      }
      if queue != [] {
        var data := queue[0];
        queue := queue[1..];
        var toCopy := Min(|data|, room);
        if toCopy < |data| {
          buffer := data[toCopy..];
        }
        return Ready(data[..toCopy]);
      }
      if broken {
        broken := false;
        return Failed;
      }
      poll := Ready([]);
    }
  }

  function Open(arrived: seq<Response>, broken: bool): Reader {
    var channel := Forwarded(arrived, broken);
    Reader([], channel.data, channel.error)
  }

  // ---------- runs of polls ----------

  /** A poll hands out the next bytes and keeps the rest; with room it comes back empty only
      when nothing remains, and an error comes only behind the last byte. */
  lemma PollIsLossless(r: Reader, room: nat, arrived: bool)
    requires r.Valid() && 0 < room
    ensures var (r', poll) := PollOf(r, room, arrived);
            && r'.Valid()
            && (poll.Ready? ==> poll.data + r'.Remaining() == r.Remaining() && |poll.data| <= room)
            && (!poll.Ready? ==> r'.Remaining() == r.Remaining())
            && (poll == Ready([]) <==> r.Remaining() == [] && !r.broken && arrived)
            && (poll.Failed? <==> r.Remaining() == [] && r.broken && arrived)
            && (poll.Pending? ==> !arrived)
            && (r'.broken <==> r.broken && !poll.Failed?)
  {
    if r.buffer != [] {
      BufferedPoll(r, room);
    } else if arrived && r.queue != [] {
      QueuedPoll(r, room);
    }
  }

  lemma BufferedPoll(r: Reader, room: nat)
    requires r.buffer != [] && 0 < room
    ensures var n := Min(|r.buffer|, room);
            0 < n <= room && r.buffer[..n] + (r.buffer[n..] + Flatten(r.queue)) == r.Remaining()
  {
    var n := Min(|r.buffer|, room);
    assert r.buffer == r.buffer[..n] + r.buffer[n..];
  }

  lemma QueuedPoll(r: Reader, room: nat)
    requires r.Valid() && r.buffer == [] && r.queue != [] && 0 < room
    ensures var n := Min(|r.queue[0]|, room);
            && 0 < n <= room
            && r.queue[0][..n] + (r.queue[0][n..] + Flatten(r.queue[1..])) == r.Remaining()
            && r.Remaining() != []
  {
    var data := r.queue[0];
    var n := Min(|data|, room);
    assert data == data[..n] + data[n..];
    assert Flatten(r.queue) == data + Flatten(r.queue[1..]);
  }

  /** What the caller has been told first: nothing yet, the end of the file, or an error. */
  datatype Verdict = Running | SawEnd | SawError

  /** What a run of polls delivered, and where it stands. */
  datatype Progress = Progress(reader: Reader, delivered: Bytes, verdict: Verdict)

  datatype Turn = Turn(room: nat, arrived: bool)

  function Next(p: Progress, turn: Turn): Progress {
    var (r, poll) := PollOf(p.reader, turn.room, turn.arrived);
    match poll
    case Pending => p.(reader := r)
    case Failed => p.(reader := r, verdict := if p.verdict.Running? then SawError else p.verdict)
    case Ready(data) =>
      Progress(r, p.delivered + data, if p.verdict.Running? && data == [] && 0 < turn.room then SawEnd else p.verdict)
  }

  function Played(p: Progress, turns: seq<Turn>): Progress
    decreases |turns|
  {
    if turns == [] then p else Played(Next(p, turns[0]), turns[1..])
  }

  /** Delivered bytes and bytes still held are always the whole content; a verdict comes only
      when none are held, and it is an error exactly if one was on the channel. */
  ghost predicate OnTrack(p: Progress, content: Bytes, error: bool) {
    && p.reader.Valid() && p.delivered + p.reader.Remaining() == content
    && (if p.verdict.Running? then p.reader.broken == error
        else p.reader.Remaining() == [] && !p.reader.broken && (p.verdict.SawError? <==> error))
  }

  lemma TurnKeepsTrack(p: Progress, turn: Turn, content: Bytes, error: bool)
    requires OnTrack(p, content, error) && 0 < turn.room
    ensures OnTrack(Next(p, turn), content, error)
    ensures turn.arrived && p.reader.Remaining() != [] ==> |Next(p, turn).delivered| > |p.delivered|
    ensures turn.arrived && p.reader.Remaining() == [] ==> !Next(p, turn).verdict.Running?
    ensures !p.verdict.Running? ==> !Next(p, turn).verdict.Running?
  {
    PollIsLossless(p.reader, turn.room, turn.arrived);
    var (r, poll) := PollOf(p.reader, turn.room, turn.arrived);
    if poll.Ready? {
      assert p.delivered + (poll.data + r.Remaining()) == p.delivered + poll.data + r.Remaining();
    }
  }

  lemma {:induction false} RunKeepsTrack(p: Progress, turns: seq<Turn>, content: Bytes, error: bool)
    requires OnTrack(p, content, error) && forall i :: 0 <= i < |turns| ==> 0 < turns[i].room
    ensures OnTrack(Played(p, turns), content, error)
    decreases |turns|
  {
    if turns != [] {
      TurnKeepsTrack(p, turns[0], content, error);
      RunKeepsTrack(Next(p, turns[0]), turns[1..], content, error);
    }
  }

  /** It ends: as many answered polls as there are bytes, and one more, bring the verdict. */
  lemma {:induction false} StreamEnds(p: Progress, turns: seq<Turn>, content: Bytes, error: bool)
    requires OnTrack(p, content, error)
    requires forall i :: 0 <= i < |turns| ==> 0 < turns[i].room && turns[i].arrived
    requires !p.verdict.Running? || |turns| > |p.reader.Remaining()|
    ensures Played(p, turns).verdict == (if error then SawError else SawEnd) && Played(p, turns).delivered == content
    decreases |turns|
  {
    if turns == [] {
      assert p.delivered + [] == p.delivered;
    } else {
      TurnKeepsTrack(p, turns[0], content, error);
      var q := Next(p, turns[0]);
      assert |q.delivered| + |q.reader.Remaining()| == |content| == |p.delivered| + |p.reader.Remaining()|;
      StreamEnds(q, turns[1..], content, error);
    }
  }

  // ---------- a file read through server and reader ----------

  function Start(pieces: seq<Bytes>, fails: bool, k: nat, broken: bool): Progress
    requires k <= |Responses(pieces, fails)|
  {
    Progress(Open(Responses(pieces, fails)[..k], broken), [], Running)
  }

  /** The pieces that reached the client. */
  function Received(pieces: seq<Bytes>, k: nat): seq<Bytes> {
    if k <= |pieces| then pieces[..k] else pieces
  }

  lemma StartIsOnTrack(pieces: seq<Bytes>, fails: bool, k: nat, broken: bool)
    requires Arrival(Responses(pieces, fails), k, broken) && forall i :: 0 <= i < |pieces| ==> pieces[i] != []
    ensures OnTrack(Start(pieces, fails, k, broken), Flatten(Received(pieces, k)),
                    broken && (k < |Responses(pieces, fails)| || Responses(pieces, fails) == []))
  {
    ForwardsArrived(pieces, fails, k, broken);
    var got := Flatten(Received(pieces, k));
    assert [] + got == got;
    assert [] + Start(pieces, fails, k, broken).reader.Remaining() == got;
  }

  /** For every split of the file into reads, every point at which the transport may break and
      every run of polls with room: what is delivered is a prefix of what the server read; an
      end of file means all of it was delivered; an error means that exactly the pieces that
      had arrived were. */
  lemma StreamIsLossless(pieces: seq<Bytes>, fails: bool, k: nat, broken: bool, turns: seq<Turn>)
    requires Arrival(Responses(pieces, fails), k, broken)
    requires forall i :: 0 <= i < |pieces| ==> pieces[i] != []
    requires forall i :: 0 <= i < |turns| ==> 0 < turns[i].room
    ensures var p := Played(Start(pieces, fails, k, broken), turns);
            && p.delivered <= Flatten(pieces)
            && (p.verdict.SawEnd? ==> p.delivered == Flatten(pieces))
            && (p.verdict.SawError? ==> p.delivered == Flatten(Received(pieces, k)))
            && (p.verdict.SawError? ==> (p.delivered == Flatten(pieces) <==> pieces == []))
  {
    StartIsOnTrack(pieces, fails, k, broken);
    var rs := Responses(pieces, fails);
    var got, error := Received(pieces, k), broken && (k < |rs| || rs == []);
    RunKeepsTrack(Start(pieces, fails, k, broken), turns, Flatten(got), error);
    ReceivedIsPrefix(pieces, k);
    var p := Played(Start(pieces, fails, k, broken), turns);
    assert p.delivered <= p.delivered + p.reader.Remaining() == Flatten(got);
    if !p.verdict.Running? {
      assert p.delivered + [] == p.delivered;
    }
    if !error {
      assert k >= |pieces| && got == pieces;
    }
  }

  /** Losing a nonempty piece loses bytes. */
  lemma ReceivedIsPrefix(pieces: seq<Bytes>, k: nat)
    requires forall i :: 0 <= i < |pieces| ==> pieces[i] != []
    ensures Flatten(Received(pieces, k)) <= Flatten(pieces)
    ensures Flatten(Received(pieces, k)) == Flatten(pieces) <==> |pieces| <= k
  {
    if k < |pieces| {
      FlattenSplit(pieces[..k], pieces[k..]);
      assert pieces == pieces[..k] + pieces[k..];
      assert Flatten(pieces[k..]) == pieces[k] + Flatten(pieces[k..][1..]);
    } else {
      assert pieces[..|pieces|] == pieces;
    }
  }

  /** With enough answered polls the verdict is known: an error exactly when the transport
      broke before the flagged chunk arrived. */
  lemma StreamVerdict(pieces: seq<Bytes>, fails: bool, k: nat, broken: bool, turns: seq<Turn>)
    requires Arrival(Responses(pieces, fails), k, broken)
    requires forall i :: 0 <= i < |pieces| ==> pieces[i] != []
    requires forall i :: 0 <= i < |turns| ==> 0 < turns[i].room && turns[i].arrived
    requires |turns| > |Flatten(pieces)|
    ensures Played(Start(pieces, fails, k, broken), turns).verdict
            == if broken && (k < |Responses(pieces, fails)| || Responses(pieces, fails) == []) then SawError else SawEnd
    ensures Played(Start(pieces, fails, k, broken), turns).delivered == Flatten(Received(pieces, k))
  {
    StartIsOnTrack(pieces, fails, k, broken);
    ReceivedIsPrefix(pieces, k);
    var rs := Responses(pieces, fails);
    var error := broken && (k < |rs| || rs == []);
    var p := Start(pieces, fails, k, broken);
    assert |p.reader.Remaining()| <= |Flatten(pieces)|;
    StreamEnds(p, turns, Flatten(Received(pieces, k)), error);
  }

  /** A read error on the server is not reported: the reader starts out as if the file had
      ended there, delivers what was read before it and sees a normal end of file, so it gets
      the file exactly when the error hit after its last byte. */
  lemma ReadErrorLooksLikeEnd(file: Bytes, pieces: seq<Bytes>, turns: seq<Turn>)
    requires forall i :: 0 <= i < |pieces| ==> pieces[i] != []
    requires forall i :: 0 <= i < |turns| ==> 0 < turns[i].room && turns[i].arrived
    requires Flatten(pieces) <= file && |turns| > |Flatten(pieces)|
    ensures Start(pieces, true, |pieces|, false) == Start(pieces, false, |Responses(pieces, false)|, false)
    ensures Played(Start(pieces, true, |pieces|, false), turns).verdict == SawEnd
    ensures Played(Start(pieces, true, |pieces|, false), turns).delivered == file <==> |Flatten(pieces)| == |file|
  {
    ForwardsArrived(pieces, true, |pieces|, false);
    ForwardsArrived(pieces, false, |Responses(pieces, false)|, false);
    assert pieces[..|pieces|] == pieces;
    StreamVerdict(pieces, true, |pieces|, false, turns);
  }
}
