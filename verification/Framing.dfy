/** Length-prefixed gRPC messages: the writer, the single-frame parser, and the strict and
    the lenient stream parsers. */
module Framing {
  import opened Text

  const HEADER_LEN: nat := 5
  const U32: nat := 0x1_0000_0000

  /** A frame on the wire; the flag is read but never looked at. */
  datatype Frame = Frame(flag: Byte, message: Bytes)

  function Pow256(k: nat): nat {
    if k == 0 then 1 else 256 * Pow256(k - 1)
  }

  function BytesOf(n: nat, k: nat): (b: Bytes)
    ensures |b| == k
  {
    if k == 0 then [] else BytesOf(n / 256, k - 1) + [n % 256]
  }

  function FromBigEndian(b: Bytes): (n: nat) {
    if b == [] then 0 else FromBigEndian(b[..|b| - 1]) * 256 + b[|b| - 1]
  }

  /** `to_be_bytes` of a 32-bit number. */
  function BigEndian(n: nat): (b: Bytes)
    ensures |b| == 4
  {
    BytesOf(n, 4)
  }

  lemma {:induction false} BytesRoundTrip(n: nat, k: nat)
    requires n < Pow256(k)
    ensures FromBigEndian(BytesOf(n, k)) == n
  {
    if k > 0 {
      assert n / 256 < Pow256(k - 1);
      BytesRoundTrip(n / 256, k - 1);
      var b := BytesOf(n, k);
      assert b[..k - 1] == BytesOf(n / 256, k - 1);
    }
  }

  lemma {:induction false} NumberRoundTrip(b: Bytes)
    ensures FromBigEndian(b) < Pow256(|b|) && BytesOf(FromBigEndian(b), |b|) == b
  {
    if b != [] {
      var init, last := b[..|b| - 1], b[|b| - 1];
      NumberRoundTrip(init);
      var n := FromBigEndian(init);
      var whole: nat := n * 256 + last;
      assert whole / 256 == n && whole % 256 == last;
      assert b == init + [last];
    }
  }

  lemma FourBytes()
    ensures Pow256(4) == U32
  {
    assert Pow256(1) == 256 && Pow256(2) == 0x1_0000 && Pow256(3) == 0x100_0000;
  }

  lemma BigEndianRoundTrip(n: nat)
    requires n < U32
    ensures FromBigEndian(BigEndian(n)) == n
  {
    FourBytes();
    BytesRoundTrip(n, 4);
  }

  lemma FromBigEndianRoundTrip(b: Bytes)
    requires |b| == 4
    ensures FromBigEndian(b) < U32 && BigEndian(FromBigEndian(b)) == b
  {
    FourBytes();
    NumberRoundTrip(b);
  }

  /** The first byte is the most significant one. */
  lemma BigEndianExactly(n: nat)
    requires n < U32
    ensures var b := BigEndian(n);
            n == (b[0] as int) * 0x100_0000 + (b[1] as int) * 0x1_0000 + (b[2] as int) * 0x100 + b[3] as int
  {
    var b := BigEndian(n);
    BigEndianRoundTrip(n);
    assert b == [b[0], b[1], b[2], b[3]];
    assert FromBigEndian([b[0]]) == FromBigEndian([]) * 256 + b[0] == b[0];
    assert [b[0], b[1]][..1] == [b[0]] && [b[0], b[1], b[2]][..2] == [b[0], b[1]];
    assert [b[0], b[1], b[2], b[3]][..3] == [b[0], b[1], b[2]];
    assert FromBigEndian([b[0], b[1]]) == (b[0] as int) * 256 + b[1] as int;
    assert FromBigEndian([b[0], b[1], b[2]]) == ((b[0] as int) * 256 + b[1] as int) * 256 + b[2] as int;
  }

  // ---------- writing ----------

  /** One frame.  The length is cast to 32 bits. */
  function EncodeFrame(f: Frame): Bytes {
    [f.flag] + BigEndian(|f.message| % U32) + f.message
  }

  function Wire(frames: seq<Frame>): Bytes {
    if frames == [] then [] else EncodeFrame(frames[0]) + Wire(frames[1..])
  }

  function Plain(messages: seq<Bytes>): (frames: seq<Frame>)
    ensures |frames| == |messages| && forall i :: 0 <= i < |frames| ==> frames[i] == Frame(0, messages[i])
  {
    seq(|messages|, i requires 0 <= i < |messages| => Frame(0, messages[i]))
  }

  /** A frame on the wire: one flag byte, four bytes of length, most significant first, and the
      message. */
  lemma FrameLayout(f: Frame)
    requires |f.message| < U32
    ensures var e := EncodeFrame(f);
            && |e| == 5 + |f.message| && e[0] == f.flag && e[5..] == f.message
            && |f.message| == (e[1] as int) * 0x100_0000 + (e[2] as int) * 0x1_0000 + (e[3] as int) * 0x100 + e[4] as int
  {
    FitsField(|f.message|);
    BigEndianExactly(|f.message|);
    FourPieces(f.flag, BigEndian(|f.message|), f.message, []);
    var e := EncodeFrame(f);
    assert e + [] == e;
    assert e[1..5][0] == e[1] && e[1..5][1] == e[2] && e[1..5][2] == e[3] && e[1..5][3] == e[4];
  }

  lemma FitsField(n: nat)
    requires n < U32
    ensures n % U32 == n
  {
  }

  /** Where the pieces of a frame and what follows it lie. */
  lemma FourPieces(x: Byte, len: Bytes, message: Bytes, rest: Bytes)
    requires |len| == 4
    ensures var b := [x] + len + message + rest;
            && |b| == 5 + |message| + |rest| && b[0] == x && b[1..5] == len
            && b[5..5 + |message|] == message && b[5 + |message|..] == rest
  {
  }

  lemma {:induction false} WireSplit(a: seq<Frame>, b: seq<Frame>)
    ensures Wire(a + b) == Wire(a) + Wire(b)
  {
    if a == [] {
      assert a + b == b;
    } else {
      WireSplit(a[1..], b);
      assert (a + b)[0] == a[0] && (a + b)[1..] == a[1..] + b;
      JoinThree(EncodeFrame(a[0]), Wire(a[1..]), Wire(b));
    }
  }

  lemma JoinThree(x: Bytes, y: Bytes, z: Bytes)
    ensures x + (y + z) == x + y + z
  {
  }

  method WriteFrames(messages: seq<Bytes>) returns (buf: Bytes)
    ensures buf == Wire(Plain(messages))
  {
    buf := [];
    ghost var frames := Plain(messages);
    var i := 0;
    while i < |messages|
      invariant 0 <= i <= |messages|
      invariant buf == Wire(frames[..i])
    {
      var message := messages[i];
      WireSplit(frames[..i], [frames[i]]);
      assert frames[..i + 1] == frames[..i] + [frames[i]];
      assert Wire([frames[i]]) == EncodeFrame(frames[i]) + Wire([]);
      ghost var before := buf;
      buf := buf + [0];
      var len := |message| % U32;
      buf := buf + BigEndian(len);
      buf := buf + message;
      assert buf == before + EncodeFrame(frames[i]);
      i := i + 1;
    }
    assert frames[..i] == frames;
  }

  // ---------- reading ----------

  function MessageLength(body: Bytes): nat
    requires HEADER_LEN <= |body|
  {
    FromBigEndian(body[1..5])
  }

  predicate HasFrame(body: Bytes) {
    HEADER_LEN <= |body| && HEADER_LEN + MessageLength(body) <= |body|
  }

  function FirstFrame(body: Bytes): Frame
    requires HasFrame(body)
  {
    Frame(body[0], body[HEADER_LEN..HEADER_LEN + MessageLength(body)])
  }

  function AfterFirst(body: Bytes): (rest: Bytes)
    requires HasFrame(body)
    ensures |rest| < |body|
  {
    body[HEADER_LEN + MessageLength(body)..]
  }

  /** The single-frame parser: the first message, whatever follows it. */
  function ParseFrame(body: Bytes): Option<Bytes> {
    if HasFrame(body) then Some(FirstFrame(body).message) else None
  }

  /** A body as its run of complete frames and what is left over. */
  datatype Run = Run(frames: seq<Frame>, rest: Bytes)

  function RunOf(body: Bytes): Run
    decreases |body|
  {
    if !HasFrame(body) then Run([], body)
    else var later := RunOf(AfterFirst(body)); Run([FirstFrame(body)] + later.frames, later.rest)
  }

  /** Frames as a reader can find them: each length fits its field. */
  ghost predicate Sized(frames: seq<Frame>) {
    forall i :: 0 <= i < |frames| ==> |frames[i].message| < U32
  }

  lemma FrameIsRead(f: Frame, rest: Bytes)
    requires |f.message| < U32
    ensures var body := EncodeFrame(f) + rest;
            HasFrame(body) && FirstFrame(body) == f && AfterFirst(body) == rest
  {
    FitsField(|f.message|);
    FourPieces(f.flag, BigEndian(|f.message|), f.message, rest);
    BigEndianRoundTrip(|f.message|);
  }

  lemma FirstIsSized(body: Bytes)
    requires HasFrame(body)
    ensures |FirstFrame(body).message| == MessageLength(body) < U32
    ensures BigEndian(MessageLength(body)) == body[1..5]
  {
    FromBigEndianRoundTrip(body[1..5]);
  }

  lemma FrameIsWritten(body: Bytes)
    requires HasFrame(body)
    ensures body == EncodeFrame(FirstFrame(body)) + AfterFirst(body)
  {
    FirstIsSized(body);
    FitsField(MessageLength(body));
    Pieces(body, MessageLength(body));
  }

  lemma Pieces(body: Bytes, len: nat)
    requires HEADER_LEN + len <= |body|
    ensures body == [body[0]] + body[1..5] + body[5..5 + len] + body[5 + len..]
  {
  }

  /** The run is maximal: what is left starts no complete frame. */
  lemma {:induction false} RunIsMaximal(body: Bytes)
    ensures Sized(RunOf(body).frames) && !HasFrame(RunOf(body).rest)
    decreases |body|
  {
    if HasFrame(body) {
      FirstIsSized(body);
      RunIsMaximal(AfterFirst(body));
    }
  }

  /** The run and what is left spell the body. */
  lemma {:induction false} RunSpellsBody(body: Bytes)
    ensures body == Wire(RunOf(body).frames) + RunOf(body).rest
    decreases |body|
  {
    if HasFrame(body) {
      FrameIsWritten(body);
      var f, after := FirstFrame(body), AfterFirst(body);
      RunSpellsBody(after);
      RunStep(body);
      var later := RunOf(after);
      WireStep(f, later.frames);
      Regroup(EncodeFrame(f), Wire(later.frames), later.rest);
    }
  }

  lemma Regroup(a: Bytes, b: Bytes, c: Bytes)
    ensures a + (b + c) == a + b + c
  {
  }

  lemma RunStep(body: Bytes)
    requires HasFrame(body)
    ensures RunOf(body) == Run([FirstFrame(body)] + RunOf(AfterFirst(body)).frames, RunOf(AfterFirst(body)).rest)
  {
  }

  lemma WireStep(f: Frame, frames: seq<Frame>)
    ensures Wire([f] + frames) == EncodeFrame(f) + Wire(frames)
  {
    assert ([f] + frames)[1..] == frames;
  }

  /** Any way to spell a body as sized frames and a rest without a complete frame is the run. */
  lemma {:induction false} RunIsUnique(frames: seq<Frame>, rest: Bytes)
    requires Sized(frames) && !HasFrame(rest)
    ensures RunOf(Wire(frames) + rest) == Run(frames, rest)
  {
    if frames == [] {
      assert Wire(frames) + rest == rest;
    } else {
      var tail := Wire(frames[1..]) + rest;
      assert Wire(frames) + rest == EncodeFrame(frames[0]) + tail;
      FrameIsRead(frames[0], tail);
      RunIsUnique(frames[1..], rest);
    }
  }

  /** Writing and reading back: the list survives exactly when every message has fewer than
      2^32 bytes; a longer one is read back cut short. */
  lemma RoundTripExactly(messages: seq<Bytes>)
    ensures RunOf(Wire(Plain(messages))) == Run(Plain(messages), [])
            <==> forall i :: 0 <= i < |messages| ==> |messages[i]| < U32
  {
    var frames := Plain(messages);
    if Sized(frames) {
      RunIsUnique(frames, []);
      assert Wire(frames) + [] == Wire(frames);
      assert forall i :: 0 <= i < |messages| ==> messages[i] == frames[i].message;
    } else {
      RunIsMaximal(Wire(frames));
      var i :| 0 <= i < |frames| && |frames[i].message| >= U32;
      assert frames[i].message == messages[i];
    }
  }

  /** The single-frame parser gives the message back exactly when it fits the length field. */
  lemma SingleRoundTrip(message: Bytes, rest: Bytes)
    ensures ParseFrame(EncodeFrame(Frame(0, message)) + rest) == Some(message) <==> |message| < U32
  {
    var body := EncodeFrame(Frame(0, message)) + rest;
    if |message| < U32 {
      FrameIsRead(Frame(0, message), rest);
    } else if HasFrame(body) {
      FirstIsSized(body);
    }
  }

  // ---------- the stream parsers ----------

  /** All messages decoded in order, or nothing if one of them does not decode. */
  function DecodeAll<T>(frames: seq<Frame>, decode: Bytes -> Option<T>): Option<seq<T>> {
    if frames == [] then Some([])
    else
      var end := |frames| - 1;
      match (DecodeAll(frames[..end], decode), decode(frames[end].message))
      case (Some(init), Some(last)) => Some(init + [last])
      case _ => None
  }

  lemma {:induction false} DecodeFailsEarly<T>(frames: seq<Frame>, k: nat, decode: Bytes -> Option<T>)
    requires k <= |frames| && DecodeAll(frames[..k], decode).None?
    ensures DecodeAll(frames, decode).None?
    decreases |frames|
  {
    if k < |frames| {
      var end := |frames| - 1;
      assert frames[..end][..k] == frames[..k];
      DecodeFailsEarly(frames[..end], k, decode);
    } else {
      assert frames[..k] == frames;
    }
  }

  /** A loop has found these frames in front of the offset. */
  ghost predicate Reached(body: Bytes, offset: nat, found: seq<Frame>)
    requires offset <= |body|
  {
    var ahead := RunOf(body[offset..]);
    RunOf(body) == Run(found + ahead.frames, ahead.rest)
  }

  lemma StartOfRun(body: Bytes)
    ensures Reached(body, 0, [])
  {
    assert body[0..] == body;
    assert [] + RunOf(body).frames == RunOf(body).frames;
  }

  lemma EndOfRun(body: Bytes, offset: nat, found: seq<Frame>)
    requires offset <= |body| && Reached(body, offset, found)
    requires !HasFrame(body[offset..])
    ensures RunOf(body) == Run(found, body[offset..])
  {
    assert found + [] == found;
  }

  lemma ShortOfRun(body: Bytes, offset: nat, found: seq<Frame>)
    requires offset < |body| && Reached(body, offset, found)
    requires !HasFrame(body[offset..])
    ensures RunOf(body).rest != []
  {
  }

  /** One turn of either loop: the next frame is decoded and the offset moves past it. */
  lemma NextFrame(body: Bytes, offset: nat, found: seq<Frame>)
    requires offset <= |body| && HasFrame(body[offset..]) && Reached(body, offset, found)
    ensures var f := FirstFrame(body[offset..]);
            var next := offset + HEADER_LEN + |f.message|;
            offset < next <= |body| && found + [f] <= RunOf(body).frames && Reached(body, next, found + [f])
  {
    var here := body[offset..];
    var f := FirstFrame(here);
    var next := offset + HEADER_LEN + |f.message|;
    assert AfterFirst(here) == body[next..];
    var ahead := RunOf(body[next..]);
    RunStep(here);
    assert found + ([f] + ahead.frames) == found + [f] + ahead.frames;
  }

  lemma DecodeNext<T>(found: seq<Frame>, f: Frame, decode: Bytes -> Option<T>, all: seq<Frame>)
    requires DecodeAll(found, decode).Some? && found + [f] <= all
    ensures decode(f.message).None? ==> DecodeAll(all, decode).None?
    ensures decode(f.message).Some? ==>
              DecodeAll(found + [f], decode) == Some(DecodeAll(found, decode).value + [decode(f.message).value])
  {
    assert (found + [f])[..|found|] == found;
    if decode(f.message).None? {
      assert all[..|found| + 1] == found + [f];
      DecodeFailsEarly(all, |found| + 1, decode);
    }
  }

  /** A loop that has decoded these messages of the frames in front of the offset. */
  ghost predicate Progress<T>(body: Bytes, offset: nat, found: seq<Frame>, decode: Bytes -> Option<T>, messages: seq<T>) {
    offset <= |body| && Reached(body, offset, found) && DecodeAll(found, decode) == Some(messages)
  }

  lemma ProgressNext<T>(body: Bytes, offset: nat, found: seq<Frame>, decode: Bytes -> Option<T>, messages: seq<T>)
    requires Progress(body, offset, found, decode, messages) && HasFrame(body[offset..])
    ensures var f := FirstFrame(body[offset..]);
            && offset < offset + HEADER_LEN + |f.message| <= |body|
            && (decode(f.message).None? ==> DecodeAll(RunOf(body).frames, decode).None?)
            && (decode(f.message).Some? ==>
                  Progress(body, offset + HEADER_LEN + |f.message|, found + [f], decode, messages + [decode(f.message).value]))
  {
    NextFrame(body, offset, found);
    DecodeNext(found, FirstFrame(body[offset..]), decode, RunOf(body).frames);
  }

  /** Both loops: header complete, length, body complete, message. */
  method ReadFrame(body: Bytes, offset: nat) returns (message: Option<Bytes>)
    requires offset <= |body|
    ensures message.Some? <==> HasFrame(body[offset..])
    ensures message.Some? ==> message.value == FirstFrame(body[offset..]).message
  {
    if |body| - offset < HEADER_LEN {
      return None;
    }
    var here := body[offset..];
    var len := FromBigEndian(here[1..5]);
    if |body| - offset < HEADER_LEN + len {
      return None;
    }
    message := Some(here[HEADER_LEN..HEADER_LEN + len]);
  }

  /** The lenient loop of the replication server: it stops where bytes run short and keeps
      what it has. */
  method ParseLenient<T>(body: Bytes, decode: Bytes -> Option<T>) returns (r: Option<seq<T>>)
    ensures r == DecodeAll(RunOf(body).frames, decode)
  {
    var messages: seq<T>, offset: nat := [], 0;
    ghost var found: seq<Frame> := [];
    StartOfRun(body);
    while offset < |body|
      invariant Progress(body, offset, found, decode, messages)
    {
      var message := ReadFrame(body, offset);
      if message.None? {
        break;
      }
      ghost var f := FirstFrame(body[offset..]);
      ProgressNext(body, offset, found, decode, messages);
      var decoded := decode(message.value);
      if decoded.None? {
        return None;
      }
      messages := messages + [decoded.value];
      found := found + [f];
      offset := offset + HEADER_LEN + |message.value|;
    }
    EndOfRun(body, offset, found);
    r := Some(messages);
  }

  /** The strict loop of the Raft server: running short is an error. */
  method ParseStrict<T>(body: Bytes, decode: Bytes -> Option<T>) returns (r: Option<seq<T>>)
    ensures r == if RunOf(body).rest == [] then DecodeAll(RunOf(body).frames, decode) else None
  {
    var messages: seq<T>, offset: nat := [], 0;
    ghost var found: seq<Frame> := [];
    StartOfRun(body);
    while offset < |body|
      invariant Progress(body, offset, found, decode, messages)
    {
      var message := ReadFrame(body, offset);
      if message.None? {
        ShortOfRun(body, offset, found);
        return None;
      }
      ghost var f := FirstFrame(body[offset..]);
      ProgressNext(body, offset, found, decode, messages);
      var decoded := decode(message.value);
      if decoded.None? {
        return None;
      }
      messages := messages + [decoded.value];
      found := found + [f];
      offset := offset + HEADER_LEN + |message.value|;
    }
    EndOfRun(body, offset, found);
    r := Some(messages);
  }

  // ---------- cut bodies ----------

  /** How many of the frames arrive whole in the first `n` bytes of their wire form. */
  function Arrived(frames: seq<Frame>, n: nat): (k: nat)
    ensures k <= |frames|
  {
    if frames == [] || n < |EncodeFrame(frames[0])| then 0
    else 1 + Arrived(frames[1..], n - |EncodeFrame(frames[0])|)
  }

  /** Of a stream that was cut off anywhere, the lenient parser finds exactly the frames that
      arrived whole, and nothing is left over exactly when the cut fell between frames. */
  lemma {:induction false} CutStream(frames: seq<Frame>, n: nat)
    requires Sized(frames) && n <= |Wire(frames)|
    ensures RunOf(Wire(frames)[..n]).frames == frames[..Arrived(frames, n)]
    ensures RunOf(Wire(frames)[..n]).rest == [] <==> n == |Wire(frames[..Arrived(frames, n)])|
  {
    if frames != [] {
      var first, later := EncodeFrame(frames[0]), Wire(frames[1..]);
      var body := Wire(frames)[..n];
      assert Wire(frames) == first + later;
      if n < |first| {
        CutInFrame(frames[0], later, n);
      } else {
        var m := n - |first|;
        CutStream(frames[1..], m);
        assert body == first + later[..m];
        CutAfterFrame(frames, later[..m], Arrived(frames[1..], m));
      }
    }
  }

  lemma CutAfterFrame(frames: seq<Frame>, tail: Bytes, k: nat)
    requires frames != [] && |frames[0].message| < U32 && k < |frames|
    requires RunOf(tail).frames == frames[1..][..k]
    ensures RunOf(EncodeFrame(frames[0]) + tail).frames == frames[..k + 1]
    ensures RunOf(EncodeFrame(frames[0]) + tail).rest == RunOf(tail).rest
    ensures Wire(frames[..k + 1]) == EncodeFrame(frames[0]) + Wire(frames[1..][..k])
  {
    FrameIsRead(frames[0], tail);
    RunStep(EncodeFrame(frames[0]) + tail);
    assert frames[..k + 1] == [frames[0]] + frames[1..][..k];
    WireStep(frames[0], frames[1..][..k]);
  }

  lemma CutInFrame(f: Frame, rest: Bytes, n: nat)
    requires |f.message| < U32 && n < |EncodeFrame(f)|
    ensures !HasFrame((EncodeFrame(f) + rest)[..n])
  {
    var body := (EncodeFrame(f) + rest)[..n];
    if HEADER_LEN <= n {
      assert body[1..5] == BigEndian(|f.message|);
      BigEndianRoundTrip(|f.message|);
    }
  }
}
