/** The link between the two keyboard halves: the 4-byte frame codec
    (`ser` / `de`) and the sliding receive buffer of `read_packet`
    (Software/keyberon/src/main.rs). */
module Link {
  import opened Common
  import opened Events

  /** ASCII 'P', 'R' and '\n': the tag bytes and the frame terminator. */
  const TagPress: u8 := 0x50
  const TagRelease: u8 := 0x52
  const Terminator: u8 := 0x0A

  /** Every frame is tag, row, column, terminator. */
  const FrameLen: nat := 4

  predicate IsTag(b: u8) {
    b == TagPress || b == TagRelease
  }

  /** `ser`: the frame that carries an event over the serial link. */
  function Ser(e: Event): (r: seq<u8>)
    ensures |r| == FrameLen
    ensures r[0] == TagPress <==> e.Press?
    ensures IsTag(r[0])
    ensures r[1] == e.row && r[2] == e.col
    ensures r[3] == Terminator
  {
    match e
    case Press(i, j) => [TagPress, i, j, Terminator]
    case Release(i, j) => [TagRelease, i, j, Terminator]
  }

  /** `de`: parses a byte slice of any length; only a 4-byte slice with a
      tag in front and the terminator at the end is an event. */
  function De(bytes: seq<u8>): (r: Result<Event>)
    ensures r.Err? <==> !(|bytes| == FrameLen && IsTag(bytes[0]) && bytes[3] == Terminator)
  {
    if |bytes| == FrameLen && bytes[0] == TagPress && bytes[3] == Terminator then
      Ok(Press(bytes[1], bytes[2]))
    else if |bytes| == FrameLen && bytes[0] == TagRelease && bytes[3] == Terminator then
      Ok(Release(bytes[1], bytes[2]))
    else
      Err
  }

  /** Decoding undoes encoding. */
  lemma SerDeRoundTrip(e: Event)
    ensures De(Ser(e)) == Ok(e)
  {
  }

  /** A frame that decodes is exactly the encoding of what it decodes to:
      `de` accepts nothing but frames `ser` produces. */
  lemma DeInvertsSer(bytes: seq<u8>)
    ensures De(bytes).Ok? ==> Ser(De(bytes).value) == bytes
  {
  }

  /** Distinct events never share a frame. */
  lemma SerInjective(e1: Event, e2: Event)
    ensures Ser(e1) == Ser(e2) ==> e1 == e2
  {
  }

  /** The receive buffer `[u8; 4]` of one serial port. */
  type Buffer = s: seq<u8> | |s| == FrameLen witness [0, 0, 0, 0]

  /** The buffer each port starts with. */
  const InitialBuffer: Buffer := [0, 0, 0, 0]

  /** The buffer after a read, and the event (if any) the read completed. */
  datatype Received = Received(buf: Buffer, event: Option<Event>)

  /** `read_packet`: `read` is the outcome of the non-blocking UART read
      (`None` when it fails). A received byte is rotated into the back of the
      buffer; a frame is parsed only when that byte is the terminator, and a
      malformed frame yields no event. */
  function ReadPacket(read: Option<u8>, buf: Buffer): (r: Received)
    ensures read.None? ==> r == Received(buf, None)
    ensures read.Some? ==> r.buf == buf[1..] + [read.value]
    ensures r.event.Some? <==> read.Some? && read.value == Terminator && De(r.buf).Ok?
    ensures r.event.Some? ==> De(r.buf) == Ok(r.event.value)
  {
    match read
    case None => Received(buf, None)
    case Some(b) =>
      var rotated := buf[1..] + [buf[0]];
      var shifted: Buffer := rotated[3 := b];
      if shifted[3] == Terminator then
        match De(shifted)
        case Ok(e) => Received(shifted, Some(e))
        case Err => Received(shifted, None)
      else
        Received(shifted, None)
  }

  /** The number of terminator bytes in a byte stream. */
  function Terminators(bytes: seq<u8>): nat
  {
    if bytes == [] then 0
    else (if bytes[0] == Terminator then 1 else 0) + Terminators(bytes[1..])
  }

  /** `read_packet` after a successful read of `b`, as one step of a byte
      stream: the new buffer and the events it completed (none or one). */
  function ReadByte(buf: Buffer, b: u8): (Buffer, seq<Event>)
  {
    var r := ReadPacket(Some(b), buf);
    (r.buf, OptionToSeq(r.event))
  }

  /** Feeds a byte stream, one successful read per byte, through
      `read_packet`; yields the final buffer and the events in arrival order. */
  function Feed(buf: Buffer, bytes: seq<u8>): (Buffer, seq<Event>)
  {
    Scan(ReadByte, buf, bytes)
  }

  /** The buffer is a sliding window: it always holds the last four bytes
      seen, topped up from the starting buffer while fewer have arrived. */
  lemma {:induction false} FeedWindow(buf: Buffer, bytes: seq<u8>)
    ensures |bytes| >= FrameLen ==> Feed(buf, bytes).0 == bytes[|bytes| - FrameLen..]
    ensures |bytes| < FrameLen ==> Feed(buf, bytes).0 == buf[|bytes|..] + bytes
    decreases |bytes|
  {
    if bytes != [] {
      var next := ReadByte(buf, bytes[0]);
      var tail := bytes[1..];
      assert next.0 == buf[1..] + [bytes[0]];
      assert Feed(buf, bytes) == (Feed(next.0, tail).0, next.1 + Feed(next.0, tail).1);
      FeedWindow(next.0, tail);
      if |tail| >= FrameLen {
        assert tail[|tail| - FrameLen..] == bytes[|bytes| - FrameLen..];
      } else if |tail| == FrameLen - 1 {
        assert next.0[|tail|..] == [bytes[0]];
        assert [bytes[0]] + tail == bytes;
      } else {
        assert next.0[|tail|..] == buf[|bytes|..] + [bytes[0]];
        assert buf[|bytes|..] + [bytes[0]] + tail == buf[|bytes|..] + bytes;
      }
    }
  }

  /** At most one event per terminator byte: no byte but '\n' completes a frame. */
  lemma {:induction false} FeedEventsBounded(buf: Buffer, bytes: seq<u8>)
    ensures |Feed(buf, bytes).1| <= Terminators(bytes)
    decreases |bytes|
  {
    if bytes != [] {
      FeedEventsBounded(ReadByte(buf, bytes[0]).0, bytes[1..]);
    }
  }

  /** Feeding a stream in two pieces is feeding it whole. */
  lemma FeedAppend(buf: Buffer, a: seq<u8>, b: seq<u8>)
    ensures Feed(buf, a + b).0 == Feed(Feed(buf, a).0, b).0
    ensures Feed(buf, a + b).1 == Feed(buf, a).1 + Feed(Feed(buf, a).0, b).1
  {
    ScanAppend(ReadByte, buf, a, b);
  }

  /** The frames of a sequence of events, back to back. */
  function Frames(es: seq<Event>): seq<u8>
  {
    FlatMap(Ser, es)
  }

  /** Feeding four bytes is four `read_packet` steps. */
  lemma FeedFour(buf: Buffer, f: seq<u8>)
    requires |f| == FrameLen
    ensures var r1 := ReadByte(buf, f[0]);
      var r2 := ReadByte(r1.0, f[1]);
      var r3 := ReadByte(r2.0, f[2]);
      var r4 := ReadByte(r3.0, f[3]);
      Feed(buf, f) == (r4.0, r1.1 + r2.1 + r3.1 + r4.1)
  {
    var r1 := ReadByte(buf, f[0]);
    var r2 := ReadByte(r1.0, f[1]);
    var r3 := ReadByte(r2.0, f[2]);
    var r4 := ReadByte(r3.0, f[3]);
    assert f == [f[0]] + ([f[1]] + ([f[2]] + ([f[3]] + [])));
    ScanCons(ReadByte, r3.0, f[3], []);
    assert Scan(ReadByte, r3.0, [f[3]] + []) == (r4.0, r4.1 + []);
    ScanCons(ReadByte, r2.0, f[2], [f[3]] + []);
    assert Scan(ReadByte, r2.0, [f[2]] + ([f[3]] + [])) == (r4.0, r3.1 + (r4.1 + []));
    ScanCons(ReadByte, r1.0, f[1], [f[2]] + ([f[3]] + []));
    assert Scan(ReadByte, r1.0, [f[1]] + ([f[2]] + ([f[3]] + []))) == (r4.0, r2.1 + (r3.1 + (r4.1 + [])));
    ScanCons(ReadByte, buf, f[0], [f[1]] + ([f[2]] + ([f[3]] + [])));
    assert r1.1 + (r2.1 + (r3.1 + (r4.1 + []))) == r1.1 + r2.1 + r3.1 + r4.1;
  }

  /** Resynchronisation: whatever the buffer holds, the four bytes of a frame
      deliver its event on the terminator; the tag byte never yields an event,
      and neither does the row or column byte unless it is itself '\n'. */
  lemma SelfHeal(buf: Buffer, e: Event)
    ensures var f := Ser(e);
      var s1 := ReadPacket(Some(f[0]), buf);
      var s2 := ReadPacket(Some(f[1]), s1.buf);
      var s3 := ReadPacket(Some(f[2]), s2.buf);
      var s4 := ReadPacket(Some(f[3]), s3.buf);
      && s1.event == None
      && (e.row != Terminator ==> s2.event == None)
      && (e.col != Terminator ==> s3.event == None)
      && s4 == Received(f, Some(e))
  {
  }

  /** One frame arriving on a buffer whose last byte is not a tag yields
      exactly its event, provided its row byte is not '\n'. */
  lemma {:induction false} OneFrame(buf: Buffer, e: Event)
    requires !IsTag(buf[3])
    requires e.row != Terminator
    ensures Feed(buf, Ser(e)) == (Ser(e), [e])
  {
    var f := Ser(e);
    FeedFour(buf, f);
    var r1 := ReadByte(buf, f[0]);
    var r2 := ReadByte(r1.0, f[1]);
    var r3 := ReadByte(r2.0, f[2]);
    assert r1.1 == [] && r2.1 == [];
    assert r3.0 == [buf[3], f[0], f[1], f[2]];
    assert r3.1 == [];
    assert r3.0[1..] + [f[3]] == f;
    SerDeRoundTrip(e);
    assert ReadByte(r3.0, f[3]) == (f, [e]);
    assert r1.1 + r2.1 + r3.1 + [e] == [e];
  }

  /** Framing of a stream: starting from a buffer whose last byte is not a
      tag (the all-zero initial buffer, or any buffer that just completed a
      frame), back-to-back frames decode to exactly the events they carry,
      in order, as long as no row byte is '\n'. */
  lemma {:induction false} StreamDecodes(buf: Buffer, es: seq<Event>)
    requires !IsTag(buf[3])
    requires forall i :: 0 <= i < |es| ==> es[i].row != Terminator
    ensures Feed(buf, Frames(es)).1 == es
    decreases |es|
  {
    if es != [] {
      OneFrame(buf, es[0]);
      FeedAppend(buf, Ser(es[0]), Frames(es[1..]));
      StreamDecodes(Ser(es[0]), es[1..]);
    }
  }

  /** Without the row condition the stream can mis-frame: a row byte equal to
      '\n' right after a frame whose column byte is 'P' completes a spurious
      event from the bytes straddling the two frames. */
  lemma RowTerminatorMisframes()
    ensures Feed(InitialBuffer, Frames([Press(0, TagPress), Press(Terminator, 0)])).1
         == [Press(0, TagPress), Press(Terminator, TagPress), Press(Terminator, 0)]
  {
    var e1, e2 := Press(0, TagPress), Press(Terminator, 0);
    var es := [e1, e2];
    assert Frames(es) == Ser(e1) + Ser(e2) by {
      assert es == [e1] + [e2];
      FlatMapAppend(Ser, [e1], [e2]);
      FlatMapSingle(Ser, e1);
      FlatMapSingle(Ser, e2);
    }
    OneFrame(InitialBuffer, e1);
    FeedAppend(InitialBuffer, Ser(e1), Ser(e2));
    var b0: Buffer := Ser(e1);
    FeedFour(b0, Ser(e2));
    assert ReadByte(b0, TagPress).1 == [];
    var b1: Buffer := [0, TagPress, Terminator, TagPress];
    assert ReadByte(b1, Terminator).1 == [Press(Terminator, TagPress)];
    var b2: Buffer := [TagPress, Terminator, TagPress, Terminator];
    assert ReadByte(b2, 0).1 == [];
    var b3: Buffer := [Terminator, TagPress, Terminator, 0];
    assert ReadByte(b3, Terminator).1 == [e2];
  }
}
