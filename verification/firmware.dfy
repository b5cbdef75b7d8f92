/** The two firmware tasks that drive the link, as sequential traces:
    `tick` (scan, translate, broadcast on both serial links, hand each event
    to `handle_event`) and `handle_event` (apply an event, or, once per scan,
    advance the layout and refresh LEDs and report), in
    Software/keyberon/src/main.rs. The layout engine is a library whose
    behaviour is given as parameters. */
module Firmware {
  import opened Common
  import opened Events
  import opened Link
  import opened Board
  import opened Bits

  /** The output level driven on an open-drain LED pin (the LEDs are active-low). */
  datatype Level = Low | High

  /** Number of layer LEDs. */
  const LedCount: nat := 3

  /** The LED loop of `handle_event`: each LED in turn is driven low when the
      lowest bit of `layer` is set, then `layer` is shifted right. LED `k`
      ends up low exactly when bit `k` of the layer number is set. */
  function ShiftLeds(layer: nat, n: nat): (leds: seq<Level>)
    ensures |leds| == n
    ensures forall k :: 0 <= k < n ==> (leds[k] == Low <==> Bit(layer, k))
    decreases n
  {
    if n == 0 then []
    else
      var rest := ShiftLeds(layer / 2, n - 1);
      assert forall k :: 0 <= k < n - 1 ==> (Bit(layer / 2, k) <==> Bit(layer, k + 1)) by {
        forall k | 0 <= k < n - 1 {
          BitShift(layer, k);
        }
      }
      [if layer % 2 != 0 then Low else High] + rest
  }

  /** The layout engine, left abstract: `tick` and `event` advance it,
      `currentLayer` reads the active layer number and `keycodes` collects
      the keyboard report it currently describes. */
  datatype LayoutOps<!L, R> = LayoutOps(
    tick: L -> L,
    event: (L, Event) -> L,
    currentLayer: L -> nat,
    keycodes: L -> R)

  /** What `handle_event` owns: the layout, the LED levels and the last
      report it handed to the USB class. */
  datatype Half<L, R> = Half(layout: L, leds: seq<Level>, offered: Option<R>)

  /** `handle_event`: an event is applied to the layout and nothing else
      happens; `None` (sent once per scan) ticks the layout, drives LED `k`
      low exactly when bit `k` of the current layer is set, and offers the
      collected report. */
  function HandleEvent<L, R>(ops: LayoutOps<L, R>, h: Half<L, R>, event: Option<Event>): (r: Half<L, R>)
    ensures event.Some? ==> r.layout == ops.event(h.layout, event.value)
    ensures event.Some? ==> r.leds == h.leds && r.offered == h.offered
    ensures event.None? ==> r.layout == ops.tick(h.layout)
    ensures event.None? ==> |r.leds| == LedCount
    ensures event.None? ==> forall k :: 0 <= k < LedCount ==> (r.leds[k] == Low <==> Bit(ops.currentLayer(r.layout), k))
    ensures event.None? ==> r.offered == Some(ops.keycodes(r.layout))
  {
    match event
    case Some(e) => h.(layout := ops.event(h.layout, e))
    case None =>
      var layout := ops.tick(h.layout);
      Half(layout, ShiftLeds(ops.currentLayer(layout), LedCount), Some(ops.keycodes(layout)))
  }

  /** `handle_event` run on each spawned message in turn. */
  function Process<L, R>(ops: LayoutOps<L, R>, h: Half<L, R>, spawns: seq<Option<Event>>): Half<L, R>
    decreases |spawns|
  {
    if spawns == [] then h else Process(ops, HandleEvent(ops, h, spawns[0]), spawns[1..])
  }

  /** The layout after applying events in order. */
  function ApplyAll<L, R>(ops: LayoutOps<L, R>, layout: L, es: seq<Event>): L
    decreases |es|
  {
    if es == [] then layout else ApplyAll(ops, ops.event(layout, es[0]), es[1..])
  }

  /** Each event wrapped as a `handle_event(Some(e))` message. */
  function SomeAll(es: seq<Event>): (r: seq<Option<Event>>)
    ensures |r| == |es|
    ensures forall i :: 0 <= i < |es| ==> r[i] == Some(es[i])
  {
    seq(|es|, i requires 0 <= i < |es| => Some(es[i]))
  }

  /** Event messages touch only the layout: LEDs and report are those of the
      last tick, and the layout has seen every event in order. */
  lemma {:induction false} ProcessEvents<L, R>(ops: LayoutOps<L, R>, h: Half<L, R>, es: seq<Event>)
    ensures Process(ops, h, SomeAll(es)).layout == ApplyAll(ops, h.layout, es)
    ensures Process(ops, h, SomeAll(es)).leds == h.leds
    ensures Process(ops, h, SomeAll(es)).offered == h.offered
    decreases |es|
  {
    if es != [] {
      assert SomeAll(es)[1..] == SomeAll(es[1..]);
      ProcessEvents(ops, HandleEvent(ops, h, Some(es[0])), es[1..]);
    }
  }

  lemma {:induction false} ProcessAppend<L, R>(ops: LayoutOps<L, R>, h: Half<L, R>, a: seq<Option<Event>>, b: seq<Option<Event>>)
    ensures Process(ops, h, a + b) == Process(ops, Process(ops, h, a), b)
    decreases |a|
  {
    if a == [] {
      assert a + b == b;
    } else {
      assert (a + b)[0] == a[0];
      assert (a + b)[1..] == a[1..] + b;
      ProcessAppend(ops, HandleEvent(ops, h, a[0]), a[1..], b);
    }
  }

  /** What `tick` does, in order: a byte written to the right or the left
      serial link, or a `handle_event` message spawned. */
  datatype Action = RightTx(byte: u8) | LeftTx(byte: u8) | Spawn(event: Option<Event>)

  /** One byte written to the right link, then to the left link. */
  function WriteBoth(b: u8): seq<Action> {
    [RightTx(b), LeftTx(b)]
  }

  /** A frame written byte by byte to both links. */
  function Interleave(bytes: seq<u8>): seq<Action> {
    FlatMap(WriteBoth, bytes)
  }

  /** One event of a scan: its frame on both links, then its message. */
  function Block(e: Event): seq<Action> {
    Interleave(Ser(e)) + [Spawn(Some(e))]
  }

  /** The reference trace of broadcasting the events of a scan. */
  function Broadcast(es: seq<Event>): seq<Action> {
    FlatMap(Block, es)
  }

  /** `translate` applied to every scanned event. */
  function TranslateAll(side: Side, es: seq<Event>): (r: seq<Event>)
    ensures |r| == |es|
    ensures forall i :: 0 <= i < |es| ==> r[i] == Translate(side, es[i])
  {
    seq(|es|, i requires 0 <= i < |es| => Translate(side, es[i]))
  }

  function RightByte(a: Action): seq<u8> {
    if a.RightTx? then [a.byte] else []
  }

  function LeftByte(a: Action): seq<u8> {
    if a.LeftTx? then [a.byte] else []
  }

  function SpawnOf(a: Action): seq<Option<Event>> {
    if a.Spawn? then [a.event] else []
  }

  /** The bytes a trace writes to the right link. */
  function RightBytes(t: seq<Action>): seq<u8> {
    FlatMap(RightByte, t)
  }

  /** The bytes a trace writes to the left link. */
  function LeftBytes(t: seq<Action>): seq<u8> {
    FlatMap(LeftByte, t)
  }

  /** The `handle_event` messages a trace spawns. */
  function Spawns(t: seq<Action>): seq<Option<Event>> {
    FlatMap(SpawnOf, t)
  }

  lemma ProjectAppend(a: seq<Action>, b: seq<Action>)
    ensures RightBytes(a + b) == RightBytes(a) + RightBytes(b)
    ensures LeftBytes(a + b) == LeftBytes(a) + LeftBytes(b)
    ensures Spawns(a + b) == Spawns(a) + Spawns(b)
  {
    FlatMapAppend(RightByte, a, b);
    FlatMapAppend(LeftByte, a, b);
    FlatMapAppend(SpawnOf, a, b);
  }

  /** Interleaving writes the same bytes to both links and spawns nothing. */
  lemma {:induction false} InterleaveProjections(bytes: seq<u8>)
    ensures RightBytes(Interleave(bytes)) == bytes
    ensures LeftBytes(Interleave(bytes)) == bytes
    ensures Spawns(Interleave(bytes)) == []
    decreases |bytes|
  {
    if bytes != [] {
      var head := WriteBoth(bytes[0]);
      assert Interleave(bytes) == head + Interleave(bytes[1..]);
      ProjectAppend(head, Interleave(bytes[1..]));
      InterleaveProjections(bytes[1..]);
      FlatMapPair(RightByte, RightTx(bytes[0]), LeftTx(bytes[0]));
      FlatMapPair(LeftByte, RightTx(bytes[0]), LeftTx(bytes[0]));
      FlatMapPair(SpawnOf, RightTx(bytes[0]), LeftTx(bytes[0]));
      assert [bytes[0]] + bytes[1..] == bytes;
    }
  }

  /** Broadcasting sends exactly the frames of the events, in order, on each
      link, and spawns exactly one message per event, in order. */
  lemma {:induction false} BroadcastProjections(es: seq<Event>)
    ensures RightBytes(Broadcast(es)) == Frames(es)
    ensures LeftBytes(Broadcast(es)) == Frames(es)
    ensures Spawns(Broadcast(es)) == SomeAll(es)
    decreases |es|
  {
    if es != [] {
      var frame := Interleave(Ser(es[0]));
      var spawn := [Spawn(Some(es[0]))];
      assert Broadcast(es) == (frame + spawn) + Broadcast(es[1..]);
      BroadcastProjections(es[1..]);
      InterleaveProjections(Ser(es[0]));
      ProjectAppend(frame, spawn);
      ProjectAppend(frame + spawn, Broadcast(es[1..]));
      FlatMapSingle(RightByte, Spawn(Some(es[0])));
      FlatMapSingle(LeftByte, Spawn(Some(es[0])));
      FlatMapSingle(SpawnOf, Spawn(Some(es[0])));
      assert SomeAll(es) == [Some(es[0])] + SomeAll(es[1..]);
    }
  }

  /** Every byte written to the right link is written to the left link
      immediately after. */
  predicate RightThenLeft(t: seq<Action>) {
    forall i :: 0 <= i < |t| && t[i].RightTx? ==> i + 1 < |t| && t[i + 1] == LeftTx(t[i].byte)
  }

  lemma RightThenLeftAppend(a: seq<Action>, b: seq<Action>)
    requires RightThenLeft(a) && RightThenLeft(b)
    requires a == [] || !a[|a| - 1].RightTx?
    ensures RightThenLeft(a + b)
  {
  }

  lemma {:induction false} InterleavePaired(bytes: seq<u8>)
    ensures RightThenLeft(Interleave(bytes))
    ensures bytes != [] ==> Interleave(bytes)[|Interleave(bytes)| - 1].LeftTx?
    decreases |bytes|
  {
    if bytes != [] {
      InterleavePaired(bytes[1..]);
      RightThenLeftAppend(WriteBoth(bytes[0]), Interleave(bytes[1..]));
    }
  }

  /** In the broadcast trace the two links never drift apart: each byte goes
      out on the right link and then, next, on the left link. */
  lemma {:induction false} BroadcastPaired(es: seq<Event>)
    ensures RightThenLeft(Broadcast(es))
    decreases |es|
  {
    if es != [] {
      var frame := Interleave(Ser(es[0]));
      var spawn := [Spawn(Some(es[0]))];
      InterleavePaired(Ser(es[0]));
      RightThenLeftAppend(frame, spawn);
      BroadcastPaired(es[1..]);
      RightThenLeftAppend(frame + spawn, Broadcast(es[1..]));
    }
  }

  /** The message for the `k`-th event is spawned right after the frames of
      the first `k` events have been written, and before anything of the
      later events. */
  lemma SpawnAfterFrames(es: seq<Event>, k: nat)
    requires 0 < k <= |es|
    ensures var p := |Broadcast(es[..k])|;
      && p <= |Broadcast(es)|
      && Broadcast(es)[..p] == Broadcast(es[..k])
      && Broadcast(es)[p - 1] == Spawn(Some(es[k - 1]))
      && RightBytes(Broadcast(es)[..p]) == Frames(es[..k])
      && LeftBytes(Broadcast(es)[..p]) == Frames(es[..k])
  {
    assert es == es[..k] + es[k..];
    FlatMapAppend(Block, es[..k], es[k..]);
    assert es[..k] == es[..k - 1] + [es[k - 1]];
    FlatMapAppend(Block, es[..k - 1], [es[k - 1]]);
    FlatMapSingle(Block, es[k - 1]);
    BroadcastProjections(es[..k]);
  }

  /** The inner loop of `tick`: a frame written byte by byte, each byte to
      the right link and then to the left link. */
  method WriteFrame(frame: seq<u8>) returns (trace: seq<Action>)
    ensures trace == Interleave(frame)
    ensures RightBytes(trace) == frame && LeftBytes(trace) == frame
    ensures RightThenLeft(trace)
  {
    trace := [];
    var j := 0;
    while j < |frame|
      invariant 0 <= j <= |frame|
      invariant trace == Interleave(frame[..j])
    {
      assert frame[..j + 1] == frame[..j] + [frame[j]];
      FlatMapAppend(WriteBoth, frame[..j], [frame[j]]);
      FlatMapSingle(WriteBoth, frame[j]);
      trace := trace + WriteBoth(frame[j]);
      j := j + 1;
    }
    assert frame[..j] == frame;
    InterleaveProjections(frame);
    InterleavePaired(frame);
  }

  /** `tick`: the events of one scan are translated; each one's frame is
      written byte by byte to the right and then the left link, then it is
      spawned to `handle_event`; finally `handle_event(None)` is spawned. */
  method Tick(side: Side, scanned: seq<Event>) returns (trace: seq<Action>)
    ensures trace == Broadcast(TranslateAll(side, scanned)) + [Spawn(None)]
    ensures RightBytes(trace) == Frames(TranslateAll(side, scanned))
    ensures LeftBytes(trace) == Frames(TranslateAll(side, scanned))
    ensures Spawns(trace) == SomeAll(TranslateAll(side, scanned)) + [None]
    ensures RightThenLeft(trace)
  {
    trace := [];
    var i := 0;
    while i < |scanned|
      invariant 0 <= i <= |scanned|
      invariant trace == Broadcast(TranslateAll(side, scanned[..i]))
    {
      var event := Translate(side, scanned[i]);
      var written := WriteFrame(Ser(event));
      BroadcastSnoc(TranslateAll(side, scanned[..i]), event);
      assert TranslateAll(side, scanned[..i + 1]) == TranslateAll(side, scanned[..i]) + [event];
      trace := trace + written + [Spawn(Some(event))];
      i := i + 1;
    }
    assert scanned[..i] == scanned;
    TickTraceFacts(TranslateAll(side, scanned));
    trace := trace + [Spawn(None)];
  }

  lemma BroadcastSnoc(es: seq<Event>, e: Event)
    ensures Broadcast(es + [e]) == Broadcast(es) + Interleave(Ser(e)) + [Spawn(Some(e))]
  {
    FlatMapAppend(Block, es, [e]);
    FlatMapSingle(Block, e);
  }

  /** The projections of a whole tick's trace. */
  lemma TickTraceFacts(es: seq<Event>)
    ensures var t := Broadcast(es) + [Spawn(None)];
      && RightBytes(t) == Frames(es)
      && LeftBytes(t) == Frames(es)
      && Spawns(t) == SomeAll(es) + [None]
      && RightThenLeft(t)
  {
    var last := [Spawn(None)];
    BroadcastProjections(es);
    ProjectAppend(Broadcast(es), last);
    FlatMapSingle(RightByte, Spawn(None));
    FlatMapSingle(LeftByte, Spawn(None));
    FlatMapSingle(SpawnOf, Spawn(None));
    BroadcastPaired(es);
    RightThenLeftAppend(Broadcast(es), last);
  }

  /** One scan cycle as the firmware's own `handle_event` sees it: the
      layout applies every translated event in scan order, then ticks once,
      and only then are LEDs and report refreshed. */
  lemma TickCycle<L, R>(ops: LayoutOps<L, R>, h: Half<L, R>, side: Side, scanned: seq<Event>)
    ensures var es := TranslateAll(side, scanned);
      var after := Process(ops, h, Spawns(Broadcast(es) + [Spawn(None)]));
      && after.layout == ops.tick(ApplyAll(ops, h.layout, es))
      && |after.leds| == LedCount
      && (forall k :: 0 <= k < LedCount ==> (after.leds[k] == Low <==> Bit(ops.currentLayer(after.layout), k)))
      && after.offered == Some(ops.keycodes(after.layout))
  {
    var es := TranslateAll(side, scanned);
    TickTraceFacts(es);
    ProcessAppend(ops, h, SomeAll(es), [None]);
    ProcessEvents(ops, h, es);
  }

  /** End to end over the link: whatever the peer's receive buffer held last
      (the initial all-zero buffer, or the end of an earlier frame), the bytes
      one scan writes to a link decode, on the peer, to exactly the scan's
      translated events in order, and the peer's layout applies them in that
      order. */
  lemma LinkDelivers<L, R>(ops: LayoutOps<L, R>, peer: Half<L, R>, buf: Buffer, side: Side, scanned: seq<Event>)
    requires !IsTag(buf[3])
    requires forall i :: 0 <= i < |scanned| ==> IsLocal(scanned[i])
    ensures var es := TranslateAll(side, scanned);
      var received := Feed(buf, LeftBytes(Broadcast(es) + [Spawn(None)])).1;
      && received == es
      && Process(ops, peer, SomeAll(received)).layout == ApplyAll(ops, peer.layout, es)
  {
    var es := TranslateAll(side, scanned);
    TickTraceFacts(es);
    StreamDecodes(buf, es);
    ProcessEvents(ops, peer, es);
  }
}
