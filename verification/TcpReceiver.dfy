/**
 * RTP over TCP: the `$`-interleaved framing of section 10.12 of RFC 2326, read in pieces of any size, feeding the
 * reorder ring with synthesized sequence numbers.
 */
module TcpReceiver {
  import opened Common
  import opened Ring

  const DOLLAR: byte := 0x24
  const READ_LEN: nat := 4096

  // ---------------------------------------------------------------------------------------------
  // Framing
  // ---------------------------------------------------------------------------------------------

  /** What the framing loop makes of a buffer: the packets, the bytes it keeps, whether it closed the connection. */
  datatype Deframed = Deframed(packets: seq<seq<byte>>, rest: seq<byte>, closed: bool)

  function FrameLen(buf: seq<byte>): (n: nat)
    requires |buf| >= 4
    ensures n < 0x1_0000
  {
    256 * (buf[2] as int) + buf[3]
  }

  predicate StartsFrame(buf: seq<byte>)
    requires |buf| >= 4
  {
    buf[0] == DOLLAR && buf[1] == 0
  }

  function Deframe(buf: seq<byte>): (r: Deframed)
    ensures r.closed ==> r.rest == []
    decreases |buf|
  {
    if |buf| < 4 then Deframed([], buf, false)
    else if !StartsFrame(buf) then Deframe(buf[1..])
    else if FrameLen(buf) > PACKET_LEN then Deframed([], [], true)
    else if |buf| < 4 + FrameLen(buf) then Deframed([], buf, false)
    else
      var tail := Deframe(buf[4 + FrameLen(buf)..]);
      tail.(packets := [buf[4..4 + FrameLen(buf)]] + tail.packets)
  }

  /** The buffer holds less than a frame, or starts with no frame, an oversized one, a partial one or a whole one. */
  lemma DeframeCases(buf: seq<byte>)
    ensures |buf| < 4 ==> Deframe(buf) == Deframed([], buf, false)
    ensures |buf| >= 4 && !StartsFrame(buf) ==> Deframe(buf) == Deframe(buf[1..])
    ensures |buf| >= 4 && StartsFrame(buf) && FrameLen(buf) > PACKET_LEN ==> Deframe(buf) == Deframed([], [], true)
    ensures |buf| >= 4 && StartsFrame(buf) && FrameLen(buf) <= PACKET_LEN && |buf| < 4 + FrameLen(buf) ==>
              Deframe(buf) == Deframed([], buf, false)
    ensures |buf| >= 4 && StartsFrame(buf) && FrameLen(buf) <= PACKET_LEN && |buf| >= 4 + FrameLen(buf) ==>
              var tail := Deframe(buf[4 + FrameLen(buf)..]);
              Deframe(buf) == Deframed([buf[4..4 + FrameLen(buf)]] + tail.packets, tail.rest, tail.closed)
  {
  }

  /** One after the other: what `b` adds after `a` left its residue. */
  function Then(a: Deframed, b: Deframed): Deframed
  {
    if a.closed then a else b.(packets := a.packets + b.packets)
  }

  /** Reading in two pieces is reading in one. */
  lemma {:induction false} DeframeSplit(a: seq<byte>, b: seq<byte>)
    ensures Deframe(a + b) == Then(Deframe(a), Deframe(Deframe(a).rest + b))
    decreases |a|
  {
    hide Deframe;
    DeframeCases(a);
    DeframeCases(a + b);
    if |a| >= 4 {
      assert StartsFrame(a + b) == StartsFrame(a) && FrameLen(a + b) == FrameLen(a);
      var n := FrameLen(a);
      if !StartsFrame(a) {
        assert (a + b)[1..] == a[1..] + b;
        DeframeSplit(a[1..], b);
      } else if n <= PACKET_LEN && |a| >= 4 + n {
        assert (a + b)[4 + n..] == a[4 + n..] + b;
        assert (a + b)[4..4 + n] == a[4..4 + n];
        DeframeSplit(a[4 + n..], b);
        ThenPrepend(a[4..4 + n], Deframe(a[4 + n..]), Deframe(Deframe(a[4 + n..]).rest + b));
      }
    }
  }

  lemma ThenPrepend(p: seq<byte>, x: Deframed, y: Deframed)
    ensures Then(x.(packets := [p] + x.packets), y) == Then(x, y).(packets := [p] + Then(x, y).packets)
  {
    assert [p] + x.packets + y.packets == [p] + (x.packets + y.packets);
  }

  /** What is kept is a proper prefix of one frame, so the buffer never reaches its limit. */
  lemma {:induction false} ResidueBound(buf: seq<byte>)
    ensures |Deframe(buf).rest| <= 4 + PACKET_LEN - 1
    ensures Deframe(Deframe(buf).rest) == Deframed([], Deframe(buf).rest, false)
    decreases |buf|
  {
    if |buf| >= 4 {
      if !StartsFrame(buf) {
        ResidueBound(buf[1..]);
      } else if FrameLen(buf) <= PACKET_LEN && |buf| >= 4 + FrameLen(buf) {
        ResidueBound(buf[4 + FrameLen(buf)..]);
      }
    }
  }

  function Enframe(packet: seq<byte>): seq<byte>
    requires |packet| <= PACKET_LEN
  {
    [DOLLAR, 0, |packet| / 256, |packet| % 256] + packet
  }

  predicate Sendable(packets: seq<seq<byte>>)
  {
    forall i :: 0 <= i < |packets| ==> |packets[i]| <= PACKET_LEN
  }

  function EnframeAll(packets: seq<seq<byte>>): seq<byte>
    requires Sendable(packets)
  {
    if packets == [] then [] else Enframe(packets[0]) + EnframeAll(packets[1..])
  }

  /** Well-framed packets come out of the framing as they went in. */
  lemma {:induction false} FramingRoundTrip(packets: seq<seq<byte>>)
    requires Sendable(packets)
    ensures Deframe(EnframeAll(packets)) == Deframed(packets, [], false)
  {
    if packets == [] {
    } else {
      var p, rest := packets[0], EnframeAll(packets[1..]);
      var buf := Enframe(p) + rest;
      FramingRoundTrip(packets[1..]);
      assert buf[0] == DOLLAR && buf[1] == 0 && buf[2] == |p| / 256 && buf[3] == |p| % 256;
      assert FrameLen(buf) == |p|;
      assert buf[4..4 + |p|] == p && buf[4 + |p|..] == rest;
    }
  }

  // ---------------------------------------------------------------------------------------------
  // One packet through the ring
  // ---------------------------------------------------------------------------------------------

  /** Between packets nothing is left in the window. */
  predicate Drained(r: State)
  {
    Valid(r) && (r.isEmpty || Size(r) == 0)
  }

  /** Hand out until nothing is left. */
  function Drain(st: Settings, r: State): (State, seq<seq<int>>)
    requires Valid(r)
    decreases Size(r)
  {
    DequeueValid(st, r, true);
    var (r', block) := Dequeue(st, r, true);
    if block == None then (r, []) else
    var (last, blocks) := Drain(st, r');
    (last, [block.value] + blocks)
  }

  function Receive(st: Settings, r: State, packet: seq<byte>): (State, seq<seq<int>>)
    requires st.Valid() && Valid(r)
  {
    QueueValid(st, r, packet, false);
    Drain(st, Queue(st, r, packet, false).0)
  }

  /** The block a packet should give: its decoded samples, or nothing when it cannot be decoded. */
  function Expected(st: Settings, packet: seq<byte>): seq<seq<int>>
    requires st.Valid()
  {
    if WellSized(packet) && Decode(st, packet[HEADER_LEN..]).Frame?
    then [Decode(st, packet[HEADER_LEN..]).samples] else []
  }

  lemma DrainNothing(st: Settings, r: State)
    requires Drained(r)
    ensures Drain(st, r) == (r, [])
  {
    DeclinesExactly(st, r);
  }

  lemma DrainOne(st: Settings, r: State)
    requires Valid(r) && !r.isEmpty && Size(r) == 1 && r.entries[r.first % SLOTS].available
    ensures Drained(Drain(st, r).0)
    ensures Drain(st, r).1 == [r.entries[r.first % SLOTS].samples]
  {
    DeclinesExactly(st, r);
    DequeueValid(st, r, true);
    DrainNothing(st, Dequeue(st, r, true).0);
  }

  /** The number made up for a packet is the next one of a drained window: no resync, no duplicate, no gap. */
  lemma SynthesizedNext(r: State, packet: seq<byte>)
    requires Drained(r) && |packet| >= 4
    ensures var s := FiledSeq(r, packet, false);
            s == r.first && !IsStale(r, s) && !Resyncs(r, s) && !IsDuplicate(r, s)
  {
    assert r.isEmpty || Plus(r.last, 1) == r.first;
    assert SeqCompare(r.first, r.first) == 0;
    assert SeqCompare(r.first, Plus(r.first, SLOTS)) == 0 - SLOTS;
  }

  lemma StoredNext(st: Settings, r: State, payload: seq<byte>)
    requires st.Valid() && Drained(r) && !IsDuplicate(r, r.first)
    ensures var (r', code) := Store(st, r, r.first, payload);
            match Decode(st, payload)
            case Refused(_) => Drained(r')
            case Frame(samples) =>
              && Valid(r') && !r'.isEmpty && Size(r') == 1 && r'.first == r.first
              && r'.entries[r.first % SLOTS] == Slot(true, r.first, samples)
  {
    hide Decode;
    StoreValid(st, r, r.first, payload);
    assert r.isEmpty || r.last == Plus(r.first, -1);
  }

  /** A packet gives exactly its own block, and leaves the window empty again. */
  lemma ReceiveExact(st: Settings, r: State, packet: seq<byte>)
    requires st.Valid() && Drained(r)
    ensures Drained(Receive(st, r, packet).0)
    ensures Receive(st, r, packet).1 == Expected(st, packet)
  {
    hide Decode, Store, Drain, Drained;
    DrainedValid(r);
    QueueValid(st, r, packet, false);
    if WellSized(packet) {
      SynthesizedNext(r, packet);
      StoredNext(st, r, packet[HEADER_LEN..]);
      var r' := Queue(st, r, packet, false).0;
      if Decode(st, packet[HEADER_LEN..]).Frame? {
        DrainOne(st, r');
      } else {
        DrainNothing(st, r');
      }
    } else {
      DrainNothing(st, r);
    }
  }

  lemma DrainedValid(r: State)
    requires Drained(r)
    ensures Valid(r)
  {
  }

  lemma FlushDrains(r: State, next: int)
    requires Drained(r)
    ensures Drained(Flush(r, next))
  {
    hide Flush;
    FlushValid(r, next);
    FlushEmpties(r, next);
  }

  lemma FlushEmpties(r: State, next: int)
    ensures !(0 <= next < SEQ_MOD) ==> Flush(r, next).isEmpty
  {
  }

  // ---------------------------------------------------------------------------------------------
  // The receive loop
  // ---------------------------------------------------------------------------------------------

  /** What happens to the loop: bytes arrive, or a flush was requested. */
  datatype Event = Read(chunk: seq<byte>) | FlushRequest(next: int)

  /** The loop's state: the packet buffer, the ring, the blocks given to the session, whether it has ended. */
  datatype Loop = Loop(buf: seq<byte>, ring: State, session: seq<seq<int>>, closed: bool)

  function ReceiveAll(st: Settings, r: State, packets: seq<seq<byte>>): (result: (State, seq<seq<int>>))
    requires st.Valid() && Drained(r)
    ensures Drained(result.0)
    decreases |packets|
  {
    if packets == [] then (r, []) else
    ReceiveExact(st, r, packets[0]);
    var (r1, out) := Receive(st, r, packets[0]);
    var (r2, rest) := ReceiveAll(st, r1, packets[1..]);
    (r2, out + rest)
  }

  function ExpectedAll(st: Settings, packets: seq<seq<byte>>): seq<seq<int>>
    requires st.Valid()
  {
    if packets == [] then [] else Expected(st, packets[0]) + ExpectedAll(st, packets[1..])
  }

  lemma {:induction false} ReceiveAllExact(st: Settings, r: State, packets: seq<seq<byte>>)
    requires st.Valid() && Drained(r)
    ensures ReceiveAll(st, r, packets).1 == ExpectedAll(st, packets)
    decreases |packets|
  {
    hide Receive, Expected, Drained;
    if packets == [] {
    } else {
      DrainedValid(r);
      ReceiveExact(st, r, packets[0]);
      ReceiveAllExact(st, Receive(st, r, packets[0]).0, packets[1..]);
    }
  }

  lemma {:induction false} ExpectedAppend(st: Settings, a: seq<seq<byte>>, b: seq<seq<byte>>)
    requires st.Valid()
    ensures ExpectedAll(st, a + b) == ExpectedAll(st, a) + ExpectedAll(st, b)
    decreases |a|
  {
    hide Expected;
    if a == [] {
      assert a + b == b;
    } else {
      assert (a + b)[1..] == a[1..] + b;
      ExpectedAppend(st, a[1..], b);
    }
  }

  function Step(st: Settings, l: Loop, e: Event): (l': Loop)
    requires st.Valid() && Drained(l.ring)
    ensures Drained(l'.ring)
  {
    if l.closed then l else
    match e
    case FlushRequest(next) =>
      FlushDrains(l.ring, next);
      l.(ring := Flush(l.ring, next))
    case Read(chunk) =>
      var buf := l.buf + chunk;
      if |buf| > PACKET_LEN * 4 then l.(buf := buf, closed := true) else
      var d := Deframe(buf);
      var (ring, out) := ReceiveAll(st, l.ring, d.packets);
      Loop(d.rest, ring, l.session + out, d.closed)
  }

  function Run(st: Settings, l: Loop, events: seq<Event>): Loop
    requires st.Valid() && Drained(l.ring)
    decreases |events|
  {
    if events == [] then l else Run(st, Step(st, l, events[0]), events[1..])
  }

  function BytesOf(events: seq<Event>): seq<byte>
  {
    if events == [] then [] else
    (if events[0].Read? then events[0].chunk else []) + BytesOf(events[1..])
  }

  predicate SizedReads(events: seq<Event>)
  {
    forall i :: 0 <= i < |events| && events[i].Read? ==> |events[i].chunk| <= READ_LEN
  }

  /** The loop agrees with one pass over everything that was read. */
  ghost predicate Agrees(st: Settings, l: Loop, before: seq<byte>)
    requires st.Valid()
  {
    var d := Deframe(before);
    && Drained(l.ring)
    && l.session == ExpectedAll(st, d.packets) && l.closed == d.closed && l.buf == d.rest
  }

  lemma StepAgrees(st: Settings, l: Loop, before: seq<byte>, e: Event)
    requires st.Valid() && Agrees(st, l, before) && (e.Read? ==> |e.chunk| <= READ_LEN)
    ensures Agrees(st, Step(st, l, e), before + (if e.Read? then e.chunk else []))
  {
    hide Deframe, Drained, ExpectedAll, ReceiveAll, Flush;
    ResidueBound(before);
    match e
    case FlushRequest(next) =>
      assert before + [] == before;
    case Read(chunk) =>
      DeframeSplit(before, chunk);
      if !l.closed {
        var d := Deframe(l.buf + chunk);
        ReceiveAllExact(st, l.ring, d.packets);
        ExpectedAppend(st, Deframe(before).packets, d.packets);
      }
  }

  lemma {:induction false} RunAgrees(st: Settings, l: Loop, before: seq<byte>, events: seq<Event>)
    requires st.Valid() && Agrees(st, l, before) && SizedReads(events)
    ensures Agrees(st, Run(st, l, events), before + BytesOf(events))
    decreases |events|
  {
    hide Step, Deframe, ExpectedAll;
    if events == [] {
      assert before + [] == before;
    } else {
      var first := if events[0].Read? then events[0].chunk else [];
      StepAgrees(st, l, before, events[0]);
      RunAgrees(st, Step(st, l, events[0]), before + first, events[1..]);
      assert before + first + BytesOf(events[1..]) == before + BytesOf(events);
    }
  }

  function Begin(silence: nat): Loop
  {
    Loop([], Initial(silence), [], false)
  }

  /**
   * End to end: however the byte stream is cut into reads and whatever flushes fall between them, the session gets
   * the blocks of the packets the whole stream frames, in order and once each, and nothing else; the connection is
   * closed exactly when the stream announces an oversized frame, never because the buffer grew.
   */
  lemma SessionGetsThePackets(st: Settings, silence: nat, events: seq<Event>)
    requires st.Valid() && SizedReads(events)
    ensures Drained(Begin(silence).ring)
    ensures var l, d := Run(st, Begin(silence), events), Deframe(BytesOf(events));
            l.session == ExpectedAll(st, d.packets) && l.closed == d.closed && l.buf == d.rest
  {
    hide Deframe, ExpectedAll, Run, BytesOf;
    InitialValid(silence);
    NothingYet(st);
    RunAgrees(st, Begin(silence), [], events);
    assert [] + BytesOf(events) == BytesOf(events);
  }

  lemma NothingYet(st: Settings)
    requires st.Valid()
    ensures Deframe([]) == Deframed([], [], false) && ExpectedAll(st, []) == []
  {
  }

  /** For a well-framed stream that is: every packet that can be decoded, in order, once, and no silence. */
  lemma WellFramedStream(st: Settings, silence: nat, packets: seq<seq<byte>>, events: seq<Event>)
    requires st.Valid() && SizedReads(events) && Sendable(packets) && BytesOf(events) == EnframeAll(packets)
    ensures Drained(Begin(silence).ring)
    ensures Run(st, Begin(silence), events).session == ExpectedAll(st, packets)
    ensures !Run(st, Begin(silence), events).closed
  {
    hide Run, Deframe, ExpectedAll;
    SessionGetsThePackets(st, silence, events);
    FramingRoundTrip(packets);
  }

  // ---------------------------------------------------------------------------------------------
  // The object
  // ---------------------------------------------------------------------------------------------

  class Receiver {
    const st: Settings
    const ring: RaopBuffer
    var packetBuf: seq<byte>
    var session: seq<seq<int>>
    var closed: bool

    ghost predicate Repr()
    {
      ring.Repr() && ring.st == st && st.Valid()
    }

    ghost function Value(): Loop
      reads this, ring, ring.entries
    {
      Loop(packetBuf, ring.Value(), session, closed)
    }

    constructor (st: Settings, silence: nat)
      requires st.Valid()
      ensures Repr() && this.st == st && fresh(ring) && fresh(ring.entries) && Value() == Begin(silence)
    {
      this.st := st;
      ring := new RaopBuffer(st, silence);
      packetBuf, session, closed := [], [], false;
    }

    /** One packet: queue it, then give the session everything that can be handed out. */
    method DeliverPacket(packet: seq<byte>)
      requires Repr() && Valid(ring.Value())
      modifies this`session, ring, ring.entries
      ensures ring.Value() == Receive(st, old(ring.Value()), packet).0
      ensures session == old(session) + Receive(st, old(ring.Value()), packet).1
    {
      hide Queue, Dequeue, Valid;
      QueueValid(st, ring.Value(), packet, false);
      var _ := ring.QueuePacket(packet, false);
      ghost var goal := Drain(st, ring.Value());
      ghost var given: seq<seq<int>> := [];
      while true
        invariant Repr() && Valid(ring.Value())
        invariant session == old(session) + given
        invariant goal.0 == Drain(st, ring.Value()).0
        invariant goal.1 == given + Drain(st, ring.Value()).1
        decreases Size(ring.Value())
      {
        DequeueValid(st, ring.Value(), true);
        ghost var before := ring.Value();
        var samples := ring.DequeueFrame(true);
        if samples == None {
          NothingTaken(st, before);
          assert goal.1 == given;
          return;
        }
        session := session + [samples.value];
        assert given + ([samples.value] + Drain(st, ring.Value()).1)
            == given + [samples.value] + Drain(st, ring.Value()).1;
        given := given + [samples.value];
      }
    }

    method HandleRead(chunk: seq<byte>)
      requires Repr() && Drained(ring.Value()) && !closed
      modifies this, ring, ring.entries
      ensures Repr() && Value() == Step(st, old(Value()), Read(chunk))
    {
      hide Receive, Drained, Valid, Deframe, ReceiveAll;
      packetBuf := packetBuf + chunk;
      if |packetBuf| > PACKET_LEN * 4 {
        closed := true;
        return;
      }
      ghost var d := Deframe(packetBuf);
      ghost var goal := ReceiveAll(st, ring.Value(), d.packets);
      ghost var given: seq<seq<int>> := [];
      while |packetBuf| >= 4
        invariant Repr() && Drained(ring.Value()) && !closed
        invariant session == old(session) + given
        invariant Deframe(packetBuf).rest == d.rest && Deframe(packetBuf).closed == d.closed
        invariant goal.0 == ReceiveAll(st, ring.Value(), Deframe(packetBuf).packets).0
        invariant goal.1 == given + ReceiveAll(st, ring.Value(), Deframe(packetBuf).packets).1
        decreases |packetBuf|
      {
        DeframeCases(packetBuf);
        if packetBuf[0] != DOLLAR || packetBuf[1] != 0 {
          packetBuf := packetBuf[1..];
          continue;
        }
        var rtpLen := FrameLen(packetBuf);
        if rtpLen > PACKET_LEN {
          packetBuf := [];
          closed := true;
          ReceiveNone(st, ring.Value());
          assert goal.1 == given;
          return;
        }
        if |packetBuf| < 4 + rtpLen {
          break;
        }
        var packet := packetBuf[4..4 + rtpLen];
        ghost var before, tail := ring.Value(), Deframe(packetBuf[4 + rtpLen..]).packets;
        DrainedValid(before);
        ReceiveExact(st, before, packet);
        assert Deframe(packetBuf).packets == [packet] + tail;
        ReceiveFirst(st, before, packet, tail);
        DeliverPacket(packet);
        given := given + Receive(st, before, packet).1;
        packetBuf := packetBuf[4 + rtpLen..];
      }
      DeframeCases(packetBuf);
      ReceiveNone(st, ring.Value());
      assert goal.1 == given;
    }
  }

  lemma NothingTaken(st: Settings, r: State)
    requires Valid(r) && Dequeue(st, r, true).1 == None
    ensures Drain(st, r) == (r, []) && Dequeue(st, r, true).0 == r
  {
  }

  lemma ReceiveNone(st: Settings, r: State)
    requires st.Valid() && Drained(r)
    ensures ReceiveAll(st, r, []) == (r, [])
  {
  }

  lemma ReceiveFirst(st: Settings, r: State, packet: seq<byte>, tail: seq<seq<byte>>)
    requires st.Valid() && Drained(r)
    ensures Drained(Receive(st, r, packet).0)
    ensures ReceiveAll(st, r, [packet] + tail)
         == (ReceiveAll(st, Receive(st, r, packet).0, tail).0,
             Receive(st, r, packet).1 + ReceiveAll(st, Receive(st, r, packet).0, tail).1)
  {
    hide Receive;
    ReceiveExact(st, r, packet);
    assert ([packet] + tail)[1..] == tail;
  }
}
