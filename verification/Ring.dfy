/**
 * The RTP reorder ring: 32 slots indexed by 16-bit sequence numbers that wrap (section 5.1 of RFC 3550). The object
 * is proved against three functions on its value; the window invariant is proved of the functions.
 */
module Ring {
  import opened Common
  import opened Powers

  const SLOTS: nat := 32
  const SEQ_MOD: nat := 0x1_0000
  const PACKET_LEN: nat := 32768
  const HEADER_LEN: nat := 12

  type SeqNum = n: int | 0 <= n < 0x1_0000

  /** Wrapping difference of two sequence numbers, as a signed 16-bit number. */
  function SeqCompare(s1: SeqNum, s2: SeqNum): int
  {
    var d := (s1 - s2) % SEQ_MOD;
    if d < 0x8000 then d else d - SEQ_MOD
  }

  /** How far `s` is ahead of `from`, going up and wrapping. */
  function Ahead(from: SeqNum, s: SeqNum): (d: nat)
    ensures d < SEQ_MOD
  {
    (s - from) % SEQ_MOD
  }

  function Plus(s: SeqNum, k: int): SeqNum
  {
    (s + k) % SEQ_MOD
  }

  // ---------------------------------------------------------------------------------------------
  // Packets
  // ---------------------------------------------------------------------------------------------

  /** The wire codec: ALAC through a decoder that yields no sample when it fails, or raw big-endian PCM. */
  datatype Codec = Alac(decode: seq<byte> -> seq<int>) | Pcm(channels: nat)

  datatype Settings = Settings(codec: Codec, encrypted: bool, decrypt: seq<byte> -> seq<byte>, capacity: nat)
  {
    predicate Valid()
    {
      codec.Pcm? ==> codec.channels >= 1 && 2 * capacity + HEADER_LEN >= PACKET_LEN
    }
  }

  /** Full 16-byte blocks are encrypted, the rest of the payload is clear. */
  function Clear(st: Settings, payload: seq<byte>): seq<byte>
  {
    var k := |payload| / 16 * 16;
    if st.encrypted && k > 0 then st.decrypt(payload[..k]) + payload[k..] else payload
  }

  function BigEndian16(hi: byte, lo: byte): int
  {
    var v := 256 * (hi as int) + lo;
    if v < 0x8000 then v else v - 0x1_0000
  }

  function PcmSamples(bytes: seq<byte>): (r: seq<int>)
    ensures |r| == |bytes| / 2
  {
    if |bytes| < 2 then [] else [BigEndian16(bytes[0], bytes[1])] + PcmSamples(bytes[2..])
  }

  /** What a payload decodes to, or the code its refusal is reported with. */
  datatype Decoded = Frame(samples: seq<int>) | Refused(code: int)

  function Decode(st: Settings, payload: seq<byte>): (r: Decoded)
    requires st.Valid()
    ensures r.Frame? ==> |r.samples| <= st.capacity && r.samples != []
    ensures r.Refused? ==> r.code != 1
  {
    var bytes := Clear(st, payload);
    match st.codec
    case Alac(decode) =>
      var samples := decode(bytes);
      if samples == [] || st.capacity == 0 then Refused(0) else Frame(samples[..Min(|samples|, st.capacity)])
    case Pcm(channels) =>
      if bytes == [] || |bytes| % (channels * 2) != 0 then Refused(-1) else
      var samples := PcmSamples(bytes);
      if samples == [] || st.capacity == 0 then Refused(0) else Frame(samples[..Min(|samples|, st.capacity)])
  }

  function WireSeq(data: seq<byte>): SeqNum
    requires |data| >= 4
  {
    256 * (data[2] as int) + data[3]
  }

  // ---------------------------------------------------------------------------------------------
  // The ring as a value
  // ---------------------------------------------------------------------------------------------

  datatype Slot = Slot(available: bool, seqnum: SeqNum, samples: seq<int>)

  datatype State = State(isEmpty: bool, first: SeqNum, last: SeqNum, entries: seq<Slot>, silence: nat)

  function Initial(silence: nat): State
  {
    State(true, 0, 0, seq(SLOTS, _ => Slot(false, 0, [])), silence)
  }

  /** How many sequence numbers the window spans. */
  function Size(r: State): nat
  {
    (r.last - r.first + 1) % SEQ_MOD
  }

  predicate InWindow(r: State, s: SeqNum)
  {
    Ahead(r.first, s) < Size(r)
  }

  /** The window invariant. */
  predicate Valid(r: State)
  {
    && |r.entries| == SLOTS
    && Size(r) <= SLOTS
    && forall i :: 0 <= i < SLOTS && r.entries[i].available ==>
         !r.isEmpty && r.entries[i].seqnum % SLOTS == i && InWindow(r, r.entries[i].seqnum)
  }

  function ClearedSlot(e: Slot): Slot
  {
    e.(available := false, samples := [])
  }

  function ClearedAll(entries: seq<Slot>): (r: seq<Slot>)
    ensures |r| == |entries|
  {
    seq(|entries|, i requires 0 <= i < |entries| => ClearedSlot(entries[i]))
  }

  function Flush(r: State, next: int): State
  {
    var cleared := r.(entries := ClearedAll(r.entries));
    if 0 <= next < SEQ_MOD then cleared.(first := next, last := Plus(next, -1)) else cleared.(isEmpty := true)
  }

  /** The sequence number a packet is filed under. */
  function FiledSeq(r: State, data: seq<byte>, useSeqnum: bool): SeqNum
    requires |data| >= 4
  {
    if useSeqnum then WireSeq(data) else if r.isEmpty then r.first else Plus(r.last, 1)
  }

  predicate WellSized(data: seq<byte>)
  {
    HEADER_LEN <= |data| <= PACKET_LEN
  }

  predicate IsStale(r: State, s: SeqNum)
  {
    !r.isEmpty && SeqCompare(s, r.first) < 0
  }

  /** A packet too far ahead: the ring forgets what it holds and starts again there. */
  predicate Resyncs(r: State, s: SeqNum)
  {
    !IsStale(r, s) && SeqCompare(s, Plus(r.first, SLOTS)) >= 0
  }

  /** The ring after the decision to start again, before the packet is stored. */
  function Resynced(r: State, s: SeqNum): State
  {
    if Resyncs(r, s) then Flush(r, s) else r
  }

  predicate IsDuplicate(r: State, s: SeqNum)
    requires |r.entries| == SLOTS
  {
    var e := r.entries[s % SLOTS];
    e.available && SeqCompare(e.seqnum, s) == 0
  }

  /** Storing a packet that is neither stale nor a duplicate. */
  function Store(st: Settings, r: State, s: SeqNum, payload: seq<byte>): (State, int)
    requires st.Valid() && |r.entries| == SLOTS
  {
    var idx := s % SLOTS;
    var cleared := r.(entries := r.entries[idx := ClearedSlot(r.entries[idx])]);
    match Decode(st, payload)
    case Refused(code) => (cleared, code)
    case Frame(samples) =>
      var stored := cleared.(
        entries := r.entries[idx := Slot(true, s, samples)],
        silence := if st.codec.Pcm? then |samples| else r.silence);
      var begun := if r.isEmpty then stored.(isEmpty := false, first := s, last := s) else stored;
      (if SeqCompare(s, begun.last) > 0 then begun.(last := s) else begun, 1)
  }

  function Queue(st: Settings, r: State, data: seq<byte>, useSeqnum: bool): (State, int)
    requires st.Valid() && |r.entries| == SLOTS
  {
    if !WellSized(data) then (r, -1) else
    var s := FiledSeq(r, data, useSeqnum);
    if IsStale(r, s) then (r, 0) else
    var r1 := Resynced(r, s);
    if IsDuplicate(r1, s) then (r1, 0) else Store(st, r1, s, data[HEADER_LEN..])
  }

  /** Whether the next frame is handed out now. */
  predicate Ready(r: State, noResend: bool)
    requires |r.entries| == SLOTS
  {
    var span := SeqCompare(r.last, r.first) + 1;
    && !r.isEmpty && span > 0
    && (noResend || r.entries[r.first % SLOTS].available || span >= SLOTS)
  }

  function Dequeue(st: Settings, r: State, noResend: bool): (State, Option<seq<int>>)
    requires |r.entries| == SLOTS
  {
    if !Ready(r, noResend) then (r, None) else
    var idx := r.first % SLOTS;
    var e := r.entries[idx];
    (r.(first := Plus(r.first, 1), entries := r.entries[idx := ClearedSlot(e)]),
     Some(if e.available then e.samples else Zeros(Min(r.silence, st.capacity))))
  }

  // ---------------------------------------------------------------------------------------------
  // The window invariant
  // ---------------------------------------------------------------------------------------------

  lemma InitialValid(silence: nat)
    ensures Valid(Initial(silence))
  {
  }

  lemma FlushValid(r: State, next: int)
    requires Valid(r)
    ensures Valid(Flush(r, next))
    ensures 0 <= next < SEQ_MOD ==> Size(Flush(r, next)) == 0
    ensures forall i :: 0 <= i < SLOTS ==> !Flush(r, next).entries[i].available
  {
    if 0 <= next < SEQ_MOD {
      assert (next - 1) % SEQ_MOD == if next == 0 then SEQ_MOD - 1 else next - 1;
    }
  }

  /** The test against the end of the window is a test of distance. */
  lemma NearAhead(r: State, s: SeqNum)
    requires Valid(r) && !r.isEmpty && !IsStale(r, s) && !Resyncs(r, s)
    ensures Ahead(r.first, s) < SLOTS
  {
    var d := Ahead(r.first, s);
    assert d < 0x8000;
    assert (s - (r.first + SLOTS) % SEQ_MOD) % SEQ_MOD == (d - SLOTS) % SEQ_MOD;
  }

  /** Two numbers less than 32 apart from the same start share a slot only when they are equal. */
  lemma SlotUnique(first: SeqNum, s: SeqNum, t: SeqNum)
    requires Ahead(first, s) < SLOTS && Ahead(first, t) < SLOTS && s % SLOTS == t % SLOTS
    ensures s == t
  {
    var a, b := Ahead(first, s), Ahead(first, t);
    var j, k := (s - first) / SEQ_MOD, (t - first) / SEQ_MOD;
    assert a - b == s - t - SEQ_MOD * (j - k);
    var m := s / SLOTS - t / SLOTS - 2048 * (j - k);
    assert a - b == SLOTS * m;
    assert m == 0;
  }

  lemma Advance(first: SeqNum, s: SeqNum)
    ensures s != first ==> Ahead(Plus(first, 1), s) == Ahead(first, s) - 1
    ensures Ahead(first, s) == 0 <==> s == first
  {
  }

  /** Neither a resync nor the check for duplicates breaks the window. */
  lemma ResyncedValid(r: State, s: SeqNum)
    requires Valid(r) && !IsStale(r, s)
    ensures Valid(Resynced(r, s))
    ensures !r.isEmpty ==> !Resynced(r, s).isEmpty && Ahead(Resynced(r, s).first, s) < SLOTS
  {
    if Resyncs(r, s) {
      FlushValid(r, s);
    } else if !r.isEmpty {
      NearAhead(r, s);
    }
  }

  /** A slot about to be filled holds no other frame: what it holds, if anything, is the same packet. */
  lemma SlotFree(r: State, s: SeqNum)
    requires Valid(r) && !IsDuplicate(r, s)
    requires !r.isEmpty ==> Ahead(r.first, s) < SLOTS
    ensures !r.entries[s % SLOTS].available
  {
    var e := r.entries[s % SLOTS];
    if e.available {
      SlotUnique(r.first, e.seqnum, s);
    }
  }

  lemma SmallResidue(x: int, y: int)
    requires -0x8000 <= y < 0x8000 && (x - y) % SEQ_MOD == 0
    ensures x % SEQ_MOD == if y >= 0 then y else y + SEQ_MOD
  {
  }

  /** Comparing with the last number is comparing distances from the first. */
  lemma CompareWithLast(r: State, s: SeqNum)
    requires Valid(r) && Ahead(r.first, s) < SLOTS
    ensures SeqCompare(s, r.last) == Ahead(r.first, s) + 1 - Size(r)
  {
    var d: int := Ahead(r.first, s);
    var n: int := Size(r);
    SmallResidue(s - r.last, d + 1 - n);
  }

  /** The window after a packet has been filed fewer than 32 places ahead of its first number. */
  lemma StoreWindow(r: State, s: SeqNum)
    requires Valid(r) && Ahead(r.first, s) < SLOTS
    ensures var last := if SeqCompare(s, r.last) > 0 then s else r.last;
            && (last - r.first + 1) % SEQ_MOD <= SLOTS
            && Ahead(r.first, s) < (last - r.first + 1) % SEQ_MOD
            && Size(r) <= (last - r.first + 1) % SEQ_MOD
  {
    hide SeqCompare;
    CompareWithLast(r, s);
    SmallResidue(s - r.first + 1, Ahead(r.first, s) + 1);
  }

  lemma StoreValid(st: Settings, r: State, s: SeqNum, payload: seq<byte>)
    requires st.Valid() && Valid(r) && !IsDuplicate(r, s)
    requires !r.isEmpty ==> Ahead(r.first, s) < SLOTS
    ensures Valid(Store(st, r, s, payload).0)
    ensures forall i :: 0 <= i < SLOTS && r.entries[i].available ==>
              Store(st, r, s, payload).0.entries[i] == r.entries[i]
  {
    hide Decode;
    SlotFree(r, s);
    if !r.isEmpty {
      StoreWindow(r, s);
    }
  }

  /** Every packet keeps the window, and no undelivered frame is overwritten or lost unless the ring starts again. */
  lemma QueueValid(st: Settings, r: State, data: seq<byte>, useSeqnum: bool)
    requires st.Valid() && Valid(r)
    ensures Valid(Queue(st, r, data, useSeqnum).0)
    ensures !(WellSized(data) && Resyncs(r, FiledSeq(r, data, useSeqnum))) ==>
              forall i :: 0 <= i < SLOTS && r.entries[i].available ==>
                Queue(st, r, data, useSeqnum).0.entries[i] == r.entries[i]
  {
    hide Store, Valid;
    if WellSized(data) {
      var s := FiledSeq(r, data, useSeqnum);
      if !IsStale(r, s) {
        ResyncedValid(r, s);
        EmptyStays(r, s);
        var r1 := Resynced(r, s);
        SlotCount(r1);
        if !IsDuplicate(r1, s) {
          StoreValid(st, r1, s, data[HEADER_LEN..]);
        }
      }
    }
  }

  lemma SlotCount(r: State)
    requires Valid(r)
    ensures |r.entries| == SLOTS
  {
  }

  lemma EmptyStays(r: State, s: SeqNum)
    ensures Resynced(r, s).isEmpty == r.isEmpty
  {
  }

  /** Handing out keeps the window, moves it up by one and touches only the slot handed out. */
  lemma DequeueValid(st: Settings, r: State, noResend: bool)
    requires Valid(r)
    ensures Valid(Dequeue(st, r, noResend).0)
    ensures Dequeue(st, r, noResend).1.Some? ==>
              Size(r) > 0 && Size(Dequeue(st, r, noResend).0) == Size(r) - 1
  {
    if Ready(r, noResend) {
      WindowSpan(r);
      var r' := Dequeue(st, r, noResend).0;
      assert Size(r') == Size(r) - 1 by { Shrink(r.first, r.last); }
      forall i | 0 <= i < SLOTS && r'.entries[i].available
        ensures InWindow(r', r'.entries[i].seqnum) && r'.entries[i].seqnum % SLOTS == i
      {
        Advance(r.first, r'.entries[i].seqnum);
      }
    }
  }

  lemma Shrink(first: SeqNum, last: SeqNum)
    requires (last - first + 1) % SEQ_MOD > 0
    ensures (last - Plus(first, 1) + 1) % SEQ_MOD == (last - first + 1) % SEQ_MOD - 1
  {
  }

  /** The signed span the code computes is the size of the window. */
  lemma WindowSpan(r: State)
    requires Valid(r)
    ensures SeqCompare(r.last, r.first) + 1 == Size(r)
  {
  }

  /** With retransmission on, nothing is handed out exactly when nothing is buffered or the head is still awaited. */
  lemma DeclinesExactly(st: Settings, r: State)
    requires Valid(r)
    ensures Dequeue(st, r, false).1 == None <==>
              r.isEmpty || Size(r) == 0 || (!r.entries[r.first % SLOTS].available && Size(r) < SLOTS)
    ensures Dequeue(st, r, true).1 == None <==> r.isEmpty || Size(r) == 0
  {
    WindowSpan(r);
  }

  // ---------------------------------------------------------------------------------------------
  // The object
  // ---------------------------------------------------------------------------------------------

  class RaopBuffer {
    const st: Settings
    const entries: array<Slot>
    var isEmpty: bool
    var first: SeqNum
    var last: SeqNum
    var silence: nat

    ghost predicate Repr()
    {
      st.Valid() && entries.Length == SLOTS
    }

    ghost function Value(): State
      reads this, entries
    {
      State(isEmpty, first, last, entries[..], silence)
    }

    constructor (st: Settings, silence: nat)
      requires st.Valid()
      ensures Repr() && this.st == st && fresh(entries) && Value() == Initial(silence)
    {
      this.st := st;
      entries := new Slot[SLOTS](_ => Slot(false, 0, []));
      isEmpty, first, last := true, 0, 0;
      this.silence := silence;
    }

    method FlushTo(next: int)
      requires Repr()
      modifies this, entries
      ensures Repr() && Value() == Flush(old(Value()), next)
    {
      for i := 0 to SLOTS
        invariant forall j :: 0 <= j < i ==> entries[j] == ClearedSlot(old(entries[j]))
        invariant forall j :: i <= j < SLOTS ==> entries[j] == old(entries[j])
        invariant unchanged(this)
      {
        entries[i] := ClearedSlot(entries[i]);
      }
      assert entries[..] == ClearedAll(old(entries[..]));
      if !(0 <= next < SEQ_MOD) {
        isEmpty := true;
      } else {
        first := next;
        last := Plus(next, -1);
      }
    }

    method QueuePacket(data: seq<byte>, useSeqnum: bool) returns (code: int)
      requires Repr()
      modifies this, entries
      ensures Repr() && (Value(), code) == Queue(st, old(Value()), data, useSeqnum)
    {
      hide Decode;
      if !WellSized(data) {
        return -1;
      }
      var seqnum: SeqNum := if useSeqnum then WireSeq(data) else if isEmpty then first else Plus(last, 1);
      if !isEmpty && SeqCompare(seqnum, first) < 0 {
        return 0;
      }
      if SeqCompare(seqnum, Plus(first, SLOTS)) >= 0 {
        FlushTo(seqnum);
      }
      ghost var r1 := Value();
      assert r1 == Resynced(old(Value()), seqnum);
      var idx := seqnum % SLOTS;
      if entries[idx].available && SeqCompare(entries[idx].seqnum, seqnum) == 0 {
        return 0;
      }
      code := StorePacket(seqnum, data[HEADER_LEN..]);
    }

    /** The decoding half of queueing a packet. */
    method StorePacket(seqnum: SeqNum, payload: seq<byte>) returns (code: int)
      requires Repr()
      modifies this, entries
      ensures Repr() && (Value(), code) == Store(st, old(Value()), seqnum, payload)
    {
      hide Decode, SeqCompare;
      ghost var before := entries[..];
      var idx := seqnum % SLOTS;
      entries[idx] := ClearedSlot(entries[idx]);
      match Decode(st, payload)
      case Refused(c) =>
        return c;
      case Frame(samples) =>
        if st.codec.Pcm? {
          silence := |samples|;
        }
        entries[idx] := Slot(true, seqnum, samples);
        assert entries[..] == before[idx := Slot(true, seqnum, samples)];
        if isEmpty {
          first, last, isEmpty := seqnum, seqnum, false;
        }
        if SeqCompare(seqnum, last) > 0 {
          last := seqnum;
        }
        return 1;
    }

    method DequeueFrame(noResend: bool) returns (samples: Option<seq<int>>)
      requires Repr()
      modifies this, entries
      ensures Repr() && (Value(), samples) == Dequeue(st, old(Value()), noResend)
    {
      var buflen := SeqCompare(last, first) + 1;
      if isEmpty || buflen <= 0 {
        return None;
      }
      var idx := first % SLOTS;
      if !noResend && !entries[idx].available && buflen < SLOTS {
        return None;
      }
      first := Plus(first, 1);
      samples := Some(if entries[idx].available then entries[idx].samples else Zeros(Min(silence, st.capacity)));
      entries[idx] := ClearedSlot(entries[idx]);
    }
  }
}
