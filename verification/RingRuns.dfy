/**
 * Whole runs of the reorder ring. A run is split into epochs, one for each flush, resync or first packet; inside an
 * epoch positions count up from zero without wrapping. The history of a run records which packet was accepted for
 * which position, and what was handed out.
 */
module RingRuns {
  import opened Common
  import opened Ring

  datatype Op = Packet(data: seq<byte>, useSeqnum: bool) | Take(noResend: bool) | Clear(next: int)

  /** A packet that was accepted: where it belongs, the number it was filed under, what it decoded to, its bytes. */
  datatype Accept = Accept(epoch: nat, pos: nat, seqnum: SeqNum, samples: seq<int>, data: seq<byte>)

  /** A block that was handed out; its source is the accepted packet, or none for silence. */
  datatype Delivery = Delivery(epoch: nat, pos: nat, samples: seq<int>, source: Option<nat>)

  const NOBODY: int := -1

  datatype World = World(
    ring: State,
    bases: seq<SeqNum>,
    count: nat,
    owner: seq<int>,
    accepted: seq<Accept>,
    outbox: seq<Delivery>,
    discarded: set<nat>)
  {
    function Epoch(): int
    {
      |bases| - 1
    }
  }

  function Nobody(): (r: seq<int>)
    ensures |r| == SLOTS && forall i :: 0 <= i < SLOTS ==> r[i] == NOBODY
  {
    seq(SLOTS, _ => NOBODY)
  }

  /** The accepted packets that still sit in a slot. */
  function Buffered(owner: seq<int>): set<nat>
  {
    set i | 0 <= i < |owner| && owner[i] >= 0 :: owner[i]
  }

  /** The accepted packets that were handed out. */
  function Delivered(outbox: seq<Delivery>): set<nat>
  {
    set k | 0 <= k < |outbox| && outbox[k].source.Some? :: outbox[k].source.value
  }

  function Start(silence: nat): World
  {
    World(Initial(silence), [0], 0, Nobody(), [], [], {})
  }

  function FlushWorld(w: World, next: int): World
  {
    var ring := Flush(w.ring, next);
    w.(ring := ring, bases := w.bases + [ring.first], count := 0, owner := Nobody(),
       discarded := w.discarded + Buffered(w.owner))
  }

  function StoreWorld(st: Settings, w: World, s: SeqNum, data: seq<byte>): World
    requires st.Valid() && |data| >= HEADER_LEN && |w.ring.entries| == SLOTS == |w.owner| && |w.bases| >= 1
  {
    var ring := Store(st, w.ring, s, data[HEADER_LEN..]).0;
    match Decode(st, data[HEADER_LEN..])
    case Refused(_) => w.(ring := ring)
    case Frame(samples) =>
      var owner := w.owner[s % SLOTS := |w.accepted|];
      if w.ring.isEmpty then
        w.(ring := ring, bases := w.bases + [s], count := 0, owner := owner,
           accepted := w.accepted + [Accept(|w.bases|, 0, s, samples, data)])
      else
        w.(ring := ring, owner := owner,
           accepted := w.accepted + [Accept(w.Epoch(), w.count + Ahead(w.ring.first, s), s, samples, data)])
  }

  function QueueWorld(st: Settings, w: World, data: seq<byte>, useSeqnum: bool): World
    requires st.Valid() && |w.ring.entries| == SLOTS == |w.owner| && |w.bases| >= 1
  {
    if !WellSized(data) then w else
    var s := FiledSeq(w.ring, data, useSeqnum);
    if IsStale(w.ring, s) then w else
    var w1 := if Resyncs(w.ring, s) then FlushWorld(w, s) else w;
    if IsDuplicate(w1.ring, s) then w1 else StoreWorld(st, w1, s, data)
  }

  function TakeWorld(st: Settings, w: World, noResend: bool): World
    requires |w.ring.entries| == SLOTS == |w.owner| && |w.bases| >= 1
  {
    var (ring, block) := Dequeue(st, w.ring, noResend);
    match block
    case None => w
    case Some(samples) =>
      var idx := w.ring.first % SLOTS;
      var source := if w.owner[idx] >= 0 then Some(w.owner[idx]) else None;
      w.(ring := ring, count := w.count + 1, owner := w.owner[idx := NOBODY],
         outbox := w.outbox + [Delivery(w.Epoch(), w.count, samples, source)])
  }

  // ---------------------------------------------------------------------------------------------
  // The invariant
  // ---------------------------------------------------------------------------------------------

  /** The window starts at the next position of the current epoch. */
  predicate Anchored(w: World)
  {
    && Valid(w.ring) && |w.owner| == SLOTS && |w.bases| >= 1
    && w.ring.first == Plus(w.bases[w.Epoch()], w.count)
  }

  /** A slot is occupied by the accepted packet it is owned by. */
  predicate SlotOwned(w: World, i: nat)
    requires Anchored(w) && i < SLOTS
  {
    var e := w.ring.entries[i];
    && (e.available <==> w.owner[i] >= 0)
    && (e.available ==>
          && w.owner[i] < |w.accepted|
          && w.accepted[w.owner[i]] == Accept(w.Epoch(), w.count + Ahead(w.ring.first, e.seqnum), e.seqnum, e.samples,
                                              w.accepted[w.owner[i]].data))
  }

  predicate Owned(w: World)
    requires Anchored(w)
  {
    forall i :: 0 <= i < SLOTS ==> SlotOwned(w, i)
  }

  /** An accepted packet carries the number of its position, and is buffered while its position is ahead. */
  predicate AcceptedAt(w: World, id: nat)
    requires Anchored(w) && id < |w.accepted|
  {
    var a := w.accepted[id];
    && a.epoch <= w.Epoch()
    && a.seqnum == Plus(w.bases[a.epoch], a.pos)
    && (a.epoch == w.Epoch() && a.pos >= w.count ==> w.owner[a.seqnum % SLOTS] == id)
  }

  predicate AllAccepted(w: World)
    requires Anchored(w)
  {
    forall id :: 0 <= id < |w.accepted| ==> AcceptedAt(w, id)
  }

  /** A block handed out is the accepted packet of its position, or silence when no packet was accepted for it. */
  predicate Faithful(w: World, d: Delivery)
  {
    match d.source
    case Some(id) =>
      && id < |w.accepted|
      && w.accepted[id].epoch == d.epoch && w.accepted[id].pos == d.pos && w.accepted[id].samples == d.samples
    case None =>
      && d.samples == Zeros(|d.samples|)
      && forall id :: 0 <= id < |w.accepted| ==> !(w.accepted[id].epoch == d.epoch && w.accepted[id].pos == d.pos)
  }

  /** Blocks of the current epoch are the last `count` ones; all others belong to earlier epochs. */
  predicate Placed(w: World, k: nat)
    requires k < |w.outbox|
  {
    var from := |w.outbox| - w.count;
    if k >= from then w.outbox[k].epoch == w.Epoch() && w.outbox[k].pos == k - from else w.outbox[k].epoch < w.Epoch()
  }

  predicate Logged(w: World)
  {
    && w.count <= |w.outbox|
    && forall k :: 0 <= k < |w.outbox| ==> Faithful(w, w.outbox[k]) && Placed(w, k)
  }

  predicate Follows(a: Delivery, b: Delivery)
  {
    (b.epoch == a.epoch && b.pos == a.pos + 1) || (b.epoch > a.epoch && b.pos == 0)
  }

  /** Positions are handed out one after the other, starting from zero in every epoch. */
  predicate InOrder(outbox: seq<Delivery>)
  {
    && (outbox != [] ==> outbox[0].pos == 0)
    && forall k :: 0 <= k < |outbox| - 1 ==> Follows(outbox[k], outbox[k + 1])
  }

  predicate NoRepeat(outbox: seq<Delivery>)
  {
    forall j, k :: 0 <= j < k < |outbox| && outbox[j].source.Some? ==> outbox[j].source != outbox[k].source
  }

  /** Every accepted packet is in exactly one place: buffered, handed out once, or discarded. */
  ghost predicate Conserved(w: World)
  {
    && (forall id: nat ::
          id < |w.accepted| <==> id in Buffered(w.owner) || id in Delivered(w.outbox) || id in w.discarded)
    && Buffered(w.owner) !! Delivered(w.outbox)
    && Buffered(w.owner) !! w.discarded
    && Delivered(w.outbox) !! w.discarded
    && NoRepeat(w.outbox)
  }

  ghost predicate Inv(w: World)
  {
    Anchored(w) && Owned(w) && AllAccepted(w) && Logged(w) && InOrder(w.outbox) && Conserved(w)
  }

  function Step(st: Settings, w: World, op: Op): World
    requires st.Valid() && Anchored(w)
  {
    match op
    case Packet(data, useSeqnum) => QueueWorld(st, w, data, useSeqnum)
    case Take(noResend) => TakeWorld(st, w, noResend)
    case Clear(next) => FlushWorld(w, next)
  }

  lemma StartInv(silence: nat)
    ensures Inv(Start(silence))
  {
    InitialValid(silence);
  }

  // ---------------------------------------------------------------------------------------------
  // Flushing
  // ---------------------------------------------------------------------------------------------

  lemma FlushInv(w: World, next: int)
    requires Inv(w)
    ensures Inv(FlushWorld(w, next))
  {
    hide Flush, Faithful, Conserved, InOrder;
    FlushValid(w.ring, next);
    var w' := FlushWorld(w, next);
    assert Anchored(w');
    assert Owned(w') by {
      forall i: nat | i < SLOTS
        ensures SlotOwned(w', i)
      {
      }
    }
    forall id: nat | id < |w'.accepted|
      ensures AcceptedAt(w', id)
    {
      assert AcceptedAt(w, id);
    }
    forall k: nat | k < |w'.outbox|
      ensures Faithful(w', w'.outbox[k]) && Placed(w', k)
    {
      assert Placed(w, k);
      FaithfulSame(w, w', w.outbox[k]);
    }
    FlushConserved(w, next);
  }

  lemma FaithfulSame(w: World, w': World, d: Delivery)
    requires Faithful(w, d) && w'.accepted == w.accepted
    ensures Faithful(w', d)
  {
  }

  lemma FlushConserved(w: World, next: int)
    requires Conserved(w)
    ensures Conserved(FlushWorld(w, next))
  {
    hide Flush, NoRepeat;
    assert Buffered(Nobody()) == {};
  }

  // ---------------------------------------------------------------------------------------------
  // Storing
  // ---------------------------------------------------------------------------------------------

  lemma PlusAhead(base: SeqNum, count: nat, first: SeqNum, s: SeqNum)
    requires first == Plus(base, count)
    ensures Plus(base, count + Ahead(first, s)) == s
  {
  }

  /** Nothing is owned while the ring is empty, and the slot a new packet goes to is free. */
  lemma NoOwner(w: World, s: SeqNum)
    requires Anchored(w) && Owned(w) && !IsDuplicate(w.ring, s)
    requires !w.ring.isEmpty ==> Ahead(w.ring.first, s) < SLOTS
    ensures w.owner[s % SLOTS] < 0
    ensures w.ring.isEmpty ==> forall i :: 0 <= i < SLOTS ==> w.owner[i] < 0
  {
    SlotFree(w.ring, s);
    assert SlotOwned(w, s % SLOTS);
    if w.ring.isEmpty {
      forall i | 0 <= i < SLOTS
        ensures w.owner[i] < 0
      {
        assert SlotOwned(w, i);
      }
    }
  }

  /** The ring after a packet was stored. */
  lemma StoredRing(st: Settings, r: State, s: SeqNum, payload: seq<byte>)
    requires st.Valid() && |r.entries| == SLOTS
    ensures var (r', code) := Store(st, r, s, payload);
            match Decode(st, payload)
            case Refused(_) =>
              code != 1 && r' == r.(entries := r.entries[s % SLOTS := ClearedSlot(r.entries[s % SLOTS])])
            case Frame(samples) =>
              && code == 1 && !r'.isEmpty
              && r'.first == (if r.isEmpty then s else r.first)
              && r'.entries == r.entries[s % SLOTS := Slot(true, s, samples)]
  {
    hide Decode, SeqCompare;
  }

  /** Taking ownership of a free slot adds one buffered packet. */
  lemma BufferedAdd(owner: seq<int>, i: nat, id: nat)
    requires i < |owner| && owner[i] < 0
    ensures Buffered(owner[i := id]) == Buffered(owner) + {id}
  {
    var owner' := owner[i := id];
    forall x: nat
      ensures x in Buffered(owner') <==> x in Buffered(owner) + {id}
    {
      if x in Buffered(owner') {
        var k :| 0 <= k < |owner'| && owner'[k] >= 0 && owner'[k] == x;
      }
      if x in Buffered(owner) {
        var k :| 0 <= k < |owner| && owner[k] >= 0 && owner[k] == x;
        assert owner'[k] == x;
      }
      assert owner'[i] == id;
    }
  }

  lemma StoreConserved(w: World, w': World, i: nat)
    requires Conserved(w) && i < |w.owner| && w.owner[i] < 0
    requires w'.owner == w.owner[i := |w.accepted|] && |w'.accepted| == |w.accepted| + 1
    requires w'.outbox == w.outbox && w'.discarded == w.discarded
    ensures Conserved(w')
  {
    hide Buffered, Delivered, NoRepeat;
    BufferedAdd(w.owner, i, |w.accepted|);
    assert |w.accepted| !in Delivered(w.outbox) && |w.accepted| !in w.discarded;
  }

  lemma FaithfulMore(w: World, w': World, d: Delivery, a: Accept)
    requires Faithful(w, d) && w'.accepted == w.accepted + [a]
    requires !(a.epoch == d.epoch && a.pos == d.pos)
    ensures Faithful(w', d)
  {
  }

  lemma StoreInvRefused(st: Settings, w: World, s: SeqNum, data: seq<byte>)
    requires st.Valid() && |data| >= HEADER_LEN && Inv(w) && !IsDuplicate(w.ring, s)
    requires Decode(st, data[HEADER_LEN..]).Refused?
    requires !w.ring.isEmpty ==> Ahead(w.ring.first, s) < SLOTS
    ensures Inv(StoreWorld(st, w, s, data))
  {
    hide Decode, Store, Faithful, Conserved, InOrder;
    var w' := StoreWorld(st, w, s, data);
    StoreValid(st, w.ring, s, data[HEADER_LEN..]);
    StoredRing(st, w.ring, s, data[HEADER_LEN..]);
    SlotFree(w.ring, s);
    forall i: nat | i < SLOTS
      ensures SlotOwned(w', i)
    {
      assert SlotOwned(w, i);
    }
    forall id: nat | id < |w'.accepted|
      ensures AcceptedAt(w', id)
    {
      assert AcceptedAt(w, id);
    }
    forall k: nat | k < |w'.outbox|
      ensures Faithful(w', w'.outbox[k]) && Placed(w', k)
    {
      assert Placed(w, k);
      FaithfulSame(w, w', w.outbox[k]);
    }
    ConservedSame(w, w');
  }

  lemma ConservedSame(w: World, w': World)
    requires Conserved(w) && w'.owner == w.owner && w'.accepted == w.accepted && w'.outbox == w.outbox
    requires w'.discarded == w.discarded
    ensures Conserved(w')
  {
  }

  lemma StoreInvFirst(st: Settings, w: World, s: SeqNum, data: seq<byte>)
    requires st.Valid() && |data| >= HEADER_LEN && Inv(w) && !IsDuplicate(w.ring, s)
    requires Decode(st, data[HEADER_LEN..]).Frame? && w.ring.isEmpty
    ensures Inv(StoreWorld(st, w, s, data))
  {
    hide Decode, Store, Faithful, Conserved, InOrder;
    var w' := StoreWorld(st, w, s, data);
    StoreValid(st, w.ring, s, data[HEADER_LEN..]);
    StoredRing(st, w.ring, s, data[HEADER_LEN..]);
    NoOwner(w, s);
    assert Anchored(w');
    forall i: nat | i < SLOTS
      ensures SlotOwned(w', i)
    {
      assert SlotOwned(w, i);
    }
    forall id: nat | id < |w'.accepted|
      ensures AcceptedAt(w', id)
    {
      if id < |w.accepted| {
        assert AcceptedAt(w, id);
      }
    }
    forall k: nat | k < |w'.outbox|
      ensures Faithful(w', w'.outbox[k]) && Placed(w', k)
    {
      assert Placed(w, k);
      FaithfulMore(w, w', w.outbox[k], w'.accepted[|w.accepted|]);
    }
    StoreConserved(w, w', s % SLOTS);
  }

  lemma StoreInvNext(st: Settings, w: World, s: SeqNum, data: seq<byte>)
    requires st.Valid() && |data| >= HEADER_LEN && Inv(w) && !IsDuplicate(w.ring, s)
    requires Decode(st, data[HEADER_LEN..]).Frame? && !w.ring.isEmpty
    requires Ahead(w.ring.first, s) < SLOTS
    ensures Inv(StoreWorld(st, w, s, data))
  {
    hide Decode, Store, Faithful, Conserved, InOrder;
    var w' := StoreWorld(st, w, s, data);
    StoreValid(st, w.ring, s, data[HEADER_LEN..]);
    StoredRing(st, w.ring, s, data[HEADER_LEN..]);
    NoOwner(w, s);
    PlusAhead(w.bases[w.Epoch()], w.count, w.ring.first, s);
    assert Anchored(w');
    forall i: nat | i < SLOTS
      ensures SlotOwned(w', i)
    {
      assert SlotOwned(w, i);
    }
    forall id: nat | id < |w'.accepted|
      ensures AcceptedAt(w', id)
    {
      if id < |w.accepted| {
        assert AcceptedAt(w, id);
      }
    }
    forall k: nat | k < |w'.outbox|
      ensures Faithful(w', w'.outbox[k]) && Placed(w', k)
    {
      assert Placed(w, k);
      FaithfulMore(w, w', w.outbox[k], w'.accepted[|w.accepted|]);
    }
    StoreConserved(w, w', s % SLOTS);
  }

  lemma StoreInv(st: Settings, w: World, s: SeqNum, data: seq<byte>)
    requires st.Valid() && |data| >= HEADER_LEN && Inv(w) && !IsDuplicate(w.ring, s)
    requires !w.ring.isEmpty ==> Ahead(w.ring.first, s) < SLOTS
    ensures Inv(StoreWorld(st, w, s, data))
  {
    hide Owned, AllAccepted, Logged, InOrder, Conserved, StoreWorld;
    if Decode(st, data[HEADER_LEN..]).Refused? {
      StoreInvRefused(st, w, s, data);
    } else if w.ring.isEmpty {
      StoreInvFirst(st, w, s, data);
    } else {
      StoreInvNext(st, w, s, data);
    }
  }

  lemma QueueInv(st: Settings, w: World, data: seq<byte>, useSeqnum: bool)
    requires st.Valid() && Inv(w)
    ensures Inv(QueueWorld(st, w, data, useSeqnum))
  {
    hide Owned, AllAccepted, Logged, InOrder, Conserved, StoreWorld;
    if WellSized(data) {
      var s := FiledSeq(w.ring, data, useSeqnum);
      if !IsStale(w.ring, s) {
        ResyncedValid(w.ring, s);
        EmptyStays(w.ring, s);
        var w1 := if Resyncs(w.ring, s) then FlushWorld(w, s) else w;
        if Resyncs(w.ring, s) {
          FlushInv(w, s);
        }
        if !IsDuplicate(w1.ring, s) {
          StoreInv(st, w1, s, data);
        }
      }
    }
  }

  // ---------------------------------------------------------------------------------------------
  // Handing out
  // ---------------------------------------------------------------------------------------------

  /** The slot of the next number, when it is occupied, holds that number. */
  lemma HeadSlot(r: State)
    requires Valid(r) && r.entries[r.first % SLOTS].available
    ensures r.entries[r.first % SLOTS].seqnum == r.first
  {
    SlotUnique(r.first, r.entries[r.first % SLOTS].seqnum, r.first);
  }

  /** The block handed out next, and why it is the right one. */
  lemma TakeFaithful(st: Settings, w: World, noResend: bool)
    requires Inv(w) && Ready(w.ring, noResend)
    ensures Faithful(w, TakeWorld(st, w, noResend).outbox[|w.outbox|])
  {
    hide Conserved, InOrder, Logged;
    var idx := w.ring.first % SLOTS;
    var e := w.ring.entries[idx];
    assert SlotOwned(w, idx);
    if e.available {
      HeadSlot(w.ring);
      Advance(w.ring.first, w.ring.first);
    } else {
      forall id: nat | id < |w.accepted|
        ensures !(w.accepted[id].epoch == w.Epoch() && w.accepted[id].pos == w.count)
      {
        assert AcceptedAt(w, id);
      }
    }
  }

  lemma PlusStep(base: SeqNum, count: nat)
    ensures Plus(base, count + 1) == Plus(Plus(base, count), 1)
  {
  }

  lemma TakeOwned(st: Settings, w: World, noResend: bool)
    requires Inv(w) && Ready(w.ring, noResend)
    ensures Anchored(TakeWorld(st, w, noResend)) && Owned(TakeWorld(st, w, noResend))
  {
    hide Conserved, InOrder, Logged, AllAccepted, Ahead, Plus;
    var w' := TakeWorld(st, w, noResend);
    DequeueValid(st, w.ring, noResend);
    PlusStep(w.bases[w.Epoch()], w.count);
    var idx := w.ring.first % SLOTS;
    assert Anchored(w');
    forall i: nat | i < SLOTS
      ensures SlotOwned(w', i)
    {
      assert SlotOwned(w, i);
      var e := w.ring.entries[i];
      if i != idx && e.available {
        Advance(w.ring.first, e.seqnum);
      }
    }
  }

  lemma TakeAccepted(st: Settings, w: World, noResend: bool)
    requires Inv(w) && Ready(w.ring, noResend) && Anchored(TakeWorld(st, w, noResend))
    ensures AllAccepted(TakeWorld(st, w, noResend))
  {
    hide Conserved, InOrder, Logged;
    var w' := TakeWorld(st, w, noResend);
    var idx := w.ring.first % SLOTS;
    assert SlotOwned(w, idx);
    if w.ring.entries[idx].available {
      HeadSlot(w.ring);
      Advance(w.ring.first, w.ring.first);
    }
    forall id: nat | id < |w'.accepted|
      ensures AcceptedAt(w', id)
    {
      assert AcceptedAt(w, id);
    }
  }

  lemma TakeLogged(st: Settings, w: World, noResend: bool)
    requires Inv(w) && Ready(w.ring, noResend)
    ensures Logged(TakeWorld(st, w, noResend)) && InOrder(TakeWorld(st, w, noResend).outbox)
  {
    hide Faithful, Conserved, Owned, AllAccepted;
    var w' := TakeWorld(st, w, noResend);
    TakeFaithful(st, w, noResend);
    forall k: nat | k < |w'.outbox|
      ensures Faithful(w', w'.outbox[k]) && Placed(w', k)
    {
      FaithfulSame(w, w', w'.outbox[k]);
      if k < |w.outbox| {
        assert Placed(w, k);
      }
    }
    forall k: nat | k < |w'.outbox| - 1
      ensures Follows(w'.outbox[k], w'.outbox[k + 1])
    {
      if k == |w.outbox| - 1 {
        assert Placed(w, k);
      }
    }
  }

  /** A slot handed out leaves the buffered packets and, if it was owned, joins the delivered ones. */
  lemma BufferedDrop(owner: seq<int>, i: nat)
    requires i < |owner|
    requires forall j :: 0 <= j < |owner| && j != i && owner[i] >= 0 ==> owner[j] != owner[i]
    ensures Buffered(owner[i := NOBODY]) == if owner[i] >= 0 then Buffered(owner) - {owner[i]} else Buffered(owner)
  {
    var owner' := owner[i := NOBODY];
    forall x: nat
      ensures x in Buffered(owner') <==> x in Buffered(owner) && x != owner[i]
    {
      if x in Buffered(owner') {
        var k :| 0 <= k < |owner'| && owner'[k] >= 0 && owner'[k] == x;
        assert owner[k] == x;
      }
      if x in Buffered(owner) && x != owner[i] {
        var k :| 0 <= k < |owner| && owner[k] >= 0 && owner[k] == x;
        assert owner'[k] == x;
      }
    }
  }

  lemma DeliveredAdd(outbox: seq<Delivery>, d: Delivery)
    ensures Delivered(outbox + [d]) == Delivered(outbox) + (if d.source.Some? then {d.source.value} else {})
  {
    var outbox' := outbox + [d];
    forall x: nat
      ensures x in Delivered(outbox') <==> x in Delivered(outbox) || d.source == Some(x)
    {
      if x in Delivered(outbox) {
        var k :| 0 <= k < |outbox| && outbox[k].source.Some? && outbox[k].source.value == x;
        assert outbox'[k].source.Some? && outbox'[k].source.value == x;
      }
      if d.source == Some(x) {
        assert outbox'[|outbox|].source.value == x;
      }
    }
  }

  /** No packet owns two slots. */
  lemma OwnersDistinct(w: World, i: nat, j: nat)
    requires Anchored(w) && Owned(w) && i < SLOTS && j < SLOTS && i != j && w.owner[i] >= 0
    ensures w.owner[i] != w.owner[j]
  {
    assert SlotOwned(w, i) && SlotOwned(w, j);
  }

  lemma TakeConserved(st: Settings, w: World, noResend: bool)
    requires Inv(w) && Ready(w.ring, noResend)
    ensures Conserved(TakeWorld(st, w, noResend))
  {
    hide Faithful, Logged, InOrder, AllAccepted, Buffered, Delivered, NoRepeat;
    var w' := TakeWorld(st, w, noResend);
    var idx := w.ring.first % SLOTS;
    forall j: nat | j < SLOTS && j != idx && w.owner[idx] >= 0
      ensures w.owner[j] != w.owner[idx]
    {
      OwnersDistinct(w, idx, j);
    }
    OwnerBuffered(w.owner, idx);
    BufferedDrop(w.owner, idx);
    DeliveredAdd(w.outbox, w'.outbox[|w.outbox|]);
    NoRepeatAdd(w.outbox, w'.outbox[|w.outbox|]);
  }

  lemma OwnerBuffered(owner: seq<int>, i: nat)
    requires i < |owner|
    ensures owner[i] >= 0 ==> owner[i] in Buffered(owner)
  {
  }

  lemma NoRepeatAdd(outbox: seq<Delivery>, d: Delivery)
    requires NoRepeat(outbox)
    requires d.source.Some? ==> d.source.value !in Delivered(outbox)
    ensures NoRepeat(outbox + [d])
  {
  }

  lemma TakeInv(st: Settings, w: World, noResend: bool)
    requires Inv(w)
    ensures Inv(TakeWorld(st, w, noResend))
  {
    hide Owned, AllAccepted, Logged, InOrder, Conserved, Ready;
    if Ready(w.ring, noResend) {
      TakeOwned(st, w, noResend);
      TakeAccepted(st, w, noResend);
      TakeLogged(st, w, noResend);
      TakeConserved(st, w, noResend);
    }
  }

  // ---------------------------------------------------------------------------------------------
  // Runs
  // ---------------------------------------------------------------------------------------------

  lemma StepInv(st: Settings, w: World, op: Op)
    requires st.Valid() && Inv(w)
    ensures Inv(Step(st, w, op))
  {
    hide Inv, QueueWorld, TakeWorld, FlushWorld;
    match op
    case Packet(data, useSeqnum) => QueueInv(st, w, data, useSeqnum);
    case Take(noResend) => TakeInv(st, w, noResend);
    case Clear(next) => FlushInv(w, next);
  }

  /** The history of a run from a given state. */
  ghost function Run(st: Settings, w: World, ops: seq<Op>): (r: World)
    requires st.Valid() && Inv(w)
    ensures Inv(r)
    decreases |ops|
  {
    hide Step;
    if ops == [] then w else
    StepInv(st, w, ops[0]);
    Run(st, Step(st, w, ops[0]), ops[1..])
  }

  /**
   * The ring inside a history moves exactly as the ring functions say, and the history misses nothing: the outbox grows
   * by the block that is handed out, when one is, and by nothing else; a packet is accepted exactly when queueing it
   * reports success.
   */
  lemma StepIsRing(st: Settings, w: World, op: Op)
    requires st.Valid() && Inv(w)
    ensures Step(st, w, op).ring
         == match op
            case Packet(data, useSeqnum) => Queue(st, w.ring, data, useSeqnum).0
            case Take(noResend) => Dequeue(st, w.ring, noResend).0
            case Clear(next) => Flush(w.ring, next)
    ensures var block := if op.Take? then Dequeue(st, w.ring, op.noResend).1 else None;
            && (block == None <==> Step(st, w, op).outbox == w.outbox)
            && (block.Some? ==>
                  && |Step(st, w, op).outbox| == |w.outbox| + 1 && w.outbox <= Step(st, w, op).outbox
                  && Step(st, w, op).outbox[|w.outbox|].samples == block.value)
    ensures |Step(st, w, op).accepted|
         == |w.accepted| + if op.Packet? && Queue(st, w.ring, op.data, op.useSeqnum).1 == 1 then 1 else 0
  {
    hide Flush, Decode;
    if op.Take? && Dequeue(st, w.ring, op.noResend).1.Some? {
      assert |Step(st, w, op).outbox| == |w.outbox| + 1;
    }
  }

  /**
   * The accepted packet is the one this step was given: it decodes to its samples and keeps the number it was filed
   * under.
   */
  predicate ComesFrom(st: Settings, a: Accept, op: Op)
    requires st.Valid()
  {
    && op.Packet? && op.data == a.data && WellSized(a.data)
    && Decode(st, a.data[HEADER_LEN..]) == Frame(a.samples)
    && (op.useSeqnum ==> a.seqnum == WireSeq(a.data))
  }

  lemma StepAccepts(st: Settings, w: World, op: Op)
    requires st.Valid() && Inv(w)
    ensures var w' := Step(st, w, op);
            w'.accepted == w.accepted ||
            (|w'.accepted| == |w.accepted| + 1 && w'.accepted[..|w.accepted|] == w.accepted &&
             ComesFrom(st, w'.accepted[|w.accepted|], op))
  {
    hide Store, Decode, Flush;
  }

  predicate Sourced(st: Settings, a: Accept, ops: seq<Op>)
    requires st.Valid()
  {
    exists k :: 0 <= k < |ops| && ComesFrom(st, a, ops[k])
  }

  lemma {:induction false} RunAccepts(st: Settings, w: World, ops: seq<Op>)
    requires st.Valid() && Inv(w)
    ensures w.accepted <= Run(st, w, ops).accepted
    ensures forall id :: |w.accepted| <= id < |Run(st, w, ops).accepted| ==>
              Sourced(st, Run(st, w, ops).accepted[id], ops)
    decreases |ops|
  {
    hide Step, ComesFrom, Inv;
    if ops == [] {
    } else {
      StepInv(st, w, ops[0]);
      StepAnchored(w);
      StepAccepts(st, w, ops[0]);
      var w1 := Step(st, w, ops[0]);
      RunAccepts(st, w1, ops[1..]);
      var r := Run(st, w, ops);
      forall id: nat | |w.accepted| <= id < |r.accepted|
        ensures Sourced(st, r.accepted[id], ops)
      {
        if id < |w1.accepted| {
          assert r.accepted[id] == w1.accepted[id];
          assert ComesFrom(st, r.accepted[id], ops[0]);
        } else {
          var k :| 0 <= k < |ops[1..]| && ComesFrom(st, r.accepted[id], ops[1..][k]);
          assert ComesFrom(st, r.accepted[id], ops[k + 1]);
        }
      }
    }
  }

  lemma StepAnchored(w: World)
    requires Inv(w)
    ensures Anchored(w)
  {
  }

  /**
   * Delivery refines an ordered stream. In every run the blocks handed out in one epoch are those of positions
   * 0, 1, 2 and so on; the block of a position is the packet accepted for it, which carried the position's wrapping
   * sequence number, or silence if none was; and every accepted packet is handed out once, still buffered or
   * discarded, and never two of these.
   */
  lemma RunRefinesStream(st: Settings, silence: nat, ops: seq<Op>)
    requires st.Valid()
    ensures Inv(Start(silence))
    ensures var w := Run(st, Start(silence), ops);
            && Valid(w.ring)
            && InOrder(w.outbox)
            && (forall k :: 0 <= k < |w.outbox| ==> Faithful(w, w.outbox[k]))
            && (forall id :: 0 <= id < |w.accepted| ==>
                  && w.accepted[id].epoch < |w.bases|
                  && w.accepted[id].seqnum == Plus(w.bases[w.accepted[id].epoch], w.accepted[id].pos)
                  && Sourced(st, w.accepted[id], ops))
            && Conserved(w)
  {
    hide Faithful, Conserved, InOrder, Sourced;
    StartInv(silence);
    var w := Run(st, Start(silence), ops);
    RunAccepts(st, Start(silence), ops);
    forall id: nat | id < |w.accepted|
      ensures w.accepted[id].epoch < |w.bases|
      ensures w.accepted[id].seqnum == Plus(w.bases[w.accepted[id].epoch], w.accepted[id].pos)
    {
      assert AcceptedAt(w, id);
    }
  }
}
