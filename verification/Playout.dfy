/**
 * Buffered playout: the receiver inserts frames by RTP timestamp, commands move the anchor and drop frames, and the
 * delivery thread takes the frames that are due. All three hold the same lock, so a run is any sequence of their steps.
 */
module Playout {
  import opened Common

  const FULL: int := 0x1_0000_0000
  const HALF: int := 0x8000_0000
  const SECOND: int := 1_000_000_000

  type u32 = x: int | 0 <= x < 0x1_0000_0000

  /** `a - b` on 32-bit timestamps, read as a signed number. */
  function Lag(a: int, b: int): (r: int)
    ensures -HALF <= r < HALF
  {
    (a - b + HALF) % FULL - HALF
  }

  function Wrapped(x: int): u32
  {
    x % FULL
  }

  /** Frames by timestamp; a frame is named by the number of its insertion. */
  datatype State = State(
    buffer: map<u32, nat>, anchor: u32, anchorNs: nat, rate: u32, sampleRate: u32, channels: nat,
    stopped: bool, formatChanged: bool, flushPending: bool)

  datatype Command =
    | SetRate(anchor: u32, rate: u32)
    | Flush(from: u32, until: u32)
    | Stop

  // ---------------------------------------------------------------------------------------------
  // Commands
  // ---------------------------------------------------------------------------------------------

  predicate IsSmallest(keys: set<u32>, k: u32)
  {
    k in keys && forall j :: j in keys ==> k <= j
  }

  function Smallest(keys: set<u32>): (k: u32)
    requires keys != {}
    ensures k in keys && forall j :: j in keys ==> k <= j
  {
    SmallestExists(keys);
    var k: u32 :| k in keys && IsSmallest(keys, k);
    k
  }

  lemma {:induction false} SmallestExists(keys: set<u32>)
    requires keys != {}
    ensures exists k: u32 :: k in keys && IsSmallest(keys, k)
    decreases |keys|
  {
    var x: u32 :| x in keys;
    var rest := keys - {x};
    assert forall j :: j in keys ==> j == x || j in rest;
    if rest == {} {
      assert IsSmallest(keys, x);
    } else {
      SmallestExists(rest);
      var y: u32 :| y in rest && IsSmallest(rest, y);
      assert IsSmallest(keys, if x <= y then x else y);
    }
  }

  function Lead(sampleRate: u32): int
  {
    sampleRate / 10
  }

  /** Where playback starts: a tenth of a second before the first buffered frame, or where the command says. */
  function StartAnchor(s: State, anchor: u32): u32
  {
    if s.buffer == map[] then anchor else Wrapped(Smallest(s.buffer.Keys) - Lead(s.sampleRate))
  }

  function Stale(s: State): set<u32>
  {
    set ts | ts in s.buffer && Lag(s.anchor, ts) > 0
  }

  function InRange(s: State, from: u32, until: u32): set<u32>
  {
    set ts | ts in s.buffer && from <= ts <= until
  }

  function Apply(s: State, c: Command, now: nat): State
  {
    match c
    case SetRate(anchor, rate) =>
      if rate == 0 then s.(anchor := anchor, rate := rate) else
      var s1 := s.(anchor := StartAnchor(s, anchor), rate := rate, anchorNs := now);
      s1.(buffer := s1.buffer - Stale(s1))
    case Flush(from, until) => s.(buffer := s.buffer - InRange(s, from, until), flushPending := true)
    case Stop => s.(stopped := true, buffer := map[])
  }

  // ---------------------------------------------------------------------------------------------
  // Delivery
  // ---------------------------------------------------------------------------------------------

  /** Frames since the anchor was set; the subtraction saturates. */
  function Elapsed(s: State, now: nat): nat
  {
    (if now < s.anchorNs then 0 else now - s.anchorNs) * s.sampleRate / SECOND
  }

  function Target(s: State, now: nat): u32
  {
    Wrapped(s.anchor + Wrapped(Elapsed(s, now)))
  }

  function Ready(s: State, now: nat): set<u32>
  {
    set ts | ts in s.buffer && Lag(Target(s, now), ts) >= 0
  }

  /** The delivery thread waits until it is stopped, a flush is pending, or there is something to play. */
  predicate Wakes(s: State)
  {
    s.stopped || s.flushPending || (s.rate != 0 && s.buffer != map[])
  }

  /** One turn of the delivery thread when it wakes; nothing is taken when stopped. */
  function Deliver(s: State, now: nat): State
  {
    if s.stopped then s else s.(formatChanged := false, flushPending := false, buffer := s.buffer - Ready(s, now))
  }

  /** Keys in ascending order. */
  function Ascending(keys: set<u32>): (r: seq<u32>)
    ensures forall k :: k in r <==> k in keys
    ensures forall i, j :: 0 <= i < j < |r| ==> r[i] < r[j]
    decreases |keys|
  {
    if keys == {} then [] else
    var k := Smallest(keys);
    var rest := Ascending(keys - {k});
    assert forall i :: 0 <= i < |rest| ==> rest[i] in keys - {k};
    [k] + rest
  }

  // ---------------------------------------------------------------------------------------------
  // Due times
  // ---------------------------------------------------------------------------------------------

  /** How many frames after the anchor a timestamp lies. */
  function Offset(s: State, ts: u32): int
  {
    Lag(ts, s.anchor)
  }

  lemma LagOfTarget(anchor: int, ts: int, e: nat)
    ensures Lag(Wrapped(anchor + Wrapped(e)), ts) == Lag(e, Lag(ts, anchor))
  {
    var d := Lag(ts, anchor);
    var t := Wrapped(anchor + Wrapped(e));
    var a := e / FULL;
    assert e == a * FULL + Wrapped(e);
    var b := (anchor + Wrapped(e)) / FULL;
    assert anchor + Wrapped(e) == b * FULL + t;
    var k := (ts - anchor + HALF) / FULL;
    assert ts - anchor == k * FULL + d;
    assert t - ts == (e - d) + (0 - a - b - k) * FULL;
    SameLag(t - ts, e - d, 0 - a - b - k);
  }

  lemma SameLag(x: int, y: int, k: int)
    requires x == y + k * FULL
    ensures (x + HALF) % FULL == (y + HALF) % FULL
  {
  }

  /** A frame is taken exactly when its time has come, up to half the timestamp space late. */
  lemma DueExactly(s: State, ts: u32, now: nat)
    requires ts in s.buffer && Elapsed(s, now) - Offset(s, ts) < HALF
    ensures ts in Ready(s, now) <==> Elapsed(s, now) >= Offset(s, ts)
  {
    hide Elapsed;
    LagOfTarget(s.anchor, ts, Elapsed(s, now));
  }

  /** No frame is taken before its time, however long ago the anchor was set. */
  lemma NeverEarly(s: State, ts: u32, now: nat)
    requires ts in Ready(s, now)
    ensures Elapsed(s, now) >= Offset(s, ts)
  {
    hide Elapsed;
    LagOfTarget(s.anchor, ts, Elapsed(s, now));
  }

  /**
   * In nanoseconds: a frame that lies after the anchor is taken only when its play time since the anchor has passed.
   */
  lemma NeverEarlyInTime(s: State, ts: u32, now: nat)
    requires ts in Ready(s, now) && Offset(s, ts) > 0
    ensures now >= s.anchorNs && (now - s.anchorNs) * s.sampleRate >= Offset(s, ts) * SECOND
  {
    hide Ready, Offset;
    NeverEarly(s, ts, now);
    var ns := (if now < s.anchorNs then 0 else now - s.anchorNs) * s.sampleRate;
    assert ns / SECOND >= Offset(s, ts);
    assert ns >= Offset(s, ts) * SECOND;
  }

  // ---------------------------------------------------------------------------------------------
  // Starting playback
  // ---------------------------------------------------------------------------------------------

  /**
   * Starting discards a frame exactly when it lies, with the lead, more than half the timestamp space after the
   * first.
   */
  lemma StaleExactly(s: State, anchor: u32, rate: u32, now: nat, ts: u32)
    requires rate != 0 && ts in s.buffer
    ensures var span := Lead(s.sampleRate) + ts - Smallest(s.buffer.Keys);
            ts !in Apply(s, SetRate(anchor, rate), now).buffer <==> HALF < span < FULL
  {
    assert s.buffer != map[];
    var first := Smallest(s.buffer.Keys);
    var lead := Lead(s.sampleRate);
    var a := Wrapped(first - lead);
    var k := (first - lead) / FULL;
    assert first - lead == k * FULL + a;
    SameLag(a - ts, first - lead - ts, 0 - k);
    LagOfNegative(lead + ts - first);
    var s1 := s.(anchor := StartAnchor(s, anchor), rate := rate, anchorNs := now);
    assert ts in Stale(s1) <==> Lag(a, ts) > 0;
  }

  lemma LagOfNegative(x: int)
    requires 0 <= x < FULL + HALF
    ensures (0 - x + HALF) % FULL - HALF > 0 <==> HALF < x < FULL
  {
  }

  /** Starting discards nothing when all timestamps lie within half the space, less the lead, of the smallest. */
  lemma StartKeepsAll(s: State, anchor: u32, rate: u32, now: nat)
    requires rate != 0
    requires forall ts :: ts in s.buffer ==> ts - Smallest(s.buffer.Keys) <= HALF - Lead(s.sampleRate)
    ensures Apply(s, SetRate(anchor, rate), now).buffer == s.buffer
  {
    hide Smallest, Lead;
    var b := Apply(s, SetRate(anchor, rate), now).buffer;
    forall ts | ts in s.buffer
      ensures ts in b
    {
      StaleExactly(s, anchor, rate, now, ts);
    }
    assert b == s.buffer;
  }

  // ---------------------------------------------------------------------------------------------
  // Runs
  // ---------------------------------------------------------------------------------------------

  datatype Step =
    | Insert(ts: u32)
    | Reformat(sampleRate: u32, channels: nat)
    | Do(command: Command, now: nat)
    | Turn(now: nat)
    | ReceiverEnds

  /** What became of a frame. `at` is its place among all frames handed out. */
  datatype Fate = Waiting | Played(at: nat) | Replaced(newer: nat) | Discarded

  /** A frame handed out: its number, its timestamp, and how many frames late it was. */
  datatype Handed = Handed(frame: nat, ts: u32, late: int)

  /** `stamps` holds the timestamps of all frames inserted so far, `fates` what became of them. */
  datatype World = World(state: State, stamps: seq<u32>, fates: seq<Fate>, out: seq<Handed>)

  function Hand(s: State, now: nat, ts: u32): Handed
    requires ts in s.buffer
  {
    Handed(s.buffer[ts], ts, Elapsed(s, now) - Offset(s, ts))
  }

  /** The batch of a turn, in ascending order of timestamps. */
  function Batch(s: State, now: nat): (r: seq<Handed>)
    ensures !s.stopped ==> |r| == |Ascending(Ready(s, now))|
    ensures !s.stopped ==>
              forall i :: 0 <= i < |r| ==>
                var ts := Ascending(Ready(s, now))[i]; ts in s.buffer && r[i] == Hand(s, now, ts)
  {
    if s.stopped then [] else
    var keys := Ascending(Ready(s, now));
    assert forall i :: 0 <= i < |keys| ==> keys[i] in Ready(s, now);
    seq(|keys|, i requires 0 <= i < |keys| => Hand(s, now, keys[i]))
  }

  /** Fates after the buffer lost frames: `gone` says what became of a frame that is no longer there. */
  function Drop(w: World, after: map<u32, nat>): seq<Fate>
    requires |w.fates| == |w.stamps|
  {
    seq(|w.fates|, n requires 0 <= n < |w.fates| =>
      if w.fates[n] == Waiting && w.stamps[n] !in after then Discarded else w.fates[n])
  }

  /** Where in a batch a frame is. */
  function Place(batch: seq<Handed>, n: nat): (r: Option<nat>)
    ensures r.Some? ==> r.value < |batch| && batch[r.value].frame == n
    ensures r == None ==> forall i :: 0 <= i < |batch| ==> batch[i].frame != n
  {
    if batch == [] then None
    else if batch[|batch| - 1].frame == n then Some(|batch| - 1)
    else Place(batch[..|batch| - 1], n)
  }

  function Play(w: World, batch: seq<Handed>): seq<Fate>
  {
    seq(|w.fates|, n requires 0 <= n < |w.fates| =>
      if Place(batch, n).Some? then Played(|w.out| + Place(batch, n).value) else w.fates[n])
  }

  function Take(w: World, step: Step): (r: World)
    requires |w.fates| == |w.stamps|
    ensures |r.fates| == |r.stamps|
  {
    match step
    case Insert(ts) =>
      var n := |w.stamps|;
      var fates := if ts in w.state.buffer && w.state.buffer[ts] < n
                   then w.fates[w.state.buffer[ts] := Replaced(n)] else w.fates;
      World(w.state.(buffer := w.state.buffer[ts := n]), w.stamps + [ts], fates + [Waiting], w.out)
    case Reformat(sampleRate, channels) =>
      w.(state := w.state.(sampleRate := sampleRate, channels := channels, formatChanged := true))
    case Do(command, now) =>
      var s := Apply(w.state, command, now);
      w.(state := s, fates := Drop(w, s.buffer))
    case Turn(now) =>
      if !Wakes(w.state) then w else
      var batch := Batch(w.state, now);
      World(Deliver(w.state, now), w.stamps, Play(w, batch), w.out + batch)
    case ReceiverEnds =>
      w.(state := w.state.(stopped := true, buffer := map[]), fates := Drop(w, map[]))
  }

  /**
   * The invariant: a frame waits exactly when it is in the buffer under its timestamp; a frame that was played is at
   * its one place among those handed out, and was not early.
   */
  ghost predicate Inv(w: World)
  {
    && |w.fates| == |w.stamps|
    && Held(w) && Once(w) && Superseded(w)
    && (forall i :: 0 <= i < |w.out| ==> w.out[i].late >= 0)
  }

  ghost predicate Held(w: World)
    requires |w.fates| == |w.stamps|
  {
    && (forall ts :: ts in w.state.buffer ==>
          var n := w.state.buffer[ts]; n < |w.stamps| && w.stamps[n] == ts && w.fates[n] == Waiting)
    && (forall n :: 0 <= n < |w.fates| && w.fates[n] == Waiting ==>
          w.stamps[n] in w.state.buffer && w.state.buffer[w.stamps[n]] == n)
  }

  ghost predicate Once(w: World)
    requires |w.fates| == |w.stamps|
  {
    && (forall i :: 0 <= i < |w.out| ==>
          w.out[i].frame < |w.fates| && w.fates[w.out[i].frame] == Played(i) && w.stamps[w.out[i].frame] == w.out[i].ts)
    && (forall n :: 0 <= n < |w.fates| && w.fates[n].Played? ==>
          w.fates[n].at < |w.out| && w.out[w.fates[n].at].frame == n)
  }

  ghost predicate Superseded(w: World)
    requires |w.fates| == |w.stamps|
  {
    forall n :: 0 <= n < |w.fates| && w.fates[n].Replaced? ==>
      n < w.fates[n].newer < |w.stamps| && w.stamps[w.fates[n].newer] == w.stamps[n]
  }

  lemma InsertInv(w: World, ts: u32)
    requires Inv(w)
    ensures Inv(Take(w, Insert(ts)))
  {
    InsertHeld(w, ts);
    InsertOnce(w, ts);
    hide Held, Once;
  }

  lemma InsertHeld(w: World, ts: u32)
    requires Inv(w)
    ensures Held(Take(w, Insert(ts)))
  {
    hide Once, Superseded;
  }

  lemma InsertOnce(w: World, ts: u32)
    requires Inv(w)
    ensures Once(Take(w, Insert(ts)))
  {
    hide Superseded;
  }

  lemma DropInv(w: World, s: State)
    requires Inv(w) && forall ts :: ts in s.buffer ==> ts in w.state.buffer && s.buffer[ts] == w.state.buffer[ts]
    ensures Inv(w.(state := s, fates := Drop(w, s.buffer)))
  {
  }

  /** A batch holds each frame of some timestamps once, and none too early. */
  ghost predicate Holds(batch: seq<Handed>, buffer: map<u32, nat>, ready: set<u32>)
  {
    && (forall i :: 0 <= i < |batch| ==>
          batch[i].ts in ready && batch[i].ts in buffer && buffer[batch[i].ts] == batch[i].frame && batch[i].late >= 0)
    && (forall ts :: ts in ready ==> exists i :: 0 <= i < |batch| && batch[i].ts == ts)
    && (forall i, j :: 0 <= i < j < |batch| ==> batch[i].ts != batch[j].ts)
  }

  lemma BatchHolds(s: State, now: nat)
    requires !s.stopped
    ensures Holds(Batch(s, now), s.buffer, Ready(s, now))
  {
    hide Elapsed, Offset;
    var keys := Ascending(Ready(s, now));
    var batch := Batch(s, now);
    forall i | 0 <= i < |batch|
      ensures batch[i].ts == keys[i] && keys[i] in Ready(s, now) && batch[i].late >= 0
    {
      assert keys[i] in Ready(s, now);
      NeverEarly(s, keys[i], now);
    }
    forall ts | ts in Ready(s, now)
      ensures exists i :: 0 <= i < |batch| && batch[i].ts == ts
    {
      var i :| 0 <= i < |keys| && keys[i] == ts;
      assert batch[i].ts == ts;
    }
  }

  function AfterBatch(w: World, s: State, batch: seq<Handed>): World
  {
    World(s, w.stamps, Play(w, batch), w.out + batch)
  }

  /** Exactly the frames of the batch are placed in it, each where it is. */
  lemma PlaceExactly(w: World, batch: seq<Handed>, ready: set<u32>, n: nat)
    requires Inv(w) && Holds(batch, w.state.buffer, ready) && n < |w.fates|
    ensures Place(batch, n).Some? <==> w.fates[n] == Waiting && w.stamps[n] in ready
    ensures forall i :: 0 <= i < |batch| && batch[i].frame == n ==> Place(batch, n) == Some(i)
  {
    hide Once, Superseded;
    if Place(batch, n).Some? {
      var i := Place(batch, n).value;
      assert batch[i].ts in w.state.buffer;
    }
    if w.fates[n] == Waiting && w.stamps[n] in ready {
      var i :| 0 <= i < |batch| && batch[i].ts == w.stamps[n];
      assert batch[i].frame == n;
    }
    forall i | 0 <= i < |batch| && batch[i].frame == n
      ensures Place(batch, n) == Some(i)
    {
      var j := Place(batch, n).value;
      assert batch[i].ts in w.state.buffer && batch[j].ts in w.state.buffer;
      assert w.stamps[n] == batch[i].ts == batch[j].ts;
    }
  }

  lemma TurnHeld(w: World, s: State, batch: seq<Handed>, ready: set<u32>)
    requires Inv(w) && Holds(batch, w.state.buffer, ready) && s.buffer == w.state.buffer - ready
    ensures Held(AfterBatch(w, s, batch))
  {
    hide Once, Superseded, Holds, Place;
    forall n: nat | n < |w.fates|
      ensures Place(batch, n).Some? <==> w.fates[n] == Waiting && w.stamps[n] in ready
    {
      PlaceExactly(w, batch, ready, n);
    }
  }

  lemma TurnOnce(w: World, s: State, batch: seq<Handed>, ready: set<u32>)
    requires Inv(w) && Holds(batch, w.state.buffer, ready)
    ensures Once(AfterBatch(w, s, batch))
  {
    hide Superseded, Place, Held;
    var w' := AfterBatch(w, s, batch);
    forall i | 0 <= i < |w'.out|
      ensures w'.out[i].frame < |w'.fates| && w'.fates[w'.out[i].frame] == Played(i)
      ensures w'.stamps[w'.out[i].frame] == w'.out[i].ts
    {
      if i < |w.out| {
        PlaceExactly(w, batch, ready, w.out[i].frame);
      } else {
        var h := batch[i - |w.out|];
        assert h.ts in w.state.buffer;
        BufferedFrame(w, h.ts);
        PlaceExactly(w, batch, ready, h.frame);
      }
    }
  }

  lemma BufferedFrame(w: World, ts: u32)
    requires Inv(w) && ts in w.state.buffer
    ensures w.state.buffer[ts] < |w.stamps| && w.stamps[w.state.buffer[ts]] == ts
  {
  }

  lemma TurnInv(w: World, now: nat)
    requires Inv(w) && !w.state.stopped
    ensures Inv(AfterBatch(w, Deliver(w.state, now), Batch(w.state, now)))
  {
    hide Ready, Batch, Held, Once, Place;
    var batch := Batch(w.state, now);
    BatchHolds(w.state, now);
    TurnHeld(w, Deliver(w.state, now), batch, Ready(w.state, now));
    TurnOnce(w, Deliver(w.state, now), batch, Ready(w.state, now));
  }

  lemma ApplyOnlyRemoves(s: State, c: Command, now: nat, ts: u32)
    requires ts in Apply(s, c, now).buffer
    ensures ts in s.buffer && Apply(s, c, now).buffer[ts] == s.buffer[ts]
  {
    hide Smallest, Lead;
  }

  /** Every step keeps the invariant. */
  lemma StepInv(w: World, step: Step)
    requires Inv(w)
    ensures Inv(Take(w, step))
  {
    hide Held, Once, Superseded, Apply, Batch, Play, Drop, Deliver;
    match step
    case Insert(ts) => InsertInv(w, ts);
    case Reformat(sampleRate, channels) => ReformatInv(w, sampleRate, channels);
    case Do(command, now) =>
      forall ts | ts in Apply(w.state, command, now).buffer
        ensures ts in w.state.buffer && Apply(w.state, command, now).buffer[ts] == w.state.buffer[ts]
      {
        ApplyOnlyRemoves(w.state, command, now, ts);
      }
      DropInv(w, Apply(w.state, command, now));
    case Turn(now) =>
      if w.state.stopped {
        StoppedTurn(w, now);
      } else {
        TurnInv(w, now);
      }
    case ReceiverEnds => DropInv(w, w.state.(stopped := true, buffer := map[]));
  }

  lemma ReformatInv(w: World, sampleRate: u32, channels: nat)
    requires Inv(w)
    ensures Inv(Take(w, Reformat(sampleRate, channels)))
  {
  }

  /** A turn after stopping changes nothing. */
  lemma StoppedTurn(w: World, now: nat)
    requires |w.fates| == |w.stamps| && w.state.stopped
    ensures Take(w, Turn(now)) == w
  {
    assert Play(w, []) == w.fates;
    assert w.out + [] == w.out;
  }

  function Run(w: World, steps: seq<Step>): (r: World)
    requires |w.fates| == |w.stamps|
    ensures |r.fates| == |r.stamps|
    decreases |steps|
  {
    if steps == [] then w else Run(Take(w, steps[0]), steps[1..])
  }

  lemma {:induction false} RunInv(w: World, steps: seq<Step>)
    requires Inv(w)
    ensures Inv(Run(w, steps))
    decreases |steps|
  {
    hide Inv, Take;
    InvLengths(w);
    if steps == [] {
    } else {
      StepInv(w, steps[0]);
      RunInv(Take(w, steps[0]), steps[1..]);
    }
  }

  lemma InvLengths(w: World)
    requires Inv(w)
    ensures |w.fates| == |w.stamps|
  {
  }

  // ---------------------------------------------------------------------------------------------
  // What no run can do
  // ---------------------------------------------------------------------------------------------

  function Begin(s: State): World
  {
    World(s, [], [], [])
  }

  lemma BeginInv(s: State)
    requires s.buffer == map[]
    ensures Inv(Begin(s))
  {
  }

  /** No frame is handed out twice. */
  lemma HandedOutOnce(s: State, steps: seq<Step>, i: nat, j: nat)
    requires s.buffer == map[]
    requires i < j < |Run(Begin(s), steps).out|
    ensures Run(Begin(s), steps).out[i].frame != Run(Begin(s), steps).out[j].frame
  {
    hide Run, Held, Superseded;
    BeginInv(s);
    RunInv(Begin(s), steps);
  }

  /** No frame is handed out before its time, and each under the timestamp it was inserted with. */
  lemma NoneHandedOutEarly(s: State, steps: seq<Step>, i: nat)
    requires s.buffer == map[]
    requires i < |Run(Begin(s), steps).out|
    ensures var w := Run(Begin(s), steps);
            w.out[i].late >= 0 && w.out[i].frame < |w.stamps| && w.stamps[w.out[i].frame] == w.out[i].ts
  {
    hide Run, Held, Superseded;
    BeginInv(s);
    RunInv(Begin(s), steps);
  }

  /** Every frame ever inserted is in the buffer, was handed out, was replaced at its timestamp, or was discarded. */
  lemma EveryFrameAccounted(s: State, steps: seq<Step>, n: nat)
    requires s.buffer == map[] && n < |Run(Begin(s), steps).stamps|
    ensures var w := Run(Begin(s), steps);
            match w.fates[n]
            case Waiting => w.stamps[n] in w.state.buffer && w.state.buffer[w.stamps[n]] == n
            case Played(at) => at < |w.out| && w.out[at].frame == n && w.out[at].ts == w.stamps[n]
            case Replaced(newer) => n < newer < |w.stamps| && w.stamps[newer] == w.stamps[n]
            case Discarded => !(w.stamps[n] in w.state.buffer && w.state.buffer[w.stamps[n]] == n)
                              && forall i :: 0 <= i < |w.out| ==> w.out[i].frame != n
  {
    hide Run;
    BeginInv(s);
    RunInv(Begin(s), steps);
  }

  /** A frame's fate is final. */
  lemma FateFinal(w: World, step: Step, n: nat)
    requires Inv(w) && n < |w.fates| && w.fates[n] != Waiting
    ensures n < |Take(w, step).fates| && Take(w, step).fates[n] == w.fates[n]
  {
    hide Apply, Superseded, Once;
    if step.Turn? && Wakes(w.state) && !w.state.stopped {
      BatchHolds(w.state, step.now);
      PlaceExactly(w, Batch(w.state, step.now), Ready(w.state, step.now), n);
    }
  }

  lemma {:induction false} FateFinalRun(w: World, steps: seq<Step>, n: nat)
    requires Inv(w) && n < |w.fates| && w.fates[n] != Waiting
    ensures n < |Run(w, steps).fates| && Run(w, steps).fates[n] == w.fates[n]
    decreases |steps|
  {
    hide Inv, Take;
    InvLengths(w);
    if steps == [] {
    } else {
      FateFinal(w, steps[0], n);
      StepInv(w, steps[0]);
      FateFinalRun(Take(w, steps[0]), steps[1..], n);
    }
  }

  /**
   * The steps that discard a waiting frame: no insertion, no change of format and no turn of delivery is among them.
   */
  predicate Discards(w: World, step: Step, ts: u32)
  {
    match step
    case Do(SetRate(_, rate), _) =>
      && rate != 0 && w.state.buffer != map[]
      && HALF < Lead(w.state.sampleRate) + ts - Smallest(w.state.buffer.Keys) < FULL
    case Do(Flush(from, until), _) => from <= ts <= until
    case Do(Stop, _) => true
    case ReceiverEnds => true
    case _ => false
  }

  lemma DiscardedExactly(w: World, step: Step, n: nat)
    requires Inv(w) && n < |w.fates| && w.fates[n] == Waiting
    ensures n < |Take(w, step).fates|
    ensures Take(w, step).fates[n] == Discarded <==> Discards(w, step, w.stamps[n])
  {
    hide Superseded, Once, Smallest, Batch;
    if step.Do? && step.command.SetRate? && step.command.rate != 0 {
      StaleExactly(w.state, step.command.anchor, step.command.rate, step.now, w.stamps[n]);
    }
  }

  /** After stopping no batch is ever taken again. */
  lemma {:induction false} NothingAfterStop(w: World, steps: seq<Step>)
    requires |w.fates| == |w.stamps| && w.state.stopped
    ensures Run(w, steps).state.stopped && Run(w, steps).out == w.out
    decreases |steps|
  {
    hide Stale, InRange, Lead, StartAnchor, Batch;
    if steps == [] {
    } else {
      if steps[0].Turn? {
        StoppedTurn(w, steps[0].now);
      }
      NothingAfterStop(Take(w, steps[0]), steps[1..]);
    }
  }

  /** A paused connection hands nothing out, except on a flush, when it hands out whatever is due. */
  lemma PausedTurn(w: World, now: nat)
    requires Inv(w) && !w.state.stopped && w.state.rate == 0
    ensures Take(w, Turn(now)).out == w.out <==> !(w.state.flushPending && Ready(w.state, now) != {})
  {
    hide Ready, Play, Held, Once, Superseded;
    if w.state.flushPending {
      BatchHolds(w.state, now);
      var batch := Batch(w.state, now);
      assert Take(w, Turn(now)).out == w.out + batch;
      if batch == [] {
        assert w.out + batch == w.out;
        assert Ready(w.state, now) == {};
      } else {
        assert batch[0].ts in Ready(w.state, now);
        assert |w.out + batch| > |w.out|;
      }
    }
  }

  const IDLE: State := State(map[], 0, 0, 0, 44100, 2, false, false, false)

  /**
   * Such a flush hands out a frame although playback never started: at any time, a frame at the timestamp that the
   * clock alone gives, when the flush does not cover it.
   */
  lemma PausedFlushPlays(sampleRate: u32, now: nat, at: nat, from: u32, until: u32)
    requires var ts := Target(IDLE.(sampleRate := sampleRate), now); !(from <= ts <= until)
    ensures var idle := IDLE.(sampleRate := sampleRate);
            var ts := Target(idle, now);
            var flushed := Take(Take(Begin(idle), Insert(ts)), Do(Flush(from, until), at));
            Take(flushed, Turn(now)).out == [Hand(flushed.state, now, ts)]
  {
    hide Ascending, Elapsed;
    var idle := IDLE.(sampleRate := sampleRate);
    var ts := Target(idle, now);
    var s := idle.(buffer := map[ts := 0], flushPending := true);
    var w1 := Take(Begin(idle), Insert(ts));
    var w2 := Take(w1, Do(Flush(from, until), at));
    assert w1.state.buffer == map[ts := 0];
    assert w2.state == s by {
      assert w1.state.buffer - InRange(w1.state, from, until) == w1.state.buffer;
    }
    assert Target(s, now) == ts by {
      assert Elapsed(s, now) == Elapsed(idle, now) by {
        SameClock(s, idle, now);
      }
    }
    assert Ready(s, now) == {ts};
    OnlyOne(ts);
    assert Batch(s, now) == [Hand(s, now, ts)];
    assert w2.out == [];
  }

  lemma SameClock(s: State, t: State, now: nat)
    requires s.anchorNs == t.anchorNs && s.sampleRate == t.sampleRate
    ensures Elapsed(s, now) == Elapsed(t, now)
  {
  }

  lemma OnlyOne(k: u32)
    ensures Ascending({k}) == [k]
  {
    var keys: set<u32> := {k};
    assert Smallest(keys) in keys;
    assert keys - {k} == {};
  }

  /** The timestamp farthest from the anchor, where offsets jump. */
  function FarEnd(s: State): u32
  {
    Wrapped(s.anchor + HALF)
  }

  lemma OffsetOrder(s: State, x: u32, y: u32)
    requires x < y
    ensures Offset(s, x) < Offset(s, y) <==> !(x < FarEnd(s) <= y)
  {
  }

  /** Of two frames of a batch the older goes first exactly when the far end does not lie between them. */
  lemma OldestFirst(s: State, now: nat, i: nat, j: nat)
    requires i < j < |Batch(s, now)|
    ensures var b := Batch(s, now);
            && (Offset(s, b[i].ts) < Offset(s, b[j].ts) <==> b[i].late > b[j].late)
            && (b[i].late > b[j].late <==> !(b[i].ts < FarEnd(s) <= b[j].ts))
  {
    hide Offset, Elapsed, FarEnd, Ready, Ascending;
    var keys := Ascending(Ready(s, now));
    OffsetOrder(s, keys[i], keys[j]);
  }

  /** A batch is handed out oldest first exactly when all its timestamps lie on one side of the far end. */
  lemma BatchOldestFirst(s: State, now: nat)
    requires !s.stopped
    ensures (forall i, j :: 0 <= i < j < |Batch(s, now)| ==> Batch(s, now)[i].late > Batch(s, now)[j].late)
       <==> || (forall ts :: ts in Ready(s, now) ==> ts < FarEnd(s))
            || (forall ts :: ts in Ready(s, now) ==> FarEnd(s) <= ts)
  {
    hide Offset, Elapsed, FarEnd, Ready, Ascending, Batch, Holds;
    var b, far := Batch(s, now), FarEnd(s);
    BatchHolds(s, now);
    forall i, j | 0 <= i < j < |b|
      ensures b[i].ts < b[j].ts && (b[i].late > b[j].late <==> !(b[i].ts < far <= b[j].ts))
    {
      OldestFirst(s, now, i, j);
      BatchAscends(s, now, i, j);
    }
    OneSide(b, s.buffer, Ready(s, now), far);
  }

  lemma OneSide(b: seq<Handed>, buffer: map<u32, nat>, ready: set<u32>, far: u32)
    requires Holds(b, buffer, ready)
    requires forall i, j :: 0 <= i < j < |b| ==>
               b[i].ts < b[j].ts && (b[i].late > b[j].late <==> !(b[i].ts < far <= b[j].ts))
    ensures (forall i, j :: 0 <= i < j < |b| ==> b[i].late > b[j].late)
       <==> (forall ts :: ts in ready ==> ts < far) || (forall ts :: ts in ready ==> far <= ts)
  {
    if x, y :| x in ready && y in ready && x < far <= y {
      var i :| 0 <= i < |b| && b[i].ts == x;
      var j :| 0 <= j < |b| && b[j].ts == y;
      assert i < j;
    }
  }

  lemma BatchAscends(s: State, now: nat, i: nat, j: nat)
    requires i < |Batch(s, now)| && j < |Batch(s, now)|
    ensures Batch(s, now)[i].ts < Batch(s, now)[j].ts <==> i < j
  {
    hide Offset, Elapsed, Ready, Ascending;
    var keys := Ascending(Ready(s, now));
    if j < i {
      assert keys[j] < keys[i];
    }
  }

  lemma TwoKeys(a: u32, b: u32)
    requires a < b
    ensures Ascending({a, b}) == [a, b]
  {
    var keys: set<u32> := {a, b};
    assert Smallest(keys) in keys && a in keys;
    assert keys - {a} == {b};
    OnlyOne(b);
  }

  /** A run across the wrap, at any time: the frame inserted second, and due second, is handed out first. */
  lemma NewerFirst(t: nat)
    ensures var started := Take(Begin(IDLE), Do(SetRate(0xFFFF_FFF0, 1), t));
            var filled := Take(Take(started, Insert(0xFFFF_FFF5)), Insert(5));
            Take(filled, Turn(t + SECOND)).out == [Handed(1, 5, 44079), Handed(0, 0xFFFF_FFF5, 44095)]
  {
    hide Ascending;
    var begun := IDLE.(anchor := 0xFFFF_FFF0, rate := 1, anchorNs := t);
    var started := Take(Begin(IDLE), Do(SetRate(0xFFFF_FFF0, 1), t));
    assert started.state == begun by {
      assert IDLE.buffer - Stale(begun) == IDLE.buffer;
    }
    var filled := Take(Take(started, Insert(0xFFFF_FFF5)), Insert(5));
    var s, now := filled.state, t + SECOND;
    assert s == begun.(buffer := map[0xFFFF_FFF5 := 0, 5 := 1]);
    assert Elapsed(s, now) == 44100;
    assert Offset(s, 5) == 21 && Offset(s, 0xFFFF_FFF5) == 5;
    DueExactly(s, 5, now);
    DueExactly(s, 0xFFFF_FFF5, now);
    hide Elapsed, Offset, Ready;
    ReadyBuffered(s, now);
    assert Ready(s, now) == {5, 0xFFFF_FFF5};
    TwoKeys(5, 0xFFFF_FFF5);
    assert Batch(s, now) == [Handed(1, 5, 44079), Handed(0, 0xFFFF_FFF5, 44095)];
    assert filled.out == [];
  }

  // ---------------------------------------------------------------------------------------------
  // The object
  // ---------------------------------------------------------------------------------------------

  /** The state behind the lock. */
  class PlayoutState {
    var buffer: map<u32, nat>
    var anchor: u32
    var anchorNs: nat
    var rate: u32
    var sampleRate: u32
    var channels: nat
    var stopped: bool
    var formatChanged: bool
    var flushPending: bool

    function Value(): State
      reads this
    {
      State(buffer, anchor, anchorNs, rate, sampleRate, channels, stopped, formatChanged, flushPending)
    }

    constructor (sampleRate: u32)
      ensures Value() == IDLE.(sampleRate := sampleRate)
    {
      buffer, anchor, anchorNs, rate, this.sampleRate, channels := map[], 0, 0, 0, sampleRate, 2;
      stopped, formatChanged, flushPending := false, false, false;
    }

    method Remove(keys: seq<u32>)
      modifies this`buffer
      ensures forall s: set<u32> :: (forall k :: k in s <==> k in keys) ==> buffer == old(buffer) - s
    {
      for i := 0 to |keys|
        invariant buffer == old(buffer) - set k | k in keys[..i]
      {
        assert keys[..i + 1] == keys[..i] + [keys[i]];
        buffer := buffer - {keys[i]};
      }
      assert keys[..|keys|] == keys;
      forall s: set<u32> | forall k :: k in s <==> k in keys
        ensures buffer == old(buffer) - s
      {
        assert s == set k | k in keys;
      }
    }

    /** Playback starts at the anchor; frames before it are dropped. */
    method DropStale(a: u32, now: nat)
      requires rate != 0
      modifies this`buffer, this`anchor, this`anchorNs
      ensures Value() == Apply(old(Value()), SetRate(a, rate), now)
    {
      hide Smallest, Ascending;
      anchor := a;
      if buffer != map[] {
        anchor := Wrapped(Smallest(buffer.Keys) - sampleRate / 10);
      }
      anchorNs := now;
      var stale := Ascending(Stale(Value()));
      Remove(stale);
    }

    /** A command; false ends the command loop. */
    method ApplyCommand(c: Command, now: nat) returns (go: bool)
      modifies this
      ensures Value() == Apply(old(Value()), c, now) && go == !c.Stop?
    {
      hide Smallest, Ascending, InRange, Stale;
      go := true;
      match c
      case SetRate(a, r) =>
        anchor := a;
        rate := r;
        if r != 0 {
          DropStale(a, now);
        }
      case Flush(from, until) =>
        var keys := Ascending(InRange(Value(), from, until));
        Remove(keys);
        flushPending := true;
      case Stop =>
        stopped := true;
        buffer := map[];
        go := false;
    }

    method InsertFrame(ts: u32, frame: nat)
      modifies this`buffer
      ensures buffer == old(buffer)[ts := frame]
    {
      buffer := buffer[ts := frame];
    }

    /** A new stream format, for the delivery thread to notice. */
    method SetFormat(sampleRate: u32, channels: nat)
      modifies this
      ensures Value() == old(Value()).(sampleRate := sampleRate, channels := channels, formatChanged := true)
    {
      this.sampleRate, this.channels, formatChanged := sampleRate, channels, true;
    }

    /** The receiver is gone. */
    method End()
      modifies this
      ensures Value() == old(Value()).(stopped := true, buffer := map[])
    {
      stopped, buffer := true, map[];
    }

    /** A turn of the delivery thread that found something to do: what it takes and whether it flushes the session. */
    method TakeReady(now: nat) returns (batch: seq<(u32, nat)>, flush: bool)
      requires Wakes(Value())
      modifies this`buffer, this`formatChanged, this`flushPending
      ensures Value() == Deliver(old(Value()), now)
      ensures |batch| == |Batch(old(Value()), now)|
      ensures forall i :: 0 <= i < |batch| ==>
                batch[i] == (Batch(old(Value()), now)[i].ts, Batch(old(Value()), now)[i].frame)
      ensures flush == (!stopped && old(flushPending))
    {
      hide Ascending, Ready, Elapsed, Offset;
      if stopped {
        return [], false;
      }
      var s := Value();
      formatChanged := false;
      flush := flushPending;
      flushPending := false;
      var keys := Ascending(Ready(s, now));
      ReadyBuffered(s, now);
      batch := [];
      for i := 0 to |keys|
        invariant |batch| == i && forall j :: 0 <= j < i ==> batch[j] == (Batch(s, now)[j].ts, Batch(s, now)[j].frame)
      {
        assert keys[i] in Ready(s, now);
        batch := batch + [(keys[i], buffer[keys[i]])];
      }
      Remove(keys);
    }
  }

  /** The frames handed out, as the session sees them. */
  function Bare(out: seq<Handed>): (r: seq<(u32, nat)>)
    ensures |r| == |out| && forall i :: 0 <= i < |r| ==> r[i] == (out[i].ts, out[i].frame)
  {
    seq(|out|, i requires 0 <= i < |out| => (out[i].ts, out[i].frame))
  }

  /** One step of whichever thread holds the lock; `frame` numbers the next insertion. */
  method Perform(p: PlayoutState, ghost w: World, frame: nat, step: Step) returns (batch: seq<(u32, nat)>)
    requires |w.fates| == |w.stamps| == frame && p.Value() == w.state
    modifies p
    ensures p.Value() == Take(w, step).state && Bare(Take(w, step).out) == Bare(w.out) + batch
    ensures |Take(w, step).stamps| == if step.Insert? then frame + 1 else frame
  {
    hide Apply, Ascending, Ready, Smallest;
    batch := [];
    match step
    case Insert(ts) => p.InsertFrame(ts, frame);
    case Reformat(sampleRate, channels) => p.SetFormat(sampleRate, channels);
    case Do(command, now) =>
      var _ := p.ApplyCommand(command, now);
    case Turn(now) =>
      if Wakes(p.Value()) {
        var taken, _ := p.TakeReady(now);
        batch := taken;
      }
    case ReceiverEnds => p.End();
  }

  /** The object goes through any run of the machine: the same frames are handed out, in the same order. */
  method PerformAll(sampleRate: u32, steps: seq<Step>) returns (p: PlayoutState, given: seq<(u32, nat)>)
    ensures var w := Run(Begin(IDLE.(sampleRate := sampleRate)), steps);
            p.Value() == w.state && given == Bare(w.out)
  {
    hide Take, Bare;
    p := new PlayoutState(sampleRate);
    ghost var w := Begin(IDLE.(sampleRate := sampleRate));
    var frame := 0;
    given := [];
    for i := 0 to |steps|
      invariant |w.fates| == |w.stamps| == frame && p.Value() == w.state && given == Bare(w.out)
      invariant Run(w, steps[i..]) == Run(Begin(IDLE.(sampleRate := sampleRate)), steps)
    {
      assert steps[i..][0] == steps[i] && steps[i..][1..] == steps[i + 1..];
      var batch := Perform(p, w, frame, steps[i]);
      given := given + batch;
      w := Take(w, steps[i]);
      frame := if steps[i].Insert? then frame + 1 else frame;
    }
  }

  lemma ReadyBuffered(s: State, now: nat)
    ensures forall ts :: ts in Ready(s, now) ==> ts in s.buffer
  {
  }
}
