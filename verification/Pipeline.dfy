/**
 * One connection: what is read goes to the pending request, every complete request is answered in order, and what
 * is left over starts the next one. The handler is any state with a body policy and an answer.
 */
module Pipeline {
  import opened Common
  import opened Http
  import opened Transport

  /** A handler sees a request's head and body; its answer says whether the connection stays open. */
  datatype Handler<!H> = Handler(
    grammar: Text -> Parse,
    policy: (H, Head) -> Verdict,
    answer: (H, Head, Option<seq<byte>>) -> (H, bool))

  function RulesOf<H>(k: Handler<H>, h: H): Rules
  {
    Rules(k.grammar, head => k.policy(h, head))
  }

  /** A request that was dispatched, and the handler state that saw it. */
  datatype Dispatched<H> = Dispatched(h: H, request: Request)

  datatype Conn<H> = Conn(h: H, pending: Request, sent: seq<Dispatched<H>>, open: bool)

  /** Waiting for bytes. */
  predicate Idle<H>(c: Conn<H>)
  {
    c.open ==> Well(c.pending) && !c.pending.complete && c.pending.error == None
  }

  function AddData<H>(k: Handler<H>, c: Conn<H>, data: seq<byte>): Conn<H>
    requires c.open && Idle(c)
  {
    var p := FeedAll(RulesOf(k, c.h), c.pending, data);
    if p.error.Some? then c.(pending := NEW_REQUEST, open := false) else c.(pending := p)
  }

  /** The complete request is answered and replaced by an empty one. */
  function Answer<H>(k: Handler<H>, c: Conn<H>): Conn<H>
  {
    var (h, keep) := k.answer(c.h, c.pending.head, c.pending.body);
    Conn(h, NEW_REQUEST, c.sent + [Dispatched(c.h, c.pending.(buffer := []))], keep)
  }

  /** Answer as long as there is a complete request. */
  function Settle<H>(k: Handler<H>, c: Conn<H>): (r: Conn<H>)
    requires c.open && Well(c.pending) && c.pending.complete
    ensures Idle(r)
    decreases |c.pending.buffer|, 1
  {
    Process(k, Answer(k, c), c.pending.buffer)
  }

  /** Everything a read causes. */
  function Process<H>(k: Handler<H>, c: Conn<H>, data: seq<byte>): (r: Conn<H>)
    requires Idle(c)
    ensures Idle(r)
    decreases |data|, 0
  {
    if !c.open then c else
    var c1 := AddData(k, c, data);
    BytesConserved(RulesOf(k, c.h), c.pending, data);
    if c1.pending.complete then Settle(k, c1) else c1
  }

  lemma ProcessCases<H>(k: Handler<H>, c: Conn<H>, data: seq<byte>)
    requires c.open && Idle(c)
    ensures var p := FeedAll(RulesOf(k, c.h), c.pending, data);
            && (p.error.Some? ==> Process(k, c, data) == c.(pending := NEW_REQUEST, open := false))
            && (p.error == None && !p.complete ==> Process(k, c, data) == c.(pending := p))
            && (p.complete ==>
                  |p.buffer| < |data| && Process(k, c, data) == Process(k, Answer(k, c.(pending := p)), p.buffer))
  {
    hide FeedAll;
    BytesConserved(RulesOf(k, c.h), c.pending, data);
  }

  lemma AnswerIgnoresLeftover<H>(k: Handler<H>, c: Conn<H>, more: seq<byte>)
    ensures Answer(k, c.(pending := c.pending.(buffer := more))) == Answer(k, c)
  {
  }

  /** Two reads do what one read of both does. */
  lemma {:induction false} ProcessSplit<H>(k: Handler<H>, c: Conn<H>, a: seq<byte>, b: seq<byte>)
    requires Idle(c)
    ensures Process(k, c, a + b) == Process(k, Process(k, c, a), b)
    decreases |a|
  {
    hide Process, FeedAll, Well, Answer;
    if !c.open {
      ProcessClosed(k, c, a);
      ProcessClosed(k, c, b);
      ProcessClosed(k, c, a + b);
      return;
    }
    var rules := RulesOf(k, c.h);
    var p := FeedAll(rules, c.pending, a);
    FeedSplit(rules, c.pending, a, b);
    ProcessCases(k, c, a);
    ProcessCases(k, c, a + b);
    if p.error.Some? {
      ErrorLatched(rules, p, b);
      ProcessClosed(k, c.(pending := NEW_REQUEST, open := false), b);
    } else if !p.complete {
      ProcessCases(k, c.(pending := p), b);
    } else {
      CompleteKeeps(rules, p, b);
      var c1 := Answer(k, c.(pending := p));
      AnswerIgnoresLeftover(k, c.(pending := p), p.buffer + b);
      AnswerIdle(k, c.(pending := p));
      ProcessSplit(k, c1, p.buffer, b);
    }
  }

  lemma ProcessClosed<H>(k: Handler<H>, c: Conn<H>, data: seq<byte>)
    requires !c.open
    ensures Process(k, c, data) == c
  {
  }

  lemma AnswerIdle<H>(k: Handler<H>, c: Conn<H>)
    ensures Idle(Answer(k, c))
  {
  }

  function ReadAll<H>(k: Handler<H>, c: Conn<H>, chunks: seq<seq<byte>>): Conn<H>
    requires Idle(c)
    decreases |chunks|
  {
    if chunks == [] then c else ReadAll(k, Process(k, c, chunks[0]), chunks[1..])
  }

  /** Requests, handler states and the pending request depend on the bytes only, not on how they were cut into reads. */
  lemma {:induction false} ReadsConcat<H>(k: Handler<H>, c: Conn<H>, chunks: seq<seq<byte>>)
    requires Idle(c)
    ensures ReadAll(k, c, chunks) == Process(k, c, Concat(chunks))
    decreases |chunks|
  {
    hide Process, Idle;
    if chunks == [] {
      ProcessNothing(k, c);
    } else {
      ReadsConcat(k, Process(k, c, chunks[0]), chunks[1..]);
      ProcessSplit(k, c, chunks[0], Concat(chunks[1..]));
    }
  }

  lemma ProcessNothing<H>(k: Handler<H>, c: Conn<H>)
    requires Idle(c)
    ensures Process(k, c, []) == c
  {
    if c.open {
      ProcessCases(k, c, []);
    }
  }

  // ---------------------------------------------------------------------------------------------
  // Conservation
  // ---------------------------------------------------------------------------------------------

  function Wires<H>(sent: seq<Dispatched<H>>): seq<byte>
  {
    if sent == [] then [] else Wires(sent[..|sent| - 1]) + sent[|sent| - 1].request.wire
  }

  lemma WiresAppend<H>(sent: seq<Dispatched<H>>, d: Dispatched<H>)
    ensures Wires(sent + [d]) == Wires(sent) + d.request.wire
  {
    assert (sent + [d])[..|sent|] == sent;
  }

  /** The bytes a connection has accounted for. */
  function Bytes<H>(c: Conn<H>): seq<byte>
  {
    Wires(c.sent) + c.pending.wire
  }

  /**
   * Every byte belongs to exactly one dispatched request, in order, or to the pending one; a connection that closed
   * has accounted for a prefix.
   */
  lemma {:induction false} Conserved<H>(k: Handler<H>, c: Conn<H>, data: seq<byte>)
    requires Idle(c) && c.open
    ensures var r := Process(k, c, data);
            if r.open then Bytes(r) == Bytes(c) + data else Bytes(r) <= Bytes(c) + data
    decreases |data|
  {
    hide Process, FeedAll, Well, Answer, Wires;
    var rules := RulesOf(k, c.h);
    var p := FeedAll(rules, c.pending, data);
    BytesConserved(rules, c.pending, data);
    ProcessCases(k, c, data);
    if p.error.Some? {
    } else if !p.complete {
      assert Wires(c.sent) + (c.pending.wire + data) == Bytes(c) + data;
    } else {
      AnswerBytes(k, c.(pending := p));
      AnswerIdle(k, c.(pending := p));
      var c1 := Answer(k, c.(pending := p));
      assert Bytes(c1) + p.buffer == Wires(c.sent) + (p.wire + p.buffer) == Bytes(c) + data;
      if c1.open {
        Conserved(k, c1, p.buffer);
      } else {
        ProcessClosed(k, c1, p.buffer);
      }
    }
  }

  lemma AnswerBytes<H>(k: Handler<H>, c: Conn<H>)
    ensures Bytes(Answer(k, c)) == Wires(c.sent) + c.pending.wire
  {
    WiresAppend(c.sent, Dispatched(c.h, c.pending.(buffer := [])));
  }

  // ---------------------------------------------------------------------------------------------
  // What is dispatched
  // ---------------------------------------------------------------------------------------------

  /** A request is what a fresh parser makes of its own bytes under the handler state that saw it. */
  ghost predicate SelfParsed<H>(k: Handler<H>, d: Dispatched<H>)
  {
    d.request.complete && FeedAll(RulesOf(k, d.h), NEW_REQUEST, d.request.wire) == d.request
  }

  function AfterRequest<H>(k: Handler<H>, d: Dispatched<H>): (H, bool)
  {
    k.answer(d.h, d.request.head, d.request.body)
  }

  /** Requests one after the other: each parsed from its own bytes, each seen by the state the one before it left. */
  ghost predicate Serial<H>(k: Handler<H>, h0: H, sent: seq<Dispatched<H>>, h: H, open: bool)
    decreases |sent|
  {
    if sent == [] then h == h0 && open else
    var d := sent[|sent| - 1];
    && Serial(k, h0, sent[..|sent| - 1], d.h, true)
    && SelfParsed(k, d) && AfterRequest(k, d) == (h, open)
  }

  /** The pending request is what a fresh parser makes of its bytes so far. */
  ghost predicate Sound<H>(k: Handler<H>, h0: H, c: Conn<H>)
  {
    && Idle(c)
    && (c.open ==>
          && Serial(k, h0, c.sent, c.h, true)
          && c.pending == FeedAll(RulesOf(k, c.h), NEW_REQUEST, c.pending.wire))
  }

  lemma SelfContainedFresh(rules: Rules, r: Request, seen: seq<byte>, data: seq<byte>)
    requires Well(r) && r.error == None && !r.complete && r == FeedAll(rules, NEW_REQUEST, seen) && r.wire == seen
    ensures var p := FeedAll(rules, r, data);
            && (p.error == None && !p.complete ==> p == FeedAll(rules, NEW_REQUEST, p.wire))
            && (p.complete ==> p.(buffer := []) == FeedAll(rules, NEW_REQUEST, p.wire))
  {
    assert Well(NEW_REQUEST);
    hide Well, FeedAll;
    var p := FeedAll(rules, r, data);
    BytesConserved(rules, r, data);
    FeedSplit(rules, NEW_REQUEST, seen, data);
    if p.complete {
      SelfContained(rules, r, data);
      var own := data[..|data| - |p.buffer|];
      FeedSplit(rules, NEW_REQUEST, seen, own);
      assert p.wire == seen + own by {
        assert p.wire == (p.wire + p.buffer)[..|p.wire|] == (seen + data)[..|p.wire|];
      }
    }
  }

  lemma SerialAppend<H>(k: Handler<H>, h0: H, sent: seq<Dispatched<H>>, d: Dispatched<H>)
    requires Serial(k, h0, sent, d.h, true) && SelfParsed(k, d)
    ensures Serial(k, h0, sent + [d], AfterRequest(k, d).0, AfterRequest(k, d).1)
  {
    assert (sent + [d])[..|sent|] == sent;
  }

  ghost predicate SerialClosed<H>(k: Handler<H>, h0: H, c: Conn<H>)
  {
    exists open :: Serial(k, h0, c.sent, c.h, open)
  }

  lemma AnswerSerial<H>(k: Handler<H>, h0: H, c: Conn<H>)
    requires Serial(k, h0, c.sent, c.h, true) && SelfParsed(k, Dispatched(c.h, c.pending.(buffer := [])))
    ensures Serial(k, h0, Answer(k, c).sent, Answer(k, c).h, Answer(k, c).open)
  {
    hide Serial, SelfParsed;
    SerialAppend(k, h0, c.sent, Dispatched(c.h, c.pending.(buffer := [])));
  }

  /** On every run each dispatched request is what its own bytes say, in order, and so is the pending one. */
  lemma {:induction false} DispatchSound<H>(k: Handler<H>, h0: H, c: Conn<H>, data: seq<byte>)
    requires Sound(k, h0, c) && c.open
    ensures Sound(k, h0, Process(k, c, data)) && SerialClosed(k, h0, Process(k, c, data))
    decreases |data|
  {
    hide Process, FeedAll, Well, Answer, Serial;
    var rules := RulesOf(k, c.h);
    var p := FeedAll(rules, c.pending, data);
    SelfContainedFresh(rules, c.pending, c.pending.wire, data);
    ProcessCases(k, c, data);
    if p.complete {
      var c0 := c.(pending := p);
      var c1 := Answer(k, c0);
      CompleteIsSelfParsed(k, c.h, p);
      AnswerSerial(k, h0, c0);
      AnswerFresh(k, c0);
      if c1.open {
        DispatchSound(k, h0, c1, p.buffer);
      } else {
        ProcessClosed(k, c1, p.buffer);
      }
    }
  }

  lemma CompleteIsSelfParsed<H>(k: Handler<H>, h: H, p: Request)
    requires p.complete && p.(buffer := []) == FeedAll(RulesOf(k, h), NEW_REQUEST, p.wire)
    ensures SelfParsed(k, Dispatched(h, p.(buffer := [])))
  {
  }

  lemma AnswerFresh<H>(k: Handler<H>, c: Conn<H>)
    ensures Idle(Answer(k, c)) && Answer(k, c).pending == NEW_REQUEST
    ensures FeedAll(RulesOf(k, Answer(k, c).h), NEW_REQUEST, NEW_REQUEST.wire) == NEW_REQUEST
  {
  }

  function Start<H>(h: H): Conn<H>
  {
    Conn(h, NEW_REQUEST, [], true)
  }

  lemma SelfParsedIncomplete<H>(k: Handler<H>, d: Dispatched<H>, c: Conn<H>)
    requires SelfParsed(k, d) && c.open && c.h == d.h && c.pending == NEW_REQUEST
    ensures Process(k, c, d.request.wire)
         == Conn(AfterRequest(k, d).0, NEW_REQUEST, c.sent + [d], AfterRequest(k, d).1)
  {
    hide Process, FeedAll;
    ProcessCases(k, c, d.request.wire);
    CompleteLeavesNothing(RulesOf(k, d.h), d.request);
    var c1 := Answer(k, c.(pending := d.request));
    assert d.request.(buffer := []) == d.request;
    ProcessNothing(k, c1);
  }

  lemma CompleteLeavesNothing(rules: Rules, r: Request)
    requires r.complete && FeedAll(rules, NEW_REQUEST, r.wire) == r
    ensures r.buffer == []
  {
    hide FeedAll;
    BytesConserved(rules, NEW_REQUEST, r.wire);
  }

  /** Conversely, any such series of requests, sent back to back, is dispatched one by one and leaves nothing. */
  lemma {:induction false} SeriesIsDispatched<H>(k: Handler<H>, h0: H, sent: seq<Dispatched<H>>, h: H, open: bool)
    requires Serial(k, h0, sent, h, open)
    ensures Process(k, Start(h0), Wires(sent)) == Conn(h, NEW_REQUEST, sent, open)
    decreases |sent|
  {
    hide Process, FeedAll, SelfParsed;
    if sent == [] {
      ProcessNothing(k, Start(h0));
    } else {
      var n := |sent| - 1;
      var d := sent[n];
      SeriesIsDispatched(k, h0, sent[..n], d.h, true);
      ProcessSplit(k, Start(h0), Wires(sent[..n]), d.request.wire);
      SelfParsedIncomplete(k, d, Conn(d.h, NEW_REQUEST, sent[..n], true));
      assert sent[..n] + [d] == sent;
    }
  }

  // ---------------------------------------------------------------------------------------------
  // Encrypted reads
  // ---------------------------------------------------------------------------------------------

  /** An encrypted connection: the receiving half of the transport in front of the connection. */
  datatype Secure<H> = Secure(raw: seq<byte>, counter: nat, conn: Conn<H>)

  function Ingest<H>(k: Handler<H>, a: Aead, key: seq<byte>, s: Secure<H>, data: seq<byte>): (r: Secure<H>)
    requires Idle(s.conn)
    ensures Idle(r.conn)
  {
    if !s.conn.open then s else
    if |data| > MAX_ENCRYPTED_BUFFER_LEN - |s.raw| then s.(conn := Dropped(s.conn)) else
    match Decrypt(a, key, s.counter, s.raw + data)
    case Bad(counter) => Secure(s.raw + data, counter, Dropped(s.conn))
    case Opened(plain, n, counter) => Secure((s.raw + data)[n..], counter, Process(k, s.conn, plain))
  }

  function Dropped<H>(c: Conn<H>): Conn<H>
  {
    c.(pending := NEW_REQUEST, open := false)
  }

  function IngestAll<H>(k: Handler<H>, a: Aead, key: seq<byte>, s: Secure<H>, chunks: seq<seq<byte>>): Secure<H>
    requires Idle(s.conn)
    decreases |chunks|
  {
    if chunks == [] then s else IngestAll(k, a, key, Ingest(k, a, key, s, chunks[0]), chunks[1..])
  }

  /** While frames open, the connection is what the plaintext of everything received makes of it. */
  ghost predicate Mirrors<H>(k: Handler<H>, a: Aead, key: seq<byte>, c0: Conn<H>, counter: nat, s: Secure<H>,
                             seen: seq<byte>)
    requires Idle(c0)
  {
    var d := Decrypt(a, key, counter, seen);
    d.Opened? ==>
      && s.conn == Process(k, c0, d.plain)
      && (s.conn.open ==> s.raw == seen[d.consumed..] && s.counter == d.counter)
  }

  lemma IngestMirrors<H>(k: Handler<H>, a: Aead, key: seq<byte>, c0: Conn<H>, counter: nat, s: Secure<H>,
                         seen: seq<byte>, data: seq<byte>)
    requires Idle(c0) && Idle(s.conn) && Mirrors(k, a, key, c0, counter, s, seen) && |data| <= READ_LEN
    ensures Mirrors(k, a, key, c0, counter, Ingest(k, a, key, s, data), seen + data)
  {
    hide Process, Decrypt, Idle;
    DecryptSplit(a, key, counter, seen, data);
    ResidueBound(a, key, counter, seen);
    var d := Decrypt(a, key, counter, seen);
    if d.Opened? {
      var e := Decrypt(a, key, d.counter, seen[d.consumed..] + data);
      if e.Opened? {
        ProcessSplit(k, c0, d.plain, e.plain);
        if s.conn.open {
          assert (s.raw + data)[e.consumed..] == (seen + data)[d.consumed + e.consumed..];
        } else {
          ProcessClosed(k, s.conn, e.plain);
        }
      }
    }
  }

  lemma {:induction false} IngestAllMirrors<H>(k: Handler<H>, a: Aead, key: seq<byte>, c0: Conn<H>, counter: nat,
                                               s: Secure<H>, seen: seq<byte>, chunks: seq<seq<byte>>)
    requires Idle(c0) && Idle(s.conn) && Mirrors(k, a, key, c0, counter, s, seen) && SizedReads(chunks)
    ensures Mirrors(k, a, key, c0, counter, IngestAll(k, a, key, s, chunks), seen + Concat(chunks))
    decreases |chunks|
  {
    hide Mirrors, Ingest, Idle;
    if chunks == [] {
      assert seen + [] == seen;
    } else {
      IngestMirrors(k, a, key, c0, counter, s, seen, chunks[0]);
      IngestAllMirrors(k, a, key, c0, counter, Ingest(k, a, key, s, chunks[0]), seen + chunks[0], chunks[1..]);
      assert seen + chunks[0] + Concat(chunks[1..]) == seen + Concat(chunks);
    }
  }

  /** With every complete frame of the stream opening, what is dispatched depends on the stream only. */
  lemma EncryptedReadsConcat<H>(k: Handler<H>, a: Aead, key: seq<byte>, c: Conn<H>, counter: nat,
                                chunks: seq<seq<byte>>)
    requires Idle(c) && SizedReads(chunks) && Decrypt(a, key, counter, Concat(chunks)).Opened?
    ensures IngestAll(k, a, key, Secure([], counter, c), chunks).conn
         == Process(k, c, Decrypt(a, key, counter, Concat(chunks)).plain)
  {
    hide Process, Decrypt, IngestAll, Concat;
    DecryptCases(a, key, counter, []);
    ProcessNothing(k, c);
    IngestAllMirrors(k, a, key, c, counter, Secure([], counter, c), [], chunks);
    assert [] + Concat(chunks) == Concat(chunks);
  }

  /** End to end: a series of requests, encrypted in any calls and cut into any chunks, is dispatched one by one. */
  lemma EncryptedSeriesIsDispatched<H>(k: Handler<H>, a: Aead, key: seq<byte>, h0: H, sent: seq<Dispatched<H>>, h: H,
                                       open: bool, plains: seq<seq<byte>>, chunks: seq<seq<byte>>)
    requires a.Lawful() && EncryptAll(a, key, 0, plains).ok && Serial(k, h0, sent, h, open)
    requires Concat(plains) == Wires(sent) && Concat(chunks) == EncryptAll(a, key, 0, plains).wire && SizedReads(chunks)
    ensures IngestAll(k, a, key, Secure([], 0, Start(h0)), chunks).conn == Conn(h, NEW_REQUEST, sent, open)
  {
    hide Process, Decrypt, IngestAll, EncryptAll, Concat, Serial, Wires;
    var e := EncryptAll(a, key, 0, plains);
    RunThenDecrypt(a, key, 0, plains, []);
    DecryptCases(a, key, e.counter, []);
    assert e.wire + [] == e.wire && Concat(plains) + [] == Concat(plains);
    EncryptedReadsConcat(k, a, key, Start(h0), 0, chunks);
    SeriesIsDispatched(k, h0, sent, h, open);
  }

  // ---------------------------------------------------------------------------------------------
  // Frames that do not open
  // ---------------------------------------------------------------------------------------------

  /** How many leading reads of a stream complete only frames that open. */
  function OpeningReads(a: Aead, key: seq<byte>, counter: nat, chunks: seq<seq<byte>>): (g: nat)
    ensures g <= |chunks|
    ensures Decrypt(a, key, counter, Concat(chunks[..g])).Opened?
    ensures g < |chunks| ==> Decrypt(a, key, counter, Concat(chunks[..g + 1])).Bad?
    decreases |chunks|
  {
    hide Decrypt, Concat;
    if Decrypt(a, key, counter, Concat(chunks)).Opened? then
      assert chunks[..|chunks|] == chunks;
      |chunks|
    else
      OpensNothing(a, key, counter);
      var init := chunks[..|chunks| - 1];
      var g := OpeningReads(a, key, counter, init);
      assert chunks[..g] == init[..g] && (g < |init| ==> chunks[..g + 1] == init[..g + 1]);
      assert g == |init| ==> chunks[..g + 1] == chunks;
      g
  }

  lemma OpensNothing(a: Aead, key: seq<byte>, counter: nat)
    ensures Decrypt(a, key, counter, Concat<byte>([])).Opened?
  {
  }

  /** The plaintext those reads bring. */
  function OpeningPlain(a: Aead, key: seq<byte>, counter: nat, chunks: seq<seq<byte>>): seq<byte>
  {
    Decrypt(a, key, counter, Concat(chunks[..OpeningReads(a, key, counter, chunks)])).plain
  }

  lemma {:induction false} IngestSplit<H>(k: Handler<H>, a: Aead, key: seq<byte>, s: Secure<H>, x: seq<seq<byte>>,
                                          y: seq<seq<byte>>)
    requires Idle(s.conn)
    ensures Idle(IngestAll(k, a, key, s, x).conn)
    ensures IngestAll(k, a, key, s, x + y) == IngestAll(k, a, key, IngestAll(k, a, key, s, x), y)
    decreases |x|
  {
    hide Ingest, Idle;
    if x == [] {
      assert x + y == y;
    } else {
      assert (x + y)[1..] == x[1..] + y;
      IngestSplit(k, a, key, Ingest(k, a, key, s, x[0]), x[1..], y);
    }
  }

  lemma {:induction false} IngestClosed<H>(k: Handler<H>, a: Aead, key: seq<byte>, s: Secure<H>, chunks: seq<seq<byte>>)
    requires !s.conn.open
    ensures IngestAll(k, a, key, s, chunks) == s
    decreases |chunks|
  {
    if chunks == [] {
    } else {
      IngestClosed(k, a, key, s, chunks[1..]);
    }
  }

  /** A connection that closed keeps no pending request. */
  lemma {:induction false} ClosedClean<H>(k: Handler<H>, c: Conn<H>, data: seq<byte>)
    requires Idle(c) && c.open && !Process(k, c, data).open
    ensures Process(k, c, data).pending == NEW_REQUEST
    decreases |data|
  {
    hide Process, FeedAll, Well, Answer;
    ProcessCases(k, c, data);
    var p := FeedAll(RulesOf(k, c.h), c.pending, data);
    if p.complete {
      var c1 := Answer(k, c.(pending := p));
      AnswerFresh(k, c.(pending := p));
      if c1.open {
        ClosedClean(k, c1, p.buffer);
      } else {
        ProcessClosed(k, c1, p.buffer);
      }
    }
  }

  /** The read that completes a frame that does not open drops the connection and all it brought. */
  lemma FailingRead<H>(k: Handler<H>, a: Aead, key: seq<byte>, c: Conn<H>, counter: nat, s: Secure<H>, seen: seq<byte>,
                       data: seq<byte>)
    requires Idle(c) && c.open && Idle(s.conn) && Mirrors(k, a, key, c, counter, s, seen) && |data| <= READ_LEN
    requires Decrypt(a, key, counter, seen).Opened? && Decrypt(a, key, counter, seen + data).Bad?
    ensures Ingest(k, a, key, s, data).conn == Dropped(Process(k, c, Decrypt(a, key, counter, seen).plain))
  {
    hide Process, Decrypt;
    var d := Decrypt(a, key, counter, seen);
    DecryptSplit(a, key, counter, seen, data);
    ResidueBound(a, key, counter, seen);
    if !s.conn.open {
      ClosedClean(k, c, d.plain);
    }
  }

  /**
   * What a stream does to a connection, however it is cut and whether or not its frames open: everything in the reads
   * before the first failing one is processed, and nothing of that read or after it.
   */
  lemma EncryptedRun<H>(k: Handler<H>, a: Aead, key: seq<byte>, c: Conn<H>, counter: nat, chunks: seq<seq<byte>>)
    requires Idle(c) && c.open && SizedReads(chunks)
    ensures var done := Process(k, c, OpeningPlain(a, key, counter, chunks));
            IngestAll(k, a, key, Secure([], counter, c), chunks).conn
            == if OpeningReads(a, key, counter, chunks) == |chunks| then done else Dropped(done)
  {
    hide Process, Decrypt, IngestAll, Ingest, Concat, Mirrors, Idle;
    var g := OpeningReads(a, key, counter, chunks);
    var start, good := Secure([], counter, c), chunks[..g];
    MirrorsStart(k, a, key, c, counter);
    IngestAllMirrors(k, a, key, c, counter, start, [], good);
    assert [] + Concat(good) == Concat(good);
    var s := IngestAll(k, a, key, start, good);
    MirrorsOpened(k, a, key, c, counter, s, Concat(good));
    if g == |chunks| {
      assert good == chunks;
    } else {
      var bad, rest := chunks[g], chunks[g + 1..];
      assert chunks == good + ([bad] + rest) && chunks[..g + 1] == good + [bad];
      IngestSplit(k, a, key, start, good, [bad] + rest);
      ConcatAppend(good, [bad]);
      ConcatOne(bad);
      FailingRead(k, a, key, c, counter, s, Concat(good), bad);
      IngestFirst(k, a, key, s, bad, rest);
      IngestClosed(k, a, key, Ingest(k, a, key, s, bad), rest);
    }
  }

  lemma MirrorsStart<H>(k: Handler<H>, a: Aead, key: seq<byte>, c: Conn<H>, counter: nat)
    requires Idle(c)
    ensures Mirrors(k, a, key, c, counter, Secure([], counter, c), [])
  {
    hide Process;
    ProcessNothing(k, c);
  }

  lemma MirrorsOpened<H>(k: Handler<H>, a: Aead, key: seq<byte>, c: Conn<H>, counter: nat, s: Secure<H>,
                         seen: seq<byte>)
    requires Idle(c) && Mirrors(k, a, key, c, counter, s, seen) && Decrypt(a, key, counter, seen).Opened?
    ensures Idle(s.conn) && s.conn == Process(k, c, Decrypt(a, key, counter, seen).plain)
  {
    hide Process, Decrypt, Idle;
  }

  lemma ConcatOne<T>(x: seq<T>)
    ensures Concat([x]) == x
  {
    assert [x][1..] == [];
    assert x + [] == x;
  }

  lemma IngestFirst<H>(k: Handler<H>, a: Aead, key: seq<byte>, s: Secure<H>, x: seq<byte>, rest: seq<seq<byte>>)
    requires Idle(s.conn)
    ensures IngestAll(k, a, key, s, [x] + rest) == IngestAll(k, a, key, Ingest(k, a, key, s, x), rest)
  {
    hide Ingest, Idle;
    assert ([x] + rest)[1..] == rest;
  }

  /** Whether more plaintext would complete a request. */
  predicate CompletesRequest<H>(k: Handler<H>, c: Conn<H>, data: seq<byte>)
    requires Idle(c)
  {
    c.open && FeedAll(RulesOf(k, c.h), c.pending, data).complete
  }

  lemma {:induction false} SentGrows<H>(k: Handler<H>, c: Conn<H>, data: seq<byte>)
    requires Idle(c)
    ensures c.sent <= Process(k, c, data).sent
    decreases |data|
  {
    hide Process, FeedAll, Well;
    if !c.open {
      ProcessClosed(k, c, data);
    } else {
      ProcessCases(k, c, data);
      var p := FeedAll(RulesOf(k, c.h), c.pending, data);
      if p.complete {
        AnswerIdle(k, c.(pending := p));
        SentGrows(k, Answer(k, c.(pending := p)), p.buffer);
      }
    }
  }

  /** More plaintext changes what was dispatched exactly when it completes a request. */
  lemma SentChanges<H>(k: Handler<H>, c: Conn<H>, data: seq<byte>)
    requires Idle(c)
    ensures Process(k, c, data).sent == c.sent <==> !CompletesRequest(k, c, data)
    ensures !CompletesRequest(k, c, data) ==> Process(k, c, data).h == c.h
  {
    hide Process, FeedAll, Well;
    if !c.open {
      ProcessClosed(k, c, data);
    } else {
      ProcessCases(k, c, data);
      var p := FeedAll(RulesOf(k, c.h), c.pending, data);
      CompleteHasNoError(p);
      if p.complete {
        AnswerIdle(k, c.(pending := p));
        SentGrows(k, Answer(k, c.(pending := p)), p.buffer);
      }
    }
  }

  lemma CompleteHasNoError(p: Request)
    requires Well(p)
    ensures p.complete ==> p.error == None
  {
  }

  /** Of two cuts of one stream, the one that opens less opens a prefix of what the other opens. */
  lemma OpeningPrefix(a: Aead, key: seq<byte>, counter: nat, x: seq<seq<byte>>, y: seq<seq<byte>>)
    requires Concat(x) == Concat(y)
    requires |Concat(x[..OpeningReads(a, key, counter, x)])| <= |Concat(y[..OpeningReads(a, key, counter, y)])|
    ensures OpeningPlain(a, key, counter, x) <= OpeningPlain(a, key, counter, y)
  {
    hide Decrypt, Concat, OpeningReads;
    var gx, gy := OpeningReads(a, key, counter, x), OpeningReads(a, key, counter, y);
    var sx, sy := Concat(x[..gx]), Concat(y[..gy]);
    ConcatPrefix(x, gx);
    ConcatPrefix(y, gy);
    assert sx == Concat(x)[..|sx|] && sy == Concat(y)[..|sy|];
    assert sy == sx + sy[|sx|..];
    DecryptSplit(a, key, counter, sx, sy[|sx|..]);
  }

  lemma ConcatPrefix<T>(x: seq<seq<T>>, g: nat)
    requires g <= |x|
    ensures Concat(x[..g]) <= Concat(x)
  {
    hide Concat;
    assert x == x[..g] + x[g..];
    ConcatAppend(x[..g], x[g..]);
  }

  /**
   * Two cuts of one encrypted stream, exactly: the connection ends the same, with the same requests dispatched, if and
   * only if no request completes in the plaintext that one cut opens beyond the other. When all frames of the stream
   * open there is no such plaintext.
   */
  lemma CutsAgreeExactly<H>(k: Handler<H>, a: Aead, key: seq<byte>, c: Conn<H>, counter: nat, x: seq<seq<byte>>,
                            y: seq<seq<byte>>)
    requires Idle(c) && c.open && SizedReads(x) && SizedReads(y) && Concat(x) == Concat(y)
    requires |Concat(x[..OpeningReads(a, key, counter, x)])| <= |Concat(y[..OpeningReads(a, key, counter, y)])|
    ensures OpeningPlain(a, key, counter, x) <= OpeningPlain(a, key, counter, y)
    ensures var px, py := OpeningPlain(a, key, counter, x), OpeningPlain(a, key, counter, y);
            var cx := IngestAll(k, a, key, Secure([], counter, c), x).conn;
            var cy := IngestAll(k, a, key, Secure([], counter, c), y).conn;
            && (cx.sent == cy.sent <==> !CompletesRequest(k, Process(k, c, px), py[|px|..]))
            && (cx == cy <==> cx.sent == cy.sent)
            && (Decrypt(a, key, counter, Concat(x)).Opened? ==> px == py)
  {
    hide Process, Decrypt, IngestAll, Concat, OpeningReads, OpeningPlain, Idle, CompletesRequest;
    OpeningPrefix(a, key, counter, x, y);
    EncryptedRun(k, a, key, c, counter, x);
    EncryptedRun(k, a, key, c, counter, y);
    var px, py := OpeningPlain(a, key, counter, x), OpeningPlain(a, key, counter, y);
    var cx := Process(k, c, px);
    assert py == px + py[|px|..];
    ProcessSplit(k, c, px, py[|px|..]);
    SentChanges(k, cx, py[|px|..]);
    OpensAll(a, key, counter, x);
    OpensAll(a, key, counter, y);
    if Decrypt(a, key, counter, Concat(x)).Opened? {
      assert py[|px|..] == [];
      ProcessNothing(k, cx);
    }
  }

  /** All reads open exactly when the stream does. */
  lemma OpensAll(a: Aead, key: seq<byte>, counter: nat, chunks: seq<seq<byte>>)
    ensures OpeningReads(a, key, counter, chunks) == |chunks| <==> Decrypt(a, key, counter, Concat(chunks)).Opened?
    ensures Decrypt(a, key, counter, Concat(chunks)).Opened? ==>
              OpeningPlain(a, key, counter, chunks) == Decrypt(a, key, counter, Concat(chunks)).plain
  {
    hide Decrypt, Concat;
    assert chunks[..|chunks|] == chunks;
  }

  // A frame that announces no content, which no cipher opens.
  const EMPTY_FRAME: seq<byte> := [0, 0] + seq(TAG_LEN, _ => 0)

  lemma EmptyFrameFails(a: Aead, key: seq<byte>, counter: nat)
    ensures Decrypt(a, key, counter, EMPTY_FRAME).Bad?
  {
    assert HasFrame(EMPTY_FRAME) && OpenFirst(a, key, counter, EMPTY_FRAME) == None;
    hide Decrypt, OpenFirst, HasFrame;
    DecryptCases(a, key, counter, EMPTY_FRAME);
  }

  lemma GoodThenEmpty(a: Aead, key: seq<byte>, block: seq<byte>, good: seq<byte>)
    requires a.Lawful() && 0 < |block| <= MAX_BLOCK_LEN && good == Frame(a, key, 0, block)
    ensures |good| == 2 + |block| + TAG_LEN && Decrypt(a, key, 0, good + EMPTY_FRAME).Bad?
    ensures Decrypt(a, key, 0, good).Opened? && Decrypt(a, key, 0, good).plain == block
  {
    hide Decrypt;
    DecryptFrame(a, key, 0, block, EMPTY_FRAME);
    EmptyFrameFails(a, key, 1);
    DecryptFrame(a, key, 0, block, []);
    DecryptCases(a, key, 1, []);
    assert good + [] == good && block + [] == block;
  }

  lemma RequestHasBytes<H>(k: Handler<H>, d: Dispatched<H>)
    requires SelfParsed(k, d)
    ensures d.request.wire != []
  {
    if d.request.wire == [] {
      FeedNothing(RulesOf(k, d.h), NEW_REQUEST);
      assert false;
    }
  }

  /**
   * Whatever the handler, the grammar and the cipher: take any request the parser completes, sealed in one frame, and a
   * frame that fails after it. In two reads the request is dispatched, in one it is not.
   */
  lemma CutsDiffer<H>(k: Handler<H>, a: Aead, key: seq<byte>, d: Dispatched<H>)
    requires a.Lawful() && SelfParsed(k, d) && |d.request.wire| <= MAX_BLOCK_LEN
    ensures var good, start := Frame(a, key, 0, d.request.wire), Secure([], 0, Start(d.h));
            && IngestAll(k, a, key, start, [good, EMPTY_FRAME]).conn.sent == [d]
            && IngestAll(k, a, key, start, [good + EMPTY_FRAME]).conn.sent == []
  {
    hide Decrypt, Frame, Process, IngestAll, OpeningReads, Aead.Lawful, SelfParsed;
    var good := Frame(a, key, 0, d.request.wire);
    RequestHasBytes(k, d);
    GoodThenEmpty(a, key, d.request.wire, good);
    var apart, joined := [good, EMPTY_FRAME], [good + EMPTY_FRAME];
    assert apart[..0] == [] && apart[..1] == [good] && apart[..2] == apart;
    assert joined[..0] == [] && joined[..1] == joined && apart == [good] + [EMPTY_FRAME];
    ConcatOne(good);
    ConcatOne(EMPTY_FRAME);
    ConcatOne(good + EMPTY_FRAME);
    ConcatAppend([good], [EMPTY_FRAME]);
    EncryptedRun(k, a, key, Start(d.h), 0, apart);
    EncryptedRun(k, a, key, Start(d.h), 0, joined);
    DecryptCases(a, key, 0, []);
    ProcessNothing(k, Start(d.h));
    SelfParsedIncomplete(k, d, Start(d.h));
    assert [] + [d] == [d];
  }

  // ---------------------------------------------------------------------------------------------
  // The object
  // ---------------------------------------------------------------------------------------------

  class Connection<!H> {
    const k: Handler<H>
    const cipher: CipherContext
    var h: H
    var pending: HttpRequest
    var raw: seq<byte>
    var open: bool
    ghost var sent: seq<Dispatched<H>>

    ghost function Value(): Conn<H>
      reads this, pending
    {
      Conn(h, pending.Value(), sent, open)
    }

    constructor (k: Handler<H>, h: H, cipher: CipherContext)
      ensures fresh(pending) && Value() == Start(h) && raw == [] && this.k == k && this.cipher == cipher
    {
      this.k, this.h, this.cipher := k, h, cipher;
      pending := new HttpRequest();
      raw, open, sent := [], true, [];
    }

    /** Bytes for the pending request; a parse error closes the connection. */
    method AddRequestData(data: seq<byte>)
      requires open && Idle(Value())
      modifies this`pending, this`open, pending
      ensures pending == old(pending) || fresh(pending)
      ensures Value() == AddData(k, old(Value()), data)
    {
      hide FeedAll, Well;
      var ok := pending.AddData(RulesOf(k, h), data);
      if !ok {
        pending := new HttpRequest();
        open := false;
      }
    }

    /** The complete request is answered; what it left over starts the next. */
    method AnswerOne() returns (leftover: seq<byte>)
      requires pending.complete
      modifies this`h, this`pending, this`open, this`sent, pending
      ensures fresh(pending)
      ensures Value() == Answer(k, old(Value())) && leftover == old(pending.buffer)
    {
      var head := Head(pending.verb, pending.target, pending.headers, pending.contentLength);
      var (h', keep) := k.answer(h, head, pending.body);
      sent := sent + [Dispatched(h, pending.Value().(buffer := []))];
      h := h';
      leftover := pending.TakeLeftover();
      pending := new HttpRequest();
      open := keep;
    }

    /** Every complete request is answered, in order. */
    method SendCompletedResponses()
      requires open && pending.complete && Well(pending.Value())
      modifies this`h, this`pending, this`open, this`sent, pending
      ensures pending == old(pending) || fresh(pending)
      ensures Value() == Settle(k, old(Value()))
    {
      hide Process, Answer, Well, AddData;
      ghost var goal := Settle(k, Value());
      while open && pending.complete
        invariant pending == old(pending) || fresh(pending)
        invariant open && pending.complete ==> Well(pending.Value()) && Settle(k, Value()) == goal
        invariant !(open && pending.complete) ==> Value() == goal
        decreases open && pending.complete, if pending.complete then |pending.buffer| else 0
      {
        ghost var c := Value();
        AnswerIdle(k, c);
        var leftover := AnswerOne();
        if open {
          ProcessIsAdd(k, Value(), leftover);
          AddRequestData(leftover);
        } else {
          ProcessClosed(k, Value(), leftover);
        }
      }
    }

    /** One read in the clear. */
    method ReadPlain(data: seq<byte>)
      requires open && Idle(Value())
      modifies this`h, this`pending, this`open, this`sent, pending
      ensures pending == old(pending) || fresh(pending)
      ensures Value() == Process(k, old(Value()), data)
    {
      hide Process, AddData, Well, Settle;
      ProcessIsAdd(k, Value(), data);
      AddRequestData(data);
      if open && pending.complete {
        SendCompletedResponses();
      }
    }

    /** One encrypted read. */
    method ReadEncrypted(data: seq<byte>)
      requires open && Idle(Value())
      modifies this, pending, cipher`counter
      ensures pending == old(pending) || fresh(pending)
      ensures Secure(raw, cipher.counter, Value())
           == Ingest(k, cipher.a, cipher.key, old(Secure(raw, cipher.counter, Value())), data)
    {
      hide Process, Decrypt, Idle;
      if |data| > MAX_ENCRYPTED_BUFFER_LEN - |raw| {
        pending := new HttpRequest();
        open := false;
        return;
      }
      raw := raw + data;
      var r := cipher.DecryptBytes(raw);
      if r == None {
        pending := new HttpRequest();
        open := false;
        return;
      }
      raw := raw[r.value.1..];
      if r.value.0 == [] {
        ProcessNothing(k, Value());
      } else {
        ReadPlain(r.value.0);
      }
    }
  }

  lemma ProcessIsAdd<H>(k: Handler<H>, c: Conn<H>, data: seq<byte>)
    requires c.open && Idle(c)
    ensures var c1 := AddData(k, c, data);
            && (c1.open && c1.pending.complete ==>
                  Well(c1.pending) && |c1.pending.buffer| < |data| && Process(k, c, data) == Settle(k, c1))
            && (!(c1.open && c1.pending.complete) ==> Process(k, c, data) == c1)
  {
    hide FeedAll;
    BytesConserved(RulesOf(k, c.h), c.pending, data);
  }
}
