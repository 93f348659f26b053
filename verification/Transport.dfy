/**
 * The encrypted RTSP transport: blocks of at most 1024 bytes, each framed by its length and sealed under a counter.
 * The cipher is any pair of functions; that opening undoes sealing is a hypothesis where it is needed.
 */
module Transport {
  import opened Common
  import opened Endian

  const MAX_BLOCK_LEN: nat := 0x400
  const TAG_LEN: nat := 16
  const COUNTER_LIMIT: nat := 0xFFFF_FFFF_FFFF_FFFF
  const MAX_ENCRYPTED_BUFFER_LEN: nat := 1024 * 1024
  const READ_LEN: nat := 4096

  /** Authenticated encryption: key, nonce, associated data, message. */
  datatype Aead = Aead(
    seal: (seq<byte>, seq<byte>, seq<byte>, seq<byte>) -> seq<byte>,
    open: (seq<byte>, seq<byte>, seq<byte>, seq<byte>) -> Option<seq<byte>>)
  {
    /** Sealing adds a tag, and opening undoes it. */
    ghost predicate Lawful()
    {
      forall key, nonce, aad, msg {:trigger seal(key, nonce, aad, msg)} ::
        && |seal(key, nonce, aad, msg)| == |msg| + TAG_LEN
        && open(key, nonce, aad, seal(key, nonce, aad, msg)) == Some(msg)
    }
  }

  // A cipher that seals with sixteen zero bytes: the law can be kept.
  const PLAIN_TAG: Aead :=
    Aead((key, nonce, aad, msg) => msg + seq(TAG_LEN, _ => 0),
         (key, nonce, aad, sealed) =>
           if |sealed| >= TAG_LEN && sealed[|sealed| - TAG_LEN..] == seq(TAG_LEN, _ => 0)
           then Some(sealed[..|sealed| - TAG_LEN]) else None)

  lemma PlainTagLawful()
    ensures PLAIN_TAG.Lawful()
  {
    forall key: seq<byte>, nonce: seq<byte>, aad: seq<byte>, msg: seq<byte>
      ensures PLAIN_TAG.open(key, nonce, aad, PLAIN_TAG.seal(key, nonce, aad, msg)) == Some(msg)
    {
      var sealed := PLAIN_TAG.seal(key, nonce, aad, msg);
      assert sealed[..|msg|] == msg && sealed[|msg|..] == seq(TAG_LEN, _ => 0);
    }
  }

  /** Four zero bytes and the counter. */
  function Nonce(counter: nat): (r: seq<byte>)
    ensures |r| == 12
  {
    [0, 0, 0, 0] + LittleEndian(counter, 8)
  }

  lemma CounterFits(counter: nat)
    requires counter <= COUNTER_LIMIT
    ensures counter < Power256(8)
  {
    assert Power256(4) == 0x1_0000_0000;
    assert Power256(8) == 256 * Power256(7) == 0x1_0000 * Power256(6) == 0x100_0000 * Power256(5);
  }

  lemma NonceInjective(a: nat, b: nat)
    requires a <= COUNTER_LIMIT && b <= COUNTER_LIMIT && Nonce(a) == Nonce(b)
    ensures a == b
  {
    hide LittleEndian, Power256;
    CounterFits(a);
    CounterFits(b);
    assert Nonce(a)[4..] == LittleEndian(a, 8) && Nonce(b)[4..] == LittleEndian(b, 8);
    LittleEndianRoundTrip(a, 8);
    LittleEndianRoundTrip(b, 8);
  }

  // ---------------------------------------------------------------------------------------------
  // Sending
  // ---------------------------------------------------------------------------------------------

  function LengthBytes(n: nat): seq<byte>
  {
    LittleEndian(n, 2)
  }

  function Frame(a: Aead, key: seq<byte>, counter: nat, block: seq<byte>): seq<byte>
  {
    LengthBytes(|block|) + a.seal(key, Nonce(counter), LengthBytes(|block|), block)
  }

  /** The outcome of one call: the wire bytes unless the counter ran out, the counter left, the nonces used. */
  datatype Sealed = Sealed(ok: bool, wire: seq<byte>, counter: nat, nonces: seq<seq<byte>>)

  function FirstBlock(plain: seq<byte>): seq<byte>
  {
    if |plain| <= MAX_BLOCK_LEN then plain else plain[..MAX_BLOCK_LEN]
  }

  function Encrypt(a: Aead, key: seq<byte>, counter: nat, plain: seq<byte>): Sealed
    decreases |plain|
  {
    if plain == [] then Sealed(true, [], counter, [])
    else if counter == COUNTER_LIMIT then Sealed(false, [], counter, [])
    else
      var block := FirstBlock(plain);
      var rest := Encrypt(a, key, counter + 1, plain[|block|..]);
      Sealed(rest.ok, if rest.ok then Frame(a, key, counter, block) + rest.wire else [], rest.counter,
             [Nonce(counter)] + rest.nonces)
  }

  function BlocksOf(n: nat): nat
  {
    (n + MAX_BLOCK_LEN - 1) / MAX_BLOCK_LEN
  }

  /** A call fails exactly when there are not enough counters left for its blocks, and then it has used them all. */
  lemma {:induction false} ExhaustedExactly(a: Aead, key: seq<byte>, counter: nat, plain: seq<byte>)
    requires counter <= COUNTER_LIMIT
    ensures var r := Encrypt(a, key, counter, plain);
            && (r.ok <==> counter + BlocksOf(|plain|) <= COUNTER_LIMIT)
            && r.counter == if r.ok then counter + BlocksOf(|plain|) else COUNTER_LIMIT
    decreases |plain|
  {
    hide Frame, Nonce;
    if plain == [] || counter == COUNTER_LIMIT {
    } else {
      ExhaustedExactly(a, key, counter + 1, plain[|FirstBlock(plain)|..]);
    }
  }

  /** Call after call on one context, whether they succeed or not. */
  function EncryptAll(a: Aead, key: seq<byte>, counter: nat, plains: seq<seq<byte>>): Sealed
    decreases |plains|
  {
    if plains == [] then Sealed(true, [], counter, []) else
    var first := Encrypt(a, key, counter, plains[0]);
    var rest := EncryptAll(a, key, first.counter, plains[1..]);
    Sealed(first.ok && rest.ok, first.wire + rest.wire, rest.counter, first.nonces + rest.nonces)
  }

  /** The nonces of a run are those of consecutive counters. */
  ghost predicate Consecutive(nonces: seq<seq<byte>>, from: nat, to: nat)
  {
    && from <= to && |nonces| == to - from
    && forall i :: 0 <= i < |nonces| ==> nonces[i] == Nonce(from + i)
  }

  lemma ConsecutiveJoin(a: seq<seq<byte>>, b: seq<seq<byte>>, from: nat, mid: nat, to: nat)
    requires Consecutive(a, from, mid) && Consecutive(b, mid, to)
    ensures Consecutive(a + b, from, to)
  {
    hide Nonce;
  }

  lemma {:induction false} EncryptNonces(a: Aead, key: seq<byte>, counter: nat, plain: seq<byte>)
    requires counter <= COUNTER_LIMIT
    ensures var r := Encrypt(a, key, counter, plain);
            r.counter <= COUNTER_LIMIT && Consecutive(r.nonces, counter, r.counter)
    decreases |plain|
  {
    hide Nonce, Frame;
    if plain == [] || counter == COUNTER_LIMIT {
    } else {
      var block := FirstBlock(plain);
      EncryptNonces(a, key, counter + 1, plain[|block|..]);
      var rest := Encrypt(a, key, counter + 1, plain[|block|..]);
      ConsecutiveJoin([Nonce(counter)], rest.nonces, counter, counter + 1, rest.counter);
    }
  }

  lemma {:induction false} RunNonces(a: Aead, key: seq<byte>, counter: nat, plains: seq<seq<byte>>)
    requires counter <= COUNTER_LIMIT
    ensures var r := EncryptAll(a, key, counter, plains);
            r.counter <= COUNTER_LIMIT && Consecutive(r.nonces, counter, r.counter)
    decreases |plains|
  {
    hide Encrypt, Consecutive;
    if plains == [] {
      NoneConsecutive(counter);
    } else {
      EncryptNonces(a, key, counter, plains[0]);
      var first := Encrypt(a, key, counter, plains[0]);
      RunNonces(a, key, first.counter, plains[1..]);
      var rest := EncryptAll(a, key, first.counter, plains[1..]);
      ConsecutiveJoin(first.nonces, rest.nonces, counter, first.counter, rest.counter);
    }
  }

  lemma NoneConsecutive(counter: nat)
    ensures Consecutive([], counter, counter)
  {
  }

  /** No nonce is used twice in a run, also when the counter runs out in the middle of it. */
  lemma NoncesUnique(a: Aead, key: seq<byte>, plains: seq<seq<byte>>, i: nat, j: nat)
    requires i < j < |EncryptAll(a, key, 0, plains).nonces|
    ensures EncryptAll(a, key, 0, plains).nonces[i] != EncryptAll(a, key, 0, plains).nonces[j]
  {
    hide EncryptAll;
    RunNonces(a, key, 0, plains);
    var r := EncryptAll(a, key, 0, plains);
    if r.nonces[i] == r.nonces[j] {
      NonceInjective(0 + i, 0 + j);
    }
  }

  // ---------------------------------------------------------------------------------------------
  // Receiving
  // ---------------------------------------------------------------------------------------------

  /** The outcome of one pass over a buffer: what it opened and how far it got, or a failure. */
  datatype Opened = Opened(plain: seq<byte>, consumed: nat, counter: nat) | Bad(counter: nat)

  function BlockLen(buf: seq<byte>): (n: nat)
    requires |buf| >= 2
    ensures n < 0x1_0000
  {
    buf[0] as int + 256 * (buf[1] as int)
  }

  predicate HasFrame(buf: seq<byte>)
  {
    |buf| >= 2 && |buf| >= 2 + BlockLen(buf) + TAG_LEN
  }

  function FrameSize(buf: seq<byte>): (n: nat)
    requires |buf| >= 2
    ensures n >= 18
  {
    2 + BlockLen(buf) + TAG_LEN
  }

  /** The first frame of a buffer, opened. */
  function OpenFirst(a: Aead, key: seq<byte>, counter: nat, buf: seq<byte>): Option<seq<byte>>
    requires HasFrame(buf)
  {
    if counter == COUNTER_LIMIT || BlockLen(buf) == 0 then None
    else a.open(key, Nonce(counter), buf[..2], buf[2..FrameSize(buf)])
  }

  function After(plain: seq<byte>, consumed: nat, rest: Opened): Opened
  {
    match rest
    case Bad(counter) => Bad(counter)
    case Opened(p, k, counter) => Opened(plain + p, consumed + k, counter)
  }

  function Decrypt(a: Aead, key: seq<byte>, counter: nat, buf: seq<byte>): (r: Opened)
    ensures r.Opened? ==> r.consumed <= |buf|
    decreases |buf|
  {
    if !HasFrame(buf) then Opened([], 0, counter) else
    match OpenFirst(a, key, counter, buf)
    case None => Bad(counter)
    case Some(p) => After(p, FrameSize(buf), Decrypt(a, key, counter + 1, buf[FrameSize(buf)..]))
  }

  lemma DecryptCases(a: Aead, key: seq<byte>, counter: nat, buf: seq<byte>)
    ensures !HasFrame(buf) ==> Decrypt(a, key, counter, buf) == Opened([], 0, counter)
    ensures HasFrame(buf) && OpenFirst(a, key, counter, buf) == None ==> Decrypt(a, key, counter, buf) == Bad(counter)
    ensures HasFrame(buf) && OpenFirst(a, key, counter, buf).Some? ==>
              Decrypt(a, key, counter, buf)
              == After(OpenFirst(a, key, counter, buf).value, FrameSize(buf),
                       Decrypt(a, key, counter + 1, buf[FrameSize(buf)..]))
  {
  }

  lemma FirstFrameStays(a: Aead, key: seq<byte>, counter: nat, x: seq<byte>, y: seq<byte>)
    requires HasFrame(x)
    ensures HasFrame(x + y) && FrameSize(x + y) == FrameSize(x)
    ensures OpenFirst(a, key, counter, x + y) == OpenFirst(a, key, counter, x)
    ensures (x + y)[FrameSize(x)..] == x[FrameSize(x)..] + y
  {
    assert (x + y)[..2] == x[..2];
    assert (x + y)[2..FrameSize(x)] == x[2..FrameSize(x)];
  }

  /** A pass over two pieces is a pass over the first and then over its residue and the second. */
  lemma {:induction false} DecryptSplit(a: Aead, key: seq<byte>, counter: nat, x: seq<byte>, y: seq<byte>)
    ensures match Decrypt(a, key, counter, x)
            case Bad(_) => Decrypt(a, key, counter, x + y).Bad?
            case Opened(plain, k, c) =>
              Decrypt(a, key, counter, x + y) == After(plain, k, Decrypt(a, key, c, x[k..] + y))
    decreases |x|
  {
    hide Decrypt, OpenFirst;
    DecryptCases(a, key, counter, x);
    if !HasFrame(x) {
      assert x[0..] == x;
      AfterNothing(Decrypt(a, key, counter, x + y));
    } else {
      FirstFrameStays(a, key, counter, x, y);
      DecryptCases(a, key, counter, x + y);
      var n := FrameSize(x);
      if OpenFirst(a, key, counter, x).Some? {
        DecryptSplit(a, key, counter + 1, x[n..], y);
        var rest := Decrypt(a, key, counter + 1, x[n..]);
        if rest.Opened? {
          assert x[n..][rest.consumed..] == x[n + rest.consumed..];
          AfterAfter(OpenFirst(a, key, counter, x).value, n, rest.plain, rest.consumed,
                     Decrypt(a, key, rest.counter, x[n..][rest.consumed..] + y));
        }
      }
    }
  }

  lemma AfterNothing(r: Opened)
    ensures After([], 0, r) == r
  {
  }

  lemma AfterAfter(p: seq<byte>, j: nat, q: seq<byte>, k: nat, r: Opened)
    ensures After(p, j, After(q, k, r)) == After(p + q, j + k, r)
  {
    if r.Opened? {
      assert p + (q + r.plain) == p + q + r.plain;
    }
  }

  /** What a pass leaves is a proper prefix of one frame. */
  lemma {:induction false} ResidueBound(a: Aead, key: seq<byte>, counter: nat, buf: seq<byte>)
    ensures var r := Decrypt(a, key, counter, buf);
            r.Opened? ==> !HasFrame(buf[r.consumed..]) && |buf| - r.consumed <= 65552
    decreases |buf|
  {
    hide OpenFirst;
    if !HasFrame(buf) {
      assert buf[0..] == buf;
    } else if OpenFirst(a, key, counter, buf).Some? {
      ResidueBound(a, key, counter + 1, buf[FrameSize(buf)..]);
      var r := Decrypt(a, key, counter + 1, buf[FrameSize(buf)..]);
      if r.Opened? {
        assert buf[FrameSize(buf)..][r.consumed..] == buf[FrameSize(buf) + r.consumed..];
      }
    }
  }

  // ---------------------------------------------------------------------------------------------
  // Round trip
  // ---------------------------------------------------------------------------------------------

  lemma LengthRoundTrip(n: nat, rest: seq<byte>)
    requires n < 0x1_0000
    ensures var buf := LengthBytes(n) + rest;
            BlockLen(buf) == n && buf[..2] == LengthBytes(n) && buf[2..] == rest
  {
    assert LittleEndian(n / 256, 1) == [n / 256 % 256];
    assert LengthBytes(n) == [n % 256, n / 256];
  }

  /** A frame at the front of a buffer opens to its block. */
  lemma FrameOpens(a: Aead, key: seq<byte>, counter: nat, block: seq<byte>, rest: seq<byte>)
    requires a.Lawful() && counter < COUNTER_LIMIT && 0 < |block| <= MAX_BLOCK_LEN
    ensures var buf := Frame(a, key, counter, block) + rest;
            && HasFrame(buf) && FrameSize(buf) == |Frame(a, key, counter, block)|
            && buf[FrameSize(buf)..] == rest
            && OpenFirst(a, key, counter, buf) == Some(block)
  {
    hide Nonce, LengthBytes;
    var header := LengthBytes(|block|);
    var ct := a.seal(key, Nonce(counter), header, block);
    var buf := Frame(a, key, counter, block) + rest;
    assert buf == header + (ct + rest);
    LengthRoundTrip(|block|, ct + rest);
    assert |ct| == |block| + TAG_LEN;
    assert buf[2..2 + |ct|] == ct;
    assert buf[2 + |ct|..] == rest;
  }

  /** One frame in front of a buffer adds its block to what the buffer opens to. */
  lemma DecryptFrame(a: Aead, key: seq<byte>, counter: nat, block: seq<byte>, rest: seq<byte>)
    requires a.Lawful() && counter < COUNTER_LIMIT && 0 < |block| <= MAX_BLOCK_LEN
    ensures Decrypt(a, key, counter, Frame(a, key, counter, block) + rest)
         == After(block, |Frame(a, key, counter, block)|, Decrypt(a, key, counter + 1, rest))
  {
    hide Decrypt, Frame, OpenFirst, HasFrame, FrameSize;
    FrameOpens(a, key, counter, block, rest);
    DecryptCases(a, key, counter, Frame(a, key, counter, block) + rest);
  }

  /** The calls that send `plain` after `sent` and `used` are those of the whole, `e`. */
  ghost predicate Continues(a: Aead, key: seq<byte>, counter: nat, plain: seq<byte>, sent: seq<byte>,
                            used: seq<seq<byte>>, e: Sealed)
  {
    var t := Encrypt(a, key, counter, plain);
    && e.ok == t.ok && e.counter == t.counter && e.nonces == used + t.nonces
    && e.wire == (if e.ok then sent + t.wire else [])
  }

  lemma ContinuesStep(a: Aead, key: seq<byte>, counter: nat, plain: seq<byte>, sent: seq<byte>, used: seq<seq<byte>>,
                      e: Sealed)
    requires Continues(a, key, counter, plain, sent, used, e) && plain != [] && counter != COUNTER_LIMIT
    ensures var block := FirstBlock(plain);
            Continues(a, key, counter + 1, plain[|block|..], sent + Frame(a, key, counter, block),
                      used + [Nonce(counter)], e)
  {
    hide Frame, Nonce;
    var block := FirstBlock(plain);
    var rest := Encrypt(a, key, counter + 1, plain[|block|..]);
    assert used + ([Nonce(counter)] + rest.nonces) == used + [Nonce(counter)] + rest.nonces;
    assert sent + (Frame(a, key, counter, block) + rest.wire) == sent + Frame(a, key, counter, block) + rest.wire;
  }

  lemma ContinuesEnd(a: Aead, key: seq<byte>, counter: nat, plain: seq<byte>, sent: seq<byte>, used: seq<seq<byte>>,
                     e: Sealed)
    requires Continues(a, key, counter, plain, sent, used, e) && (plain == [] || counter == COUNTER_LIMIT)
    ensures e == Sealed(plain == [], if plain == [] then sent else [], counter, used)
  {
  }

  lemma ContinuesStart(a: Aead, key: seq<byte>, counter: nat, plain: seq<byte>)
    ensures Continues(a, key, counter, plain, [], [], Encrypt(a, key, counter, plain))
  {
    hide Frame, Nonce;
  }

  lemma EncryptStep(a: Aead, key: seq<byte>, counter: nat, plain: seq<byte>)
    requires plain != [] && Encrypt(a, key, counter, plain).ok
    ensures var block := FirstBlock(plain); var rest := Encrypt(a, key, counter + 1, plain[|block|..]);
            && counter != COUNTER_LIMIT && 0 < |block| <= MAX_BLOCK_LEN && block + plain[|block|..] == plain && rest.ok
            && Encrypt(a, key, counter, plain).wire == Frame(a, key, counter, block) + rest.wire
            && Encrypt(a, key, counter, plain).counter == rest.counter
  {
    hide Frame, Nonce;
  }

  lemma {:induction false} EncryptThenDecrypt(a: Aead, key: seq<byte>, counter: nat, plain: seq<byte>, rest: seq<byte>)
    requires a.Lawful() && counter <= COUNTER_LIMIT && Encrypt(a, key, counter, plain).ok
    ensures var e := Encrypt(a, key, counter, plain);
            Decrypt(a, key, counter, e.wire + rest) == After(plain, |e.wire|, Decrypt(a, key, e.counter, rest))
    decreases |plain|
  {
    hide Decrypt, Frame, After, Encrypt, FirstBlock, Aead.Lawful;
    var e := Encrypt(a, key, counter, plain);
    if plain == [] {
      EncryptNothing(a, key, counter);
      assert e.wire + rest == rest;
      AfterNothing(Decrypt(a, key, counter, rest));
    } else {
      EncryptStep(a, key, counter, plain);
      var block := FirstBlock(plain);
      var tail := Encrypt(a, key, counter + 1, plain[|block|..]);
      var frame := Frame(a, key, counter, block);
      EncryptThenDecrypt(a, key, counter + 1, plain[|block|..], rest);
      DecryptFrame(a, key, counter, block, tail.wire + rest);
      assert e.wire + rest == frame + (tail.wire + rest);
      AfterAfter(block, |frame|, plain[|block|..], |tail.wire|, Decrypt(a, key, e.counter, rest));
    }
  }

  lemma EncryptNothing(a: Aead, key: seq<byte>, counter: nat)
    ensures Encrypt(a, key, counter, []) == Sealed(true, [], counter, [])
  {
  }

  lemma {:induction false} RunThenDecrypt(a: Aead, key: seq<byte>, counter: nat, plains: seq<seq<byte>>,
                                          rest: seq<byte>)
    requires a.Lawful() && counter <= COUNTER_LIMIT && EncryptAll(a, key, counter, plains).ok
    ensures var e := EncryptAll(a, key, counter, plains);
            Decrypt(a, key, counter, e.wire + rest) == After(Concat(plains), |e.wire|, Decrypt(a, key, e.counter, rest))
    decreases |plains|
  {
    hide Decrypt, Encrypt;
    var e := EncryptAll(a, key, counter, plains);
    if plains == [] {
      assert e.wire + rest == rest;
      AfterNothing(Decrypt(a, key, counter, rest));
    } else {
      var first := Encrypt(a, key, counter, plains[0]);
      var more := EncryptAll(a, key, first.counter, plains[1..]);
      EncryptNonces(a, key, counter, plains[0]);
      EncryptThenDecrypt(a, key, counter, plains[0], more.wire + rest);
      RunThenDecrypt(a, key, first.counter, plains[1..], rest);
      assert e.wire + rest == first.wire + (more.wire + rest);
      AfterAfter(plains[0], |first.wire|, Concat(plains[1..]), |more.wire|, Decrypt(a, key, e.counter, rest));
    }
  }

  /** The receiving side: bytes not yet opened, the counter, the plaintext so far, whether it gave up. */
  datatype Receiver = Receiver(raw: seq<byte>, counter: nat, plain: seq<byte>, failed: bool)

  function Take(a: Aead, key: seq<byte>, r: Receiver, chunk: seq<byte>): Receiver
  {
    if r.failed || |chunk| > MAX_ENCRYPTED_BUFFER_LEN - |r.raw| then r.(failed := true) else
    var buf := r.raw + chunk;
    match Decrypt(a, key, r.counter, buf)
    case Bad(counter) => r.(raw := buf, counter := counter, failed := true)
    case Opened(plain, k, counter) => Receiver(buf[k..], counter, r.plain + plain, false)
  }

  function TakeAll(a: Aead, key: seq<byte>, r: Receiver, chunks: seq<seq<byte>>): Receiver
    decreases |chunks|
  {
    if chunks == [] then r else TakeAll(a, key, Take(a, key, r, chunks[0]), chunks[1..])
  }

  predicate SizedReads(chunks: seq<seq<byte>>)
  {
    forall i :: 0 <= i < |chunks| ==> |chunks[i]| <= READ_LEN
  }

  /** The receiver agrees with one pass over everything received since `counter`. */
  ghost predicate Agrees(a: Aead, key: seq<byte>, counter: nat, r: Receiver, seen: seq<byte>)
  {
    match Decrypt(a, key, counter, seen)
    case Bad(_) => r.failed
    case Opened(plain, k, c) => !r.failed && r.plain == plain && r.counter == c && r.raw == seen[k..]
  }

  lemma TakeAgrees(a: Aead, key: seq<byte>, counter: nat, r: Receiver, seen: seq<byte>, chunk: seq<byte>)
    requires Agrees(a, key, counter, r, seen) && |chunk| <= READ_LEN
    ensures Agrees(a, key, counter, Take(a, key, r, chunk), seen + chunk)
  {
    hide Decrypt;
    DecryptSplit(a, key, counter, seen, chunk);
    ResidueBound(a, key, counter, seen);
    if !r.failed {
      var d := Decrypt(a, key, counter, seen);
      var e := Decrypt(a, key, d.counter, r.raw + chunk);
      if e.Opened? {
        assert (r.raw + chunk)[e.consumed..] == (seen + chunk)[d.consumed + e.consumed..];
      }
    }
  }

  lemma {:induction false} TakeAllAgrees(a: Aead, key: seq<byte>, counter: nat, r: Receiver, seen: seq<byte>,
                                         chunks: seq<seq<byte>>)
    requires Agrees(a, key, counter, r, seen) && SizedReads(chunks)
    ensures Agrees(a, key, counter, TakeAll(a, key, r, chunks), seen + Concat(chunks))
    decreases |chunks|
  {
    hide Agrees, Take;
    if chunks == [] {
      assert seen + [] == seen;
    } else {
      TakeAgrees(a, key, counter, r, seen, chunks[0]);
      TakeAllAgrees(a, key, counter, Take(a, key, r, chunks[0]), seen + chunks[0], chunks[1..]);
      assert seen + chunks[0] + Concat(chunks[1..]) == seen + Concat(chunks);
    }
  }

  function Fresh(counter: nat): Receiver
  {
    Receiver([], counter, [], false)
  }

  /**
   * The transport is transparent: whatever was encrypted in any number of calls and however the wire bytes are cut,
   * the receiver ends with the concatenated plaintexts, the sender's counter and nothing left over.
   */
  lemma TransportRoundTrip(a: Aead, key: seq<byte>, counter: nat, plains: seq<seq<byte>>, chunks: seq<seq<byte>>)
    requires a.Lawful() && counter <= COUNTER_LIMIT && EncryptAll(a, key, counter, plains).ok
    requires Concat(chunks) == EncryptAll(a, key, counter, plains).wire && SizedReads(chunks)
    ensures TakeAll(a, key, Fresh(counter), chunks)
         == Receiver([], EncryptAll(a, key, counter, plains).counter, Concat(plains), false)
  {
    hide Decrypt, EncryptAll, TakeAll, Concat;
    var e := EncryptAll(a, key, counter, plains);
    DecryptCases(a, key, counter, []);
    TakeAllAgrees(a, key, counter, Fresh(counter), [], chunks);
    assert [] + Concat(chunks) == Concat(chunks);
    RunThenDecrypt(a, key, counter, plains, []);
    DecryptCases(a, key, e.counter, []);
    assert e.wire + [] == e.wire && Concat(plains) + [] == Concat(plains);
  }

  /**
   * With reads of at most 4096 bytes the megabyte limit never fires: the receiver fails only when a frame does not
   * open.
   */
  lemma LimitUnreachable(a: Aead, key: seq<byte>, counter: nat, chunks: seq<seq<byte>>)
    requires SizedReads(chunks)
    ensures TakeAll(a, key, Fresh(counter), chunks).failed <==> Decrypt(a, key, counter, Concat(chunks)).Bad?
    ensures !TakeAll(a, key, Fresh(counter), chunks).failed ==>
              |TakeAll(a, key, Fresh(counter), chunks).raw| + READ_LEN <= MAX_ENCRYPTED_BUFFER_LEN
  {
    hide Decrypt, TakeAll, Concat;
    DecryptCases(a, key, counter, []);
    TakeAllAgrees(a, key, counter, Fresh(counter), [], chunks);
    assert [] + Concat(chunks) == Concat(chunks);
    ResidueBound(a, key, counter, Concat(chunks));
  }

  // ---------------------------------------------------------------------------------------------
  // The object
  // ---------------------------------------------------------------------------------------------

  class CipherContext {
    const a: Aead
    const key: seq<byte>
    var counter: nat
    ghost var nonces: seq<seq<byte>>

    constructor (a: Aead, key: seq<byte>)
      ensures this.a == a && this.key == key && counter == 0 && nonces == []
    {
      this.a, this.key, counter, nonces := a, key, 0, [];
    }

    /** The wire bytes of a plaintext, or nothing when the counter is exhausted before it is all sealed. */
    method EncryptBytes(plain: seq<byte>) returns (out: Option<seq<byte>>)
      modifies this
      ensures var e := Encrypt(a, key, old(counter), plain);
              counter == e.counter && nonces == old(nonces) + e.nonces && out == if e.ok then Some(e.wire) else None
    {
      hide Frame, Nonce, Encrypt, Continues;
      ghost var e := Encrypt(a, key, counter, plain);
      ghost var used: seq<seq<byte>> := [];
      var wire: seq<byte> := [];
      var rest := plain;
      ContinuesStart(a, key, counter, plain);
      while rest != []
        invariant nonces == old(nonces) + used
        invariant Continues(a, key, counter, rest, wire, used, e)
        decreases |rest|
      {
        if counter == COUNTER_LIMIT {
          ContinuesEnd(a, key, counter, rest, wire, used, e);
          return None;
        }
        var block := FirstBlock(rest);
        ContinuesStep(a, key, counter, rest, wire, used, e);
        wire := wire + Frame(a, key, counter, block);
        nonces, used := nonces + [Nonce(counter)], used + [Nonce(counter)];
        counter := counter + 1;
        rest := rest[|block|..];
      }
      ContinuesEnd(a, key, counter, rest, wire, used, e);
      out := Some(wire);
    }

    /** The plaintext of the complete frames and how many bytes they took, or nothing when one does not open. */
    method DecryptBytes(cipher: seq<byte>) returns (r: Option<(seq<byte>, nat)>)
      modifies this`counter
      ensures match Decrypt(a, key, old(counter), cipher)
              case Bad(c) => r == None && counter == c
              case Opened(plain, k, c) => r == Some((plain, k)) && counter == c
    {
      hide OpenFirst, Decrypt;
      ghost var goal := Decrypt(a, key, counter, cipher);
      var plain: seq<byte> := [];
      var pos := 0;
      AfterNothing(goal);
      assert cipher[0..] == cipher;
      while HasFrame(cipher[pos..])
        invariant pos <= |cipher|
        invariant goal == After(plain, pos, Decrypt(a, key, counter, cipher[pos..]))
        decreases |cipher| - pos
      {
        ghost var rest := cipher[pos..];
        DecryptCases(a, key, counter, rest);
        var block := OpenFirst(a, key, counter, cipher[pos..]);
        if block == None {
          return None;
        }
        var n := FrameSize(cipher[pos..]);
        AfterAfter(plain, pos, block.value, n, Decrypt(a, key, counter + 1, rest[n..]));
        assert rest[n..] == cipher[pos + n..];
        plain := plain + block.value;
        pos := pos + n;
        counter := counter + 1;
      }
      DecryptCases(a, key, counter, cipher[pos..]);
      assert plain + [] == plain;
      r := Some((plain, pos));
    }
  }
}
