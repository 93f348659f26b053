/**
 * Counter mode twice over: the hand-written AES-CTR of the audio path and the video cipher that carries keystream
 * from packet to packet. Both are the exclusive or with the keystream of section 6.5 of NIST SP 800-38A. AES is any
 * function from a counter block to the bytes of its encryption.
 */
module Ctr {
  import opened Common
  import opened Endian
  import opened Modular

  const BLOCK_SIZE: nat := 16

  /** Byte `j` of the encryption of a counter block. */
  type BlockCipher = (seq<byte>, nat) -> bv8

  function Xor(a: bv8, b: bv8): bv8
  {
    a ^ b
  }

  /** Byte `i` of the keystream: of the encryption of iv + i / 16, modulo 2^128. */
  function KeyByte(e: BlockCipher, iv: nat, i: int): bv8
  {
    e(BigEndianBytes((iv + i / BLOCK_SIZE) % Power256(BLOCK_SIZE), BLOCK_SIZE), i % BLOCK_SIZE)
  }

  /** Data at position `pos` of the stream, encrypted or decrypted. */
  function XorStream(e: BlockCipher, iv: nat, pos: nat, data: seq<bv8>): (r: seq<bv8>)
    ensures |r| == |data|
  {
    seq(|data|, j requires 0 <= j < |data| => Xor(data[j], KeyByte(e, iv, pos + j)))
  }

  /** Chunk after chunk, each where the one before it ended. */
  function XorChunks(e: BlockCipher, iv: nat, pos: nat, chunks: seq<seq<bv8>>): seq<bv8>
    decreases |chunks|
  {
    if chunks == [] then [] else
    XorStream(e, iv, pos, chunks[0]) + XorChunks(e, iv, pos + |chunks[0]|, chunks[1..])
  }

  lemma XorSplit(e: BlockCipher, iv: nat, pos: nat, a: seq<bv8>, b: seq<bv8>)
    ensures XorStream(e, iv, pos, a + b) == XorStream(e, iv, pos, a) + XorStream(e, iv, pos + |a|, b)
  {
    hide Xor, KeyByte;
    var all := XorStream(e, iv, pos, a + b);
    assert forall j :: 0 <= j < |b| ==> all[|a| + j] == Xor(b[j], KeyByte(e, iv, pos + |a| + j));
  }

  /** The result does not depend on the chunks. */
  lemma {:induction false} ChunkedIsWhole(e: BlockCipher, iv: nat, pos: nat, chunks: seq<seq<bv8>>)
    ensures XorChunks(e, iv, pos, chunks) == XorStream(e, iv, pos, Concat(chunks))
    decreases |chunks|
  {
    hide Xor, KeyByte, XorStream;
    if chunks == [] {
    } else {
      ChunkedIsWhole(e, iv, pos + |chunks[0]|, chunks[1..]);
      XorSplit(e, iv, pos, chunks[0], Concat(chunks[1..]));
    }
  }

  lemma XorTwice(x: bv8, k: bv8)
    ensures Xor(Xor(x, k), k) == x
  {
  }

  /** Decryption is encryption, in any chunks on either side. */
  lemma SelfInverse(e: BlockCipher, iv: nat, pos: nat, sent: seq<seq<bv8>>, received: seq<seq<bv8>>)
    requires Concat(received) == XorChunks(e, iv, pos, sent)
    ensures XorChunks(e, iv, pos, received) == Concat(sent)
  {
    hide Xor, KeyByte, XorChunks, Concat;
    ChunkedIsWhole(e, iv, pos, sent);
    ChunkedIsWhole(e, iv, pos, received);
    var data := Concat(sent);
    forall j | 0 <= j < |data|
      ensures XorStream(e, iv, pos, XorStream(e, iv, pos, data))[j] == data[j]
    {
      XorTwice(data[j], KeyByte(e, iv, pos + j));
    }
  }

  /** The first `k` bytes are done, the rest untouched. */
  ghost predicate Partly(e: BlockCipher, iv: nat, pos: nat, orig: seq<bv8>, now: seq<bv8>, k: nat)
  {
    && |now| == |orig| && k <= |orig|
    && (forall j :: 0 <= j < k ==> now[j] == Xor(orig[j], KeyByte(e, iv, pos + j)))
    && (forall j :: k <= j < |orig| ==> now[j] == orig[j])
  }

  lemma PartlyAll(e: BlockCipher, iv: nat, pos: nat, orig: seq<bv8>, now: seq<bv8>)
    requires Partly(e, iv, pos, orig, now, |orig|)
    ensures now == XorStream(e, iv, pos, orig)
  {
    hide Xor, KeyByte;
  }

  lemma PartlyMore(e: BlockCipher, iv: nat, pos: nat, orig: seq<bv8>, before: seq<bv8>, now: seq<bv8>, k: nat, n: nat)
    requires Partly(e, iv, pos, orig, before, k) && k + n <= |orig| && |now| == |orig|
    requires forall j :: k <= j < k + n ==> now[j] == Xor(before[j], KeyByte(e, iv, pos + j))
    requires forall j :: 0 <= j < |orig| && !(k <= j < k + n) ==> now[j] == before[j]
    ensures Partly(e, iv, pos, orig, now, k + n)
  {
    hide Xor, KeyByte;
  }

  /** From index `lo` on, a block holds the keystream that starts at position `base`. */
  ghost predicate Keys(e: BlockCipher, iv: nat, base: int, block: seq<bv8>, lo: int)
  {
    |block| == BLOCK_SIZE && forall j :: 0 <= lo <= j < BLOCK_SIZE ==> block[j] == KeyByte(e, iv, base + j)
  }

  lemma KeyBlock(e: BlockCipher, iv: nat, blocks: nat, j: nat)
    requires j < BLOCK_SIZE
    ensures KeyByte(e, iv, BLOCK_SIZE * blocks + j)
         == e(BigEndianBytes((iv + blocks) % Power256(BLOCK_SIZE), BLOCK_SIZE), j)
  {
    hide Power256, BigEndianBytes;
    assert (BLOCK_SIZE * blocks + j) / BLOCK_SIZE == blocks;
  }

  // ---------------------------------------------------------------------------------------------
  // The audio cipher
  // ---------------------------------------------------------------------------------------------

  lemma CarryStep(old': seq<byte>, now: seq<byte>, carry: int, rest: seq<byte>, was: seq<byte>)
    requires |old'| == |now| == |rest| + 1 && |was| == |rest| && 0 <= carry <= 1
    requires now[1..] == rest && old'[1..] == was && now[0] as int == (carry + old'[0] as int) % 256
    requires BigEndian(rest) + carry * Power256(|rest|) == BigEndian(was) + 1
    ensures BigEndian(now) + (carry + old'[0] as int) / 256 * Power256(|now|) == BigEndian(old') + 1
  {
    hide BigEndian;
    BigEndianHead(now);
    BigEndianHead(old');
    var p := Power256(|rest|);
    var b, c := old'[0] as int, (carry + old'[0] as int) / 256;
    assert Power256(|now|) == 256 * p;
    CarryWeights(now[0] as int, c, b, carry, p);
  }

  lemma CarryWeights(lo: int, c: int, b: int, carry: int, p: int)
    requires lo + 256 * c == carry + b
    ensures lo * p + c * (256 * p) == carry * p + b * p
  {
    calc {
      lo * p + c * (256 * p);
      (lo + 256 * c) * p;
      (carry + b) * p;
      carry * p + b * p;
    }
  }

  lemma WrapsAt(v: nat, carry: int, was: nat, limit: int)
    requires 0 <= carry <= 1 && v < limit && was < limit && v + carry * limit == was + 1
    ensures v == (was + 1) % limit
  {
    if carry == 1 {
      assert was + 1 == limit && v == 0;
    }
  }

  /** The counter plus one modulo 2^128, byte by byte from the last. */
  method IncrementCounter(counter: array<byte>)
    requires counter.Length == BLOCK_SIZE
    modifies counter
    ensures BigEndian(counter[..]) == (BigEndian(old(counter[..])) + 1) % Power256(BLOCK_SIZE)
  {
    hide BigEndian, Power256;
    ghost var was := counter[..];
    var carry := 1;
    var i := BLOCK_SIZE;
    EmptyCarry(was);
    while i > 0
      invariant 0 <= i <= BLOCK_SIZE && 0 <= carry <= 1
      invariant counter[..i] == was[..i]
      invariant BigEndian(counter[i..]) + carry * Power256(|counter[i..]|) == BigEndian(was[i..]) + 1
    {
      i := i - 1;
      ghost var rest := counter[i + 1..];
      ghost var was0 := counter[i] as int;
      assert counter[..i + 1][i] == was[i];
      ghost var carry0 := carry;
      carry := carry + counter[i] as int;
      counter[i] := carry % 256;
      carry := carry / 256;
      assert counter[i..][1..] == rest && was[i..][1..] == was[i + 1..];
      assert counter[..i] == was[..i] by {
        assert was[..i] == was[..i + 1][..i];
      }
      CarryStep(was[i..], counter[i..], carry0, rest, was[i + 1..]);
    }
    assert counter[0..] == counter[..] && was[0..] == was;
    BigEndianBound(counter[..]);
    BigEndianBound(was);
    WrapsAt(BigEndian(counter[..]), carry, BigEndian(was), Power256(BLOCK_SIZE));
  }

  lemma EmptyCarry(was: seq<byte>)
    ensures BigEndian(was[|was|..]) == 0 && Power256(|was[|was|..]|) == 1
  {
  }

  /** Part of a block of keystream over part of the data. */
  method XorBlock(data: array<bv8>, idx: nat, block: array<bv8>, lo: nat, n: nat)
    requires data != block && idx + n <= data.Length && lo + n <= block.Length
    modifies data
    ensures forall j :: idx <= j < idx + n ==> data[j] == Xor(old(data[j]), block[j - idx + lo])
    ensures forall j :: 0 <= j < data.Length && !(idx <= j < idx + n) ==> data[j] == old(data[j])
  {
    hide Xor;
    for i := 0 to n
      invariant forall j :: idx <= j < idx + i ==> data[j] == Xor(old(data[j]), block[j - idx + lo])
      invariant forall j :: 0 <= j < data.Length && !(idx <= j < idx + i) ==> data[j] == old(data[j])
    {
      data[idx + i] := Xor(data[idx + i], block[lo + i]);
    }
  }

  class AesCtr {
    const e: BlockCipher
    ghost const iv: nat
    const counter: array<byte>
    const state: array<bv8>
    var available: nat
    ghost var pos: nat
    ghost var blocks: nat

    /** `pos` bytes of `blocks` blocks were used; the next `available` keystream bytes are at the end of `state`. */
    ghost predicate Valid()
      reads this, counter, state
    {
      && counter.Length == BLOCK_SIZE && state.Length == BLOCK_SIZE && available <= BLOCK_SIZE
      && counter as object != state
      && pos + available == BLOCK_SIZE * blocks
      && BigEndian(counter[..]) == (iv + blocks) % Power256(BLOCK_SIZE)
      && Keys(e, iv, pos + available - BLOCK_SIZE, state[..], BLOCK_SIZE - available)
    }

    constructor (e: BlockCipher, nonce: seq<byte>)
      requires |nonce| == BLOCK_SIZE
      ensures Valid() && fresh(counter) && fresh(state) && this.e == e && iv == BigEndian(nonce) && pos == 0
    {
      hide BigEndian, Power256, KeyByte;
      this.e, iv := e, BigEndian(nonce);
      counter := new byte[BLOCK_SIZE](i requires 0 <= i < BLOCK_SIZE => nonce[i]);
      state := new bv8[BLOCK_SIZE](_ => 0);
      available, pos, blocks := 0, 0, 0;
      new;
      assert counter[..] == nonce;
      BigEndianBound(nonce);
    }

    method EncryptBlock()
      requires counter.Length == BLOCK_SIZE && state.Length == BLOCK_SIZE && counter as object != state
      modifies state
      ensures forall j :: 0 <= j < BLOCK_SIZE ==> state[j] == e(counter[..], j)
    {
      var block := counter[..];
      for i := 0 to BLOCK_SIZE
        invariant forall j :: 0 <= j < i ==> state[j] == e(block, j)
      {
        state[i] := e(block, i);
      }
    }

    /** A block of keystream from the counter, which moves on. */
    method Refill()
      requires Valid() && available == 0
      modifies this`available, this`blocks, counter, state
      ensures Valid() && available == BLOCK_SIZE
    {
      hide BigEndian, Power256, BigEndianBytes, KeyByte;
      ghost var block := counter[..];
      EncryptBlock();
      BytesRoundTrip(block);
      BlockIsKeys(e, iv, blocks, state[..]);
      ghost var keys := state[..];
      IncrementCounter(counter);
      NextBlock(iv, blocks, Power256(BLOCK_SIZE));
      assert state[..] == keys;
      available := BLOCK_SIZE;
      blocks := blocks + 1;
    }

    /** Exclusive or with the keystream, in place, from where the last call stopped. */
    method Encrypt(data: array<bv8>)
      requires Valid() && data != state && data as object != counter
      modifies this`available, this`pos, this`blocks, counter, state, data
      ensures Valid() && pos == old(pos) + data.Length
      ensures data[..] == XorStream(e, iv, old(pos), old(data[..]))
    {
      hide BigEndian, Power256, KeyByte, XorStream, Partly, Xor, Keys;
      ghost var orig := data[..];
      ghost var from := pos;
      var idx := 0;
      PartlyNone(e, iv, from, orig);
      while idx < data.Length
        invariant 0 <= idx <= data.Length && Valid() && pos == from + idx
        invariant Partly(e, iv, from, orig, data[..], idx)
      {
        ghost var before := data[..];
        if available == 0 {
          Refill();
          assert data[..] == before;
        }
        var n := if available < data.Length - idx then available else data.Length - idx;
        XorState(data, idx, n, from, orig);
        idx := idx + n;
      }
      PartlyAll(e, iv, from, orig, data[..]);
    }

    /** `n` bytes of what is left of the block. */
    method XorState(data: array<bv8>, idx: nat, n: nat, ghost from: nat, ghost orig: seq<bv8>)
      requires Valid() && data != state && data as object != counter && n <= available && idx + n <= data.Length
      requires pos == from + idx && |orig| == data.Length && Partly(e, iv, from, orig, data[..], idx)
      modifies this`available, this`pos, data
      ensures Valid() && pos == from + idx + n && available == old(available) - n
      ensures Partly(e, iv, from, orig, data[..], idx + n)
    {
      hide BigEndian, Power256, KeyByte, Partly, Xor, Keys;
      ghost var before, keys, block := data[..], state[..], counter[..];
      XorBlock(data, idx, state, BLOCK_SIZE - available, n);
      assert state[..] == keys && counter[..] == block;
      XorKeys(e, iv, pos + available - BLOCK_SIZE, keys, BLOCK_SIZE - available, from, before, data[..], idx, n);
      PartlyMore(e, iv, from, orig, before, data[..], idx, n);
      KeysLater(e, iv, pos + available - BLOCK_SIZE, keys, BLOCK_SIZE - available, n);
      available := available - n;
      pos := pos + n;
    }
  }

  /** Bytes exclusive-ored with a block's keystream are exclusive-ored with the stream's. */
  lemma XorKeys(e: BlockCipher, iv: nat, base: int, block: seq<bv8>, lo: nat, from: nat, before: seq<bv8>,
                now: seq<bv8>, k: nat, n: nat)
    requires Keys(e, iv, base, block, lo) && lo + n <= BLOCK_SIZE && |before| == |now| && k + n <= |now|
    requires base + lo == from + k
    requires forall j :: k <= j < k + n ==> now[j] == Xor(before[j], block[j - k + lo])
    ensures forall j :: k <= j < k + n ==> now[j] == Xor(before[j], KeyByte(e, iv, from + j))
  {
    hide Xor, KeyByte;
    forall j | k <= j < k + n
      ensures now[j] == Xor(before[j], KeyByte(e, iv, from + j))
    {
      var i := j - k + lo;
      assert block[i] == KeyByte(e, iv, base + i);
    }
  }

  lemma KeysLater(e: BlockCipher, iv: nat, base: int, block: seq<bv8>, lo: int, n: nat)
    requires Keys(e, iv, base, block, lo) && lo >= 0
    ensures Keys(e, iv, base, block, lo + n)
  {
    hide KeyByte;
  }

  lemma PartlyNone(e: BlockCipher, iv: nat, pos: nat, orig: seq<bv8>)
    ensures Partly(e, iv, pos, orig, orig, 0)
  {
  }

  lemma NextBlock(iv: nat, blocks: nat, m: int)
    requires m > 0
    ensures ((iv + blocks) % m + 1) % m == (iv + (blocks + 1)) % m
  {
    ModAdd(iv + blocks, 1, m);
  }

  lemma BlockIsKeys(e: BlockCipher, iv: nat, blocks: nat, state: seq<bv8>)
    requires |state| == BLOCK_SIZE
    requires forall j :: 0 <= j < BLOCK_SIZE ==>
               state[j] == e(BigEndianBytes((iv + blocks) % Power256(BLOCK_SIZE), BLOCK_SIZE), j)
    ensures Keys(e, iv, BLOCK_SIZE * blocks, state, 0)
  {
    hide KeyByte, BigEndianBytes, Power256;
    forall j | 0 <= j < BLOCK_SIZE
      ensures state[j] == KeyByte(e, iv, BLOCK_SIZE * blocks + j)
    {
      KeyBlock(e, iv, blocks, j);
    }
  }

  // ---------------------------------------------------------------------------------------------
  // The video cipher
  // ---------------------------------------------------------------------------------------------

  /** The library's counter mode, used on whole blocks only. */
  class BlockStream {
    const e: BlockCipher
    ghost const iv: nat
    const counter: seq<byte>
    var blocks: nat

    constructor (e: BlockCipher, nonce: seq<byte>)
      requires |nonce| == BLOCK_SIZE
      ensures this.e == e && iv == BigEndian(nonce) && counter == nonce && blocks == 0
    {
      this.e, iv, counter, blocks := e, BigEndian(nonce), nonce, 0;
    }

    method Apply(buf: array<bv8>, from: nat, count: nat)
      requires from + BLOCK_SIZE * count <= buf.Length && iv == BigEndian(counter)
      modifies buf, this`blocks
      ensures blocks == old(blocks) + count
      ensures forall j :: from <= j < from + BLOCK_SIZE * count ==>
                buf[j] == Xor(old(buf[j]), KeyByte(e, iv, BLOCK_SIZE * old(blocks) + j - from))
      ensures forall j :: 0 <= j < buf.Length && !(from <= j < from + BLOCK_SIZE * count) ==> buf[j] == old(buf[j])
    {
      hide Xor, KeyByte, BigEndian;
      var v := BigEndian(counter);
      ghost var was := buf[..];
      for i := 0 to BLOCK_SIZE * count
        invariant forall j :: from <= j < from + i ==>
                    buf[j] == Xor(was[j], KeyByte(e, iv, BLOCK_SIZE * blocks + j - from))
        invariant forall j :: 0 <= j < buf.Length && !(from <= j < from + i) ==> buf[j] == was[j]
        invariant blocks == old(blocks)
      {
        buf[from + i] := Xor(buf[from + i], KeyByte(e, v, BLOCK_SIZE * blocks + i));
      }
      blocks := blocks + count;
    }
  }

  class VideoCipher {
    const cipher: BlockStream
    const leftover: array<bv8>
    var leftoverCount: nat
    ghost var pos: nat

    /** `pos` bytes were used; the next `leftoverCount` keystream bytes are at the end of `leftover`. */
    ghost predicate Valid()
      reads this, cipher, leftover
    {
      && cipher.iv == BigEndian(cipher.counter)
      && leftover.Length == BLOCK_SIZE && leftoverCount < BLOCK_SIZE
      && pos + leftoverCount == BLOCK_SIZE * cipher.blocks
      && Keys(cipher.e, cipher.iv, pos + leftoverCount - BLOCK_SIZE, leftover[..], BLOCK_SIZE - leftoverCount)
    }

    constructor (e: BlockCipher, nonce: seq<byte>)
      requires |nonce| == BLOCK_SIZE
      ensures Valid() && fresh(cipher) && fresh(leftover) && cipher.e == e && cipher.iv == BigEndian(nonce) && pos == 0
    {
      cipher := new BlockStream(e, nonce);
      leftover := new bv8[BLOCK_SIZE](_ => 0);
      leftoverCount, pos := 0, 0;
    }

    /** Keystream left from the packet before. */
    method ApplyLeftover(payload: array<bv8>) returns (applied: nat)
      requires Valid() && payload != leftover
      modifies this`leftoverCount, this`pos, payload
      ensures applied == (if old(leftoverCount) < payload.Length then old(leftoverCount) else payload.Length)
      ensures Valid() && pos == old(pos) + applied && leftoverCount == old(leftoverCount) - applied
      ensures Partly(cipher.e, cipher.iv, old(pos), old(payload[..]), payload[..], applied)
    {
      hide Xor, KeyByte, Partly, BigEndian;
      ghost var before, keys := payload[..], leftover[..];
      var n := leftoverCount;
      applied := if n < payload.Length then n else payload.Length;
      XorBlock(payload, 0, leftover, BLOCK_SIZE - n, applied);
      XorKeys(cipher.e, cipher.iv, pos + n - BLOCK_SIZE, keys, BLOCK_SIZE - n, pos, before, payload[..], 0, applied);
      PartlyNone(cipher.e, cipher.iv, pos, before);
      PartlyMore(cipher.e, cipher.iv, pos, before, before, payload[..], 0, applied);
      leftoverCount := n - applied;
      pos := pos + applied;
    }

    /** The last partial block: encrypted with zeros after it, so that the zeros become the keystream still to use. */
    method ApplyTail(payload: array<bv8>, rest: nat, ghost from: nat, ghost orig: seq<bv8>)
      requires Valid() && payload != leftover && leftoverCount == 0 && 0 < rest < BLOCK_SIZE && rest <= payload.Length
      requires pos == from + payload.Length - rest && |orig| == payload.Length
      requires Partly(cipher.e, cipher.iv, from, orig, payload[..], payload.Length - rest)
      modifies this`leftoverCount, this`pos, payload, cipher`blocks, leftover
      ensures Valid() && pos == from + payload.Length
      ensures Partly(cipher.e, cipher.iv, from, orig, payload[..], payload.Length)
    {
      hide Xor, KeyByte, Partly, BigEndian;
      ghost var before := payload[..];
      var start := payload.Length - rest;
      forall j | 0 <= j < BLOCK_SIZE {
        leftover[j] := if j < rest then payload[start + j] else 0;
      }
      ghost var padded := leftover[..];
      cipher.Apply(leftover, 0, 1);
      forall j | 0 <= j < rest {
        payload[start + j] := leftover[j];
      }
      PartlyMore(cipher.e, cipher.iv, from, orig, before, payload[..], start, rest);
      ZerosAreKeys(cipher.e, cipher.iv, padded, leftover[..], pos, rest);
      leftoverCount := BLOCK_SIZE - rest;
      pos := pos + rest;
    }

    /** Exclusive or with the keystream, in place, from where the last call stopped. */
    method Decrypt(payload: array<bv8>)
      requires Valid() && payload != leftover
      modifies this`leftoverCount, this`pos, payload, cipher`blocks, leftover
      ensures Valid() && pos == old(pos) + payload.Length
      ensures payload[..] == XorStream(cipher.e, cipher.iv, old(pos), old(payload[..]))
    {
      hide Xor, KeyByte, Partly, BigEndian, XorStream;
      ghost var orig := payload[..];
      ghost var from := pos;
      var offset := ApplyLeftover(payload);
      if leftoverCount == 0 {
        var remaining := payload.Length - offset;
        var full := remaining / BLOCK_SIZE;
        ghost var before := payload[..];
        cipher.Apply(payload, offset, full);
        PartlyMore(cipher.e, cipher.iv, from, orig, before, payload[..], offset, BLOCK_SIZE * full);
        pos := pos + BLOCK_SIZE * full;
        var rest := remaining % BLOCK_SIZE;
        if rest > 0 {
          ApplyTail(payload, rest, from, orig);
        }
      }
      PartlyAll(cipher.e, cipher.iv, from, orig, payload[..]);
    }
  }

  lemma ZerosAreKeys(e: BlockCipher, iv: nat, padded: seq<bv8>, leftover: seq<bv8>, pos: nat, rest: nat)
    requires |padded| == |leftover| == BLOCK_SIZE && rest <= BLOCK_SIZE
    requires forall j :: rest <= j < BLOCK_SIZE ==> padded[j] == 0
    requires forall j :: 0 <= j < BLOCK_SIZE ==> leftover[j] == Xor(padded[j], KeyByte(e, iv, pos + j))
    ensures Keys(e, iv, pos, leftover, rest)
  {
    hide Xor, KeyByte;
    forall j | rest <= j < BLOCK_SIZE
      ensures leftover[j] == KeyByte(e, iv, pos + j)
    {
      XorZero(KeyByte(e, iv, pos + j));
    }
  }

  lemma XorZero(k: bv8)
    ensures Xor(0, k) == k
  {
  }

  // ---------------------------------------------------------------------------------------------
  // The two ciphers side by side
  // ---------------------------------------------------------------------------------------------

  lemma ChunksAppend(e: BlockCipher, iv: nat, pos: nat, chunks: seq<seq<bv8>>, next: seq<bv8>)
    ensures XorChunks(e, iv, pos, chunks + [next])
         == XorChunks(e, iv, pos, chunks) + XorStream(e, iv, pos + |Concat(chunks)|, next)
  {
    hide XorStream, KeyByte, Xor;
    ChunkedIsWhole(e, iv, pos, chunks + [next]);
    ChunkedIsWhole(e, iv, pos, chunks);
    ConcatAppend(chunks, [next]);
    assert Concat([next]) == next by { assert [next][1..] == [] && next + [] == next; }
    XorSplit(e, iv, pos, Concat(chunks), next);
  }

  /** Packets through the audio cipher, one after the other. */
  method EncryptPackets(aes: AesCtr, packets: seq<seq<bv8>>) returns (out: seq<bv8>)
    requires aes.Valid()
    modifies aes, aes.counter, aes.state
    ensures aes.Valid() && aes.pos == old(aes.pos) + |Concat(packets)|
    ensures out == XorChunks(aes.e, aes.iv, old(aes.pos), packets)
  {
    hide XorStream, XorChunks, Concat, BigEndian, Power256, Keys;
    ghost var from := aes.pos;
    out := [];
    NoChunks(aes.e, aes.iv, from);
    for i := 0 to |packets|
      invariant aes.Valid() && aes.pos == from + |Concat(packets[..i])|
      invariant out == XorChunks(aes.e, aes.iv, from, packets[..i])
    {
      assert packets[..i + 1] == packets[..i] + [packets[i]];
      ChunksAppend(aes.e, aes.iv, from, packets[..i], packets[i]);
      ConcatGrows(packets[..i], packets[i]);
      var data := new bv8[|packets[i]|](j requires 0 <= j < |packets[i]| => packets[i][j]);
      assert data[..] == packets[i];
      aes.Encrypt(data);
      out := out + data[..];
    }
    assert packets[..|packets|] == packets;
  }

  /** Packets through the video cipher. */
  method DecryptPackets(video: VideoCipher, packets: seq<seq<bv8>>) returns (out: seq<bv8>)
    requires video.Valid()
    modifies video, video.cipher, video.leftover
    ensures video.Valid() && video.pos == old(video.pos) + |Concat(packets)|
    ensures out == XorChunks(video.cipher.e, video.cipher.iv, old(video.pos), packets)
  {
    hide XorStream, XorChunks, Concat, BigEndian, Power256, Keys;
    ghost var from := video.pos;
    out := [];
    NoChunks(video.cipher.e, video.cipher.iv, from);
    for i := 0 to |packets|
      invariant video.Valid() && video.pos == from + |Concat(packets[..i])|
      invariant out == XorChunks(video.cipher.e, video.cipher.iv, from, packets[..i])
    {
      assert packets[..i + 1] == packets[..i] + [packets[i]];
      ChunksAppend(video.cipher.e, video.cipher.iv, from, packets[..i], packets[i]);
      ConcatGrows(packets[..i], packets[i]);
      var data := new bv8[|packets[i]|](j requires 0 <= j < |packets[i]| => packets[i][j]);
      assert data[..] == packets[i];
      video.Decrypt(data);
      out := out + data[..];
    }
    assert packets[..|packets|] == packets;
  }

  lemma NoChunks(e: BlockCipher, iv: nat, pos: nat)
    ensures XorChunks(e, iv, pos, []) == [] && Concat<bv8>([]) == []
  {
  }

  lemma ConcatGrows<T>(chunks: seq<seq<T>>, next: seq<T>)
    ensures |Concat(chunks + [next])| == |Concat(chunks)| + |next|
  {
    ConcatAppend(chunks, [next]);
    assert [next][1..] == [];
  }

  /** The two ciphers, started alike, turn the same stream into the same bytes, whatever packets each of them sees. */
  method CiphersAgree(aes: AesCtr, video: VideoCipher, a: seq<seq<bv8>>, b: seq<seq<bv8>>)
    returns (x: seq<bv8>, y: seq<bv8>)
    requires aes.Valid() && video.Valid() && aes.state != video.leftover && aes.counter as object != video.leftover
    requires aes.e == video.cipher.e && aes.iv == video.cipher.iv && aes.pos == video.pos
    requires Concat(a) == Concat(b)
    modifies aes, aes.counter, aes.state, video, video.cipher, video.leftover
    ensures aes.Valid() && video.Valid() && aes.pos == video.pos
    ensures x == y == XorStream(aes.e, aes.iv, old(aes.pos), Concat(a))
  {
    hide XorStream, XorChunks, Concat, BigEndian, Power256, Keys;
    ChunkedIsWhole(aes.e, aes.iv, aes.pos, a);
    ChunkedIsWhole(aes.e, aes.iv, aes.pos, b);
    x := EncryptPackets(aes, a);
    y := DecryptPackets(video, b);
  }
}
