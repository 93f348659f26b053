/**
 * The SRP-6a exchange of pair-setup (sections 2.5.3 and 2.6 of RFC 5054): the server's messages and state, the
 * client of the mock pairing, and their agreement. The hash is any function to 64 bytes; the group is any modulus.
 */
module Srp {
  import opened Common
  import opened Endian
  import opened Powers
  import opened Modular
  import opened Tlv

  const METHOD: byte := 0
  const SALT: byte := 2
  const PUBLIC_KEY: byte := 3
  const PROOF: byte := 4
  const STATE: byte := 6
  const ERROR: byte := 7
  const FLAGS: byte := 19

  const PAIR_SETUP: byte := 0
  const TRANSIENT_FLAG: byte := 0x10
  const AUTHENTICATION_ERROR: byte := 2

  // "Pair-Setup", ":" and the fixed PIN of transient pairing, "3939"
  const USERNAME: seq<byte> := [80, 97, 105, 114, 45, 83, 101, 116, 117, 112]
  const COLON: seq<byte> := [58]
  const TRANSIENT_PIN: seq<byte> := [51, 57, 51, 57]

  type Digest = d: seq<byte> | |d| == 64 witness seq(64, _ => 0)

  /** The hash, and the group: a modulus, a generator and the length numbers are padded to. */
  datatype Suite = Suite(hash: seq<byte> -> Digest, n: nat, g: nat, len: nat)

  // ---------------------------------------------------------------------------------------------
  // Powers modulo n
  // ---------------------------------------------------------------------------------------------

  function Pow(b: nat, e: nat): nat
  {
    if e == 0 then 1 else b * Pow(b, e - 1)
  }

  function ModPow(b: nat, e: nat, n: nat): (r: nat)
    requires n > 0
    ensures r < n
  {
    Pow(b, e) % n
  }

  lemma {:induction false} PowAdd(b: nat, i: nat, j: nat)
    ensures Pow(b, i + j) == Pow(b, i) * Pow(b, j)
    decreases i
  {
    if i == 0 {
    } else {
      PowAdd(b, i - 1, j);
      Associate(b, Pow(b, i - 1), Pow(b, j));
    }
  }

  lemma {:induction false} PowTimes(b: nat, i: nat, j: nat)
    ensures Pow(Pow(b, i), j) == Pow(b, i * j)
    decreases j
  {
    if j == 0 {
    } else {
      PowTimes(b, i, j - 1);
      PowAdd(b, i, i * (j - 1));
      assert i + i * (j - 1) == i * j;
    }
  }

  lemma {:induction false} PowMod(b: nat, e: nat, n: nat)
    requires n > 0
    ensures Pow(b % n, e) % n == Pow(b, e) % n
    decreases e
  {
    if e == 0 {
    } else {
      PowMod(b, e - 1, n);
      ModMul(b, Pow(b % n, e - 1), n);
      ModMulRight(b, Pow(b % n, e - 1), Pow(b, e - 1), n);
    }
  }

  /** Factors that leave the same remainder may be exchanged. */
  lemma ModMulRight(a: int, x: int, y: int, m: int)
    requires m > 0 && x % m == y % m
    ensures (a * x) % m == (a * y) % m
  {
    ModMul(x, a, m);
    ModMul(y, a, m);
    assert a * x == x * a && a * y == y * a;
  }

  // ---------------------------------------------------------------------------------------------
  // The key agreement
  // ---------------------------------------------------------------------------------------------

  /** B: the verifier, blinded by the server's power. */
  function ServerPublic(n: nat, g: nat, k: nat, v: nat, b: nat): (r: nat)
    requires n > 0
    ensures r < n
  {
    ((k * v) % n + ModPow(g, b, n)) % n
  }

  function ServerSecret(n: nat, bigA: nat, v: nat, u: nat, b: nat): nat
    requires n > 0
  {
    ModPow((bigA * ModPow(v, u, n)) % n, b, n)
  }

  function ClientSecret(n: nat, g: nat, k: nat, bigB: nat, x: nat, u: nat, a: nat): nat
    requires n > 0
  {
    var base := (bigB + n - (k * ModPow(g, x, n)) % n) % n;
    ModPow(base, a + u * x, n)
  }

  /** Taking the verifier off again leaves the server's power. */
  lemma Unblinded(n: nat, g: nat, k: nat, v: nat, b: nat)
    requires n > 0
    ensures (ServerPublic(n, g, k, v, b) + n - (k * v) % n) % n == ModPow(g, b, n)
  {
    hide ModPow;
    Cancel((k * v) % n, ModPow(g, b, n), n);
  }

  lemma Cancel(c: int, p: int, n: int)
    requires 0 <= c < n && 0 <= p < n
    ensures ((c + p) % n + n - c) % n == p
  {
    if c + p < n {
      SplitAt(0, c + p, n);
      SplitAt(1, p, n);
    } else {
      SplitAt(1, c + p - n, n);
      SplitAt(0, p, n);
    }
  }

  lemma PowerOfPower(n: nat, g: nat, i: nat, j: nat)
    requires n > 0
    ensures ModPow(ModPow(g, i, n), j, n) == Pow(g, i * j) % n
  {
    PowMod(Pow(g, i), j, n);
    PowTimes(g, i, j);
  }

  lemma ProductOfPowers(n: nat, g: nat, i: nat, j: nat)
    requires n > 0
    ensures (ModPow(g, i, n) * (Pow(g, j) % n)) % n == ModPow(g, i + j, n)
  {
    hide Pow;
    var p, q := Pow(g, i), Pow(g, j);
    ModMulRight(p % n, q % n, q, n);
    ModMul(p, q, n);
    PowAdd(g, i, j);
  }

  lemma ServerExponent(n: nat, g: nat, x: nat, u: nat, a: nat, b: nat)
    requires n > 0
    ensures ServerSecret(n, ModPow(g, a, n), ModPow(g, x, n), u, b) == Pow(g, (a + x * u) * b) % n
  {
    hide Pow, ModPow;
    PowerOfPower(n, g, x, u);
    ProductOfPowers(n, g, a, x * u);
    PowerOfPower(n, g, a + x * u, b);
  }

  /** Both sides compute the same secret, for every modulus, generator and choice of exponents. */
  lemma Agreement(n: nat, g: nat, k: nat, x: nat, u: nat, a: nat, b: nat)
    requires n > 0
    ensures var v := ModPow(g, x, n);
            ServerSecret(n, ModPow(g, a, n), v, u, b) == ClientSecret(n, g, k, ServerPublic(n, g, k, v, b), x, u, a)
  {
    hide Pow, ModPow, ServerSecret, ServerPublic;
    Unblinded(n, g, k, ModPow(g, x, n), b);
    PowerOfPower(n, g, b, a + u * x);
    ServerExponent(n, g, x, u, a, b);
    SameExponent(a, b, u, x);
  }

  lemma SameExponent(a: nat, b: nat, u: nat, x: nat)
    ensures (a + x * u) * b == b * (a + u * x)
  {
    assert x * u == u * x;
  }

  // ---------------------------------------------------------------------------------------------
  // Numbers and hashes
  // ---------------------------------------------------------------------------------------------

  /** The shortest big-endian form; zero is one byte. */
  function ToBytes(v: nat): (r: seq<byte>)
    ensures BigEndian(r) == v && r != []
  {
    if v < 256 then
      assert [v as byte][..0] == [];
      [v]
    else
      var r := ToBytes(v / 256) + [v % 256];
      assert r[..|r| - 1] == ToBytes(v / 256);
      r
  }

  function Padded(v: nat, len: nat): (r: seq<byte>)
    ensures BigEndian(r) == v && |r| >= len
  {
    var b := ToBytes(v);
    if |b| >= len then b else
    LeadingZeros(len - |b|, b);
    seq(len - |b|, _ => 0) + b
  }

  lemma {:induction false} LeadingZeros(k: nat, b: seq<byte>)
    ensures BigEndian(seq(k, _ => 0) + b) == BigEndian(b)
    decreases k, |b|
  {
    var z: seq<byte> := seq(k, _ => 0);
    if b != [] {
      LeadingZeros(k, b[..|b| - 1]);
      assert (z + b)[..|z + b| - 1] == z + b[..|b| - 1];
    } else if k != 0 {
      LeadingZeros(k - 1, []);
      assert z + b == z;
      assert z[..k - 1] == seq(k - 1, _ => 0) + [];
    } else {
      assert z + b == [];
    }
  }

  function HashPair(s: Suite, a: nat, b: nat): nat
  {
    BigEndian(s.hash(Padded(a, s.len) + Padded(b, s.len)))
  }

  function Multiplier(s: Suite): nat
  {
    HashPair(s, s.n, s.g)
  }

  function PasswordExponent(s: Suite, salt: nat, pin: seq<byte>): nat
  {
    BigEndian(s.hash(ToBytes(salt) + s.hash(USERNAME + COLON + pin)))
  }

  function XorDigests(a: Digest, b: Digest): seq<byte>
  {
    seq(64, i requires 0 <= i < 64 => (a[i] as bv8 ^ b[i] as bv8) as int)
  }

  /** What the client's proof hashes before the session key. */
  function ProofPrefix(s: Suite, salt: nat, bigA: nat, bigB: nat): seq<byte>
  {
    XorDigests(s.hash(ToBytes(s.n)), s.hash(ToBytes(s.g))) + s.hash(USERNAME)
      + ToBytes(salt) + ToBytes(bigA) + ToBytes(bigB)
  }

  function ClientProof(s: Suite, salt: nat, bigA: nat, bigB: nat, key: seq<byte>): Digest
  {
    s.hash(ProofPrefix(s, salt, bigA, bigB) + key)
  }

  function ServerProof(s: Suite, bigA: nat, proof: seq<byte>, key: seq<byte>): Digest
  {
    s.hash(ToBytes(bigA) + proof + key)
  }

  // ---------------------------------------------------------------------------------------------
  // The server
  // ---------------------------------------------------------------------------------------------

  datatype Server = Server(
    salt: seq<byte>, v: nat, b: nat, bigB: nat, sessionKey: seq<byte>, proof: seq<byte>,
    transient: bool, allowTransient: bool, verified: bool)

  function PinOf(pin: Option<seq<byte>>): seq<byte>
  {
    if pin.Some? then pin.value else TRANSIENT_PIN
  }

  function NewServer(s: Suite, pin: Option<seq<byte>>, salt: seq<byte>, b: nat): Server
    requires s.n > 0
  {
    var x := PasswordExponent(s, BigEndian(salt), PinOf(pin));
    var v := ModPow(s.g, x, s.n);
    Server(salt, v, b, ServerPublic(s.n, s.g, Multiplier(s), v, b), [], [], false, pin == None, false)
  }

  /** The first message chooses the kind of pairing; nothing when it is refused. */
  function ProcessM1(srv: Server, data: seq<byte>): Option<Server>
  {
    var tlv := Decode(data);
    if tlv == None || Get(tlv.value, METHOD) != Some([PAIR_SETUP]) then None else
    var transient := Get(tlv.value, FLAGS) == Some([TRANSIENT_FLAG]);
    if transient && !srv.allowTransient then None else Some(srv.(transient := transient))
  }

  function M2Entries(s: Suite, srv: Server): seq<Entry>
  {
    [Entry(STATE, [2]), Entry(SALT, srv.salt), Entry(PUBLIC_KEY, Padded(srv.bigB, s.len))]
  }

  function BuildM2(s: Suite, srv: Server): seq<byte>
  {
    Encode(M2Entries(s, srv))
  }

  function SessionKey(s: Suite, srv: Server, bigA: nat): Digest
    requires s.n > 0
  {
    s.hash(ToBytes(ServerSecret(s.n, bigA, srv.v, HashPair(s, bigA, srv.bigB), srv.b)))
  }

  /** The client's public key and proof, when the message carries acceptable ones. */
  function M3Fields(s: Suite, data: seq<byte>): Option<(nat, seq<byte>)>
    requires s.n > 0
  {
    var tlv := Decode(data);
    if tlv == None then None else
    var pk, proof := Get(tlv.value, PUBLIC_KEY), Get(tlv.value, PROOF);
    if pk == None || proof == None || |proof.value| != 64 || BigEndian(pk.value) % s.n == 0 then None
    else Some((BigEndian(pk.value), proof.value))
  }

  /** The third message proves that the client knows the PIN: nothing on a bad message, else the verdict. */
  function ProcessM3(s: Suite, srv: Server, data: seq<byte>): (Server, Option<bool>)
    requires s.n > 0
  {
    match M3Fields(s, data)
    case None => (srv, None)
    case Some((bigA, proof)) =>
      var key := SessionKey(s, srv, bigA);
      var expected := ClientProof(s, BigEndian(srv.salt), bigA, srv.bigB, key);
      if proof != expected then (srv.(sessionKey := key, verified := false), Some(false))
      else (srv.(sessionKey := key, proof := ServerProof(s, bigA, expected, key), verified := true), Some(true))
  }

  function M4Entries(srv: Server): seq<Entry>
  {
    [Entry(STATE, [4]), if srv.verified then Entry(PROOF, srv.proof) else Entry(ERROR, [AUTHENTICATION_ERROR])]
  }

  function BuildM4(srv: Server): seq<byte>
  {
    Encode(M4Entries(srv))
  }

  // ---------------------------------------------------------------------------------------------
  // The client
  // ---------------------------------------------------------------------------------------------

  /** What a client makes of the second message: the third message, its session key and the proof it expects back. */
  datatype Client = Client(m3: seq<byte>, key: Digest, expects: Digest)

  function RunClient(s: Suite, pin: seq<byte>, a: nat, salt: seq<byte>, publicKey: seq<byte>): Client
    requires s.n > 0
  {
    var bigA, bigB, saltNumber := ModPow(s.g, a, s.n), BigEndian(publicKey), BigEndian(salt);
    var x := PasswordExponent(s, saltNumber, pin);
    var secret := ClientSecret(s.n, s.g, Multiplier(s), bigB, x, HashPair(s, bigA, bigB), a);
    var key := s.hash(ToBytes(secret));
    var proof := ClientProof(s, saltNumber, bigA, bigB, key);
    Client(Encode(M3Entries(bigA, proof)), key, ServerProof(s, bigA, proof, key))
  }

  function M3Entries(bigA: nat, proof: seq<byte>): seq<Entry>
  {
    [Entry(STATE, [3]), Entry(PUBLIC_KEY, ToBytes(bigA)), Entry(PROOF, proof)]
  }

  /** The server's public values are those of a PIN; every message keeps this. */
  predicate Issued(s: Suite, pin: seq<byte>, srv: Server)
    requires s.n > 0
  {
    && srv.v == ModPow(s.g, PasswordExponent(s, BigEndian(srv.salt), pin), s.n)
    && srv.bigB == ServerPublic(s.n, s.g, Multiplier(s), srv.v, srv.b)
  }

  lemma NewIsIssued(s: Suite, pin: Option<seq<byte>>, salt: seq<byte>, b: nat)
    requires s.n > 0
    ensures Issued(s, PinOf(pin), NewServer(s, pin, salt, b))
  {
    hide PasswordExponent, ModPow, ServerPublic, Multiplier;
  }

  lemma IssuedKept(s: Suite, pin: seq<byte>, srv: Server, data: seq<byte>)
    requires s.n > 0 && Issued(s, pin, srv)
    ensures Issued(s, pin, ProcessM3(s, srv, data).0)
    ensures ProcessM1(srv, data).Some? ==> Issued(s, pin, ProcessM1(srv, data).value)
  {
    hide PasswordExponent, ModPow, ServerPublic, Multiplier, M3Fields, SessionKey;
  }

  lemma ThreeEntries(a: Entry, b: Entry, c: Entry)
    requires a.tag != b.tag && a.tag != c.tag && b.tag != c.tag
    ensures Decode(Encode([a, b, c])) == Some([a, b, c])
    ensures Get([a, b, c], b.tag) == Some(b.value) && Get([a, b, c], c.tag) == Some(c.value)
  {
    hide Decode, Encode;
    DistinctTags([a, b, c]);
    assert [a, b, c][1..] == [b, c] && [b, c][1..] == [c];
    assert Get([b, c], c.tag) == Get([c], c.tag) == Some(c.value);
  }

  /** The second message carries the salt and B. */
  lemma M2Carries(s: Suite, srv: Server)
    ensures var m2 := Decode(BuildM2(s, srv));
            && m2.Some? && Get(m2.value, SALT) == Some(srv.salt)
            && Get(m2.value, PUBLIC_KEY) == Some(Padded(srv.bigB, s.len))
            && BigEndian(Padded(srv.bigB, s.len)) == srv.bigB
  {
    hide Decode, Encode, Padded;
    var e := M2Entries(s, srv);
    ThreeEntries(e[0], e[1], e[2]);
  }

  lemma M3Carries(s: Suite, bigA: nat, proof: Digest)
    requires 0 < bigA < s.n
    ensures M3Fields(s, Encode(M3Entries(bigA, proof))) == Some((bigA, proof))
  {
    hide Decode, Encode, ToBytes;
    var e := M3Entries(bigA, proof);
    ThreeEntries(e[0], e[1], e[2]);
  }

  /** The fourth message carries the server's proof, or an error when the client was not accepted. */
  lemma M4Carries(srv: Server)
    ensures var m4 := Decode(BuildM4(srv));
            && m4.Some? && Get(m4.value, PROOF) == (if srv.verified then Some(srv.proof) else None)
  {
    hide Decode, Encode;
    var e := M4Entries(srv);
    DistinctTags(e);
    assert e[1..] == [e[1]];
  }

  lemma SameKey(s: Suite, pin: seq<byte>, a: nat, srv: Server)
    requires s.n > 0 && Issued(s, pin, srv)
    ensures RunClient(s, pin, a, srv.salt, Padded(srv.bigB, s.len)).key == SessionKey(s, srv, ModPow(s.g, a, s.n))
  {
    hide PasswordExponent, ModPow, ServerPublic, Multiplier, ServerSecret, ClientSecret, Padded, ToBytes, BigEndian,
      Encode, HashPair, ServerProof, ClientProof, M3Entries;
    var x := PasswordExponent(s, BigEndian(srv.salt), pin);
    Agreement(s.n, s.g, Multiplier(s), x, HashPair(s, ModPow(s.g, a, s.n), srv.bigB), a, srv.b);
  }

  /**
   * A client that knows the PIN is accepted, whatever the exponents and whatever was tried on this server before:
   * both sides then have the same session key, and the fourth message carries the proof the client expects.
   */
  lemma HonestClientAccepted(s: Suite, pin: seq<byte>, a: nat, srv: Server, m2: seq<Entry>, salt: seq<byte>,
                             publicKey: seq<byte>)
    requires s.n > 0 && Issued(s, pin, srv) && ModPow(s.g, a, s.n) != 0
    requires Decode(BuildM2(s, srv)) == Some(m2) && Get(m2, SALT) == Some(salt)
    requires Get(m2, PUBLIC_KEY) == Some(publicKey)
    ensures var c := RunClient(s, pin, a, salt, publicKey);
            var (srv', accepted) := ProcessM3(s, srv, c.m3);
            accepted == Some(true) && srv'.sessionKey == c.key && srv'.proof == c.expects && srv'.verified
  {
    hide Decode, Encode, Padded, RunClient, BigEndian, SessionKey, ClientProof, ServerProof, M3Fields, ModPow, BuildM2,
      Issued, M3Entries, Get;
    M2Carries(s, srv);
    SameKey(s, pin, a, srv);
    var bigA := ModPow(s.g, a, s.n);
    var c := RunClient(s, pin, a, salt, publicKey);
    var proof := ClientProof(s, BigEndian(srv.salt), bigA, srv.bigB, c.key);
    ClientMessages(s, pin, a, salt, publicKey);
    M3Carries(s, bigA, proof);
  }

  lemma ClientMessages(s: Suite, pin: seq<byte>, a: nat, salt: seq<byte>, publicKey: seq<byte>)
    requires s.n > 0
    ensures var c := RunClient(s, pin, a, salt, publicKey); var bigA := ModPow(s.g, a, s.n);
            var proof := ClientProof(s, BigEndian(salt), bigA, BigEndian(publicKey), c.key);
            c.m3 == Encode(M3Entries(bigA, proof)) && c.expects == ServerProof(s, bigA, proof, c.key)
  {
    hide Encode, ClientProof, ServerProof, M3Entries, ClientSecret, PasswordExponent, Multiplier, HashPair;
  }

  predicate Collide(s: Suite, x: seq<byte>, y: seq<byte>)
  {
    x != y && s.hash(x) == s.hash(y)
  }

  /** Conversely, an accepted client used the server's session key, or its proof is a collision of the hash. */
  lemma AcceptedKnowsKey(s: Suite, srv: Server, data: seq<byte>, key: seq<byte>)
    requires s.n > 0 && ProcessM3(s, srv, data).1 == Some(true)
    requires var (bigA, proof) := M3Fields(s, data).value;
             proof == ClientProof(s, BigEndian(srv.salt), bigA, srv.bigB, key)
    ensures var mine := ProcessM3(s, srv, data).0.sessionKey;
            var prefix := ProofPrefix(s, BigEndian(srv.salt), M3Fields(s, data).value.0, srv.bigB);
            key == mine || Collide(s, prefix + key, prefix + mine)
  {
    hide M3Fields, SessionKey, ProofPrefix;
    var prefix := ProofPrefix(s, BigEndian(srv.salt), M3Fields(s, data).value.0, srv.bigB);
    var mine := ProcessM3(s, srv, data).0.sessionKey;
    assert (prefix + key)[|prefix|..] == key && (prefix + mine)[|prefix|..] == mine;
  }

  // ---------------------------------------------------------------------------------------------
  // The object
  // ---------------------------------------------------------------------------------------------

  class SrpServer {
    const s: Suite
    const salt: seq<byte>
    const v: nat
    const b: nat
    const bigB: nat
    const allowTransient: bool
    var sessionKey: seq<byte>
    var proof: seq<byte>
    var transient: bool
    var verified: bool

    ghost function Value(): Server
      reads this
    {
      Server(salt, v, b, bigB, sessionKey, proof, transient, allowTransient, verified)
    }

    constructor (s: Suite, pin: Option<seq<byte>>, salt: seq<byte>, b: nat)
      requires s.n > 0
      ensures this.s == s && Value() == NewServer(s, pin, salt, b)
    {
      hide PasswordExponent, ModPow, ServerPublic, Multiplier;
      var x := PasswordExponent(s, BigEndian(salt), PinOf(pin));
      var verifier := ModPow(s.g, x, s.n);
      this.s, this.salt, this.v, this.b, allowTransient := s, salt, verifier, b, pin == None;
      bigB := ServerPublic(s.n, s.g, Multiplier(s), verifier, b);
      sessionKey, proof, transient, verified := [], [], false, false;
    }

    method First(data: seq<byte>) returns (ok: bool)
      modifies this`transient
      ensures ok == ProcessM1(old(Value()), data).Some?
      ensures ok ==> Value() == ProcessM1(old(Value()), data).value
    {
      var tlv := Decode(data);
      if tlv == None || Get(tlv.value, METHOD) != Some([PAIR_SETUP]) {
        return false;
      }
      transient := Get(tlv.value, FLAGS) == Some([TRANSIENT_FLAG]);
      ok := !(transient && !allowTransient);
    }

    /** The reply to the first message. */
    method Second() returns (m: seq<byte>)
      ensures m == BuildM2(s, Value())
    {
      hide Encode, Padded;
      var values := new TlvValues();
      values.Add(STATE, [2]);
      values.Add(SALT, salt);
      values.Add(PUBLIC_KEY, Padded(bigB, s.len));
      assert values.entries == M2Entries(s, Value());
      m := values.EncodeBytes();
    }

    method Third(data: seq<byte>) returns (accepted: Option<bool>)
      requires s.n > 0
      modifies this`sessionKey, this`proof, this`verified
      ensures (Value(), accepted) == ProcessM3(s, old(Value()), data)
    {
      hide M3Fields, ClientProof, ServerProof, SessionKey;
      var fields := M3Fields(s, data);
      if fields == None {
        return None;
      }
      var (bigA, given) := fields.value;
      KeyOfFields(s, Value(), bigA);
      sessionKey := s.hash(ToBytes(ServerSecret(s.n, bigA, v, HashPair(s, bigA, bigB), b)));
      var expected := ClientProof(s, BigEndian(salt), bigA, bigB, sessionKey);
      if given != expected {
        verified := false;
        return Some(false);
      }
      proof := ServerProof(s, bigA, expected, sessionKey);
      verified := true;
      return Some(true);
    }

    /** The reply to the third message: the server's proof, or an error. */
    method Fourth() returns (m: seq<byte>)
      ensures m == BuildM4(Value())
    {
      hide Encode;
      var values := new TlvValues();
      values.Add(STATE, [4]);
      if verified {
        values.Add(PROOF, proof);
      } else {
        values.Add(ERROR, [AUTHENTICATION_ERROR]);
      }
      assert values.entries == M4Entries(Value());
      m := values.EncodeBytes();
    }
  }

  lemma KeyOfFields(s: Suite, srv: Server, bigA: nat)
    requires s.n > 0
    ensures SessionKey(s, srv, bigA)
         == s.hash(ToBytes(ServerSecret(s.n, bigA, srv.v, HashPair(s, bigA, srv.bigB), srv.b)))
  {
  }
}
