/**
 * Pairing and the switch to encryption on one connection, as a machine over whole runs of requests. Every step is
 * logged; what the log can look like is what the theorems are about.
 */
module Pairing {
  import opened Common
  import opened Endian
  import opened Tlv
  import opened Srp

  const IDENTIFIER: byte := 1
  const ENCRYPTED_DATA: byte := 5
  const SIGNATURE: byte := 10

  type Bytes = seq<byte>

  datatype Purpose = SetupMessage | SetupSign | VerifyMessage

  /** The foreign functions: any will do. */
  datatype Crypto = Crypto(
    suite: Suite,
    derive: (Bytes, Purpose) -> Option<Bytes>,
    open: (Bytes, Purpose, Bytes) -> Option<Bytes>,
    validKey: Bytes -> bool,
    verify: (Bytes, Bytes, Bytes) -> bool,
    utf8: Bytes -> bool,
    publicOf: Bytes -> Bytes,
    sharedSecret: (Bytes, Bytes) -> Bytes,
    setupIdentity: Bytes -> Option<Bytes>,
    verifyIdentity: (Bytes, Bytes, Bytes) -> Option<Bytes>,
    channel: Bytes -> Option<Bytes>)

  // ---------------------------------------------------------------------------------------------
  // Messages
  // ---------------------------------------------------------------------------------------------

  /** The inner entries of an encrypted message. */
  function OpenInner(c: Crypto, key: Bytes, purpose: Purpose, es: seq<Entry>): Option<seq<Entry>>
  {
    var enc, derived := Get(es, ENCRYPTED_DATA), c.derive(key, purpose);
    if enc == None || derived == None then None else
    var plain := c.open(derived.value, purpose, enc.value);
    if plain == None then None else Decode(plain.value)
  }

  /** The controller that the fifth setup message proves: its identifier and long-term key. */
  function SetupController(c: Crypto, key: Bytes, data: Bytes): Option<(Bytes, Bytes)>
  {
    var tlv := Decode(data);
    if tlv == None then None else
    var inner := OpenInner(c, key, SetupMessage, tlv.value);
    if inner == None then None else
    var id, sig, pk := Get(inner.value, IDENTIFIER), Get(inner.value, SIGNATURE), Get(inner.value, PUBLIC_KEY);
    var x := c.derive(key, SetupSign);
    if id == None || sig == None || pk == None || x == None then None
    else if |pk.value| != 32 || !c.validKey(pk.value) || |sig.value| != 64 then None
    else if !c.verify(pk.value, x.value + id.value + pk.value, sig.value) || !c.utf8(id.value) then None
    else Some((id.value, pk.value))
  }

  datatype Verify = Verify(serverPk: Bytes, clientPk: Bytes, secret: Bytes, completed: bool)

  /** The first verify message starts an exchange of ephemeral keys. */
  function StartVerify(c: Crypto, sk: Bytes, data: Bytes): Option<(Verify, Bytes)>
  {
    var tlv := Decode(data);
    if tlv == None || Get(tlv.value, STATE) != Some([1]) then None else
    var pk := Get(tlv.value, PUBLIC_KEY);
    if pk == None || |pk.value| != 32 then None else
    var secret := c.sharedSecret(sk, pk.value);
    var enc := c.verifyIdentity(c.publicOf(sk), pk.value, secret);
    if enc == None then None else
    Some((Verify(c.publicOf(sk), pk.value, secret, false),
          Encode([Entry(STATE, [2]), Entry(PUBLIC_KEY, c.publicOf(sk)), Entry(ENCRYPTED_DATA, enc.value)])))
  }

  /** The controller that the third verify message proves: its identifier, its stored key and its signature. */
  function VerifiedController(c: Crypto, v: Verify, store: map<Bytes, Bytes>, data: Bytes)
    : Option<(Bytes, Bytes, Bytes)>
  {
    var tlv := Decode(data);
    if tlv == None || Get(tlv.value, STATE) != Some([3]) then None else
    var inner := OpenInner(c, v.secret, VerifyMessage, tlv.value);
    if inner == None then None else
    var id, sig := Get(inner.value, IDENTIFIER), Get(inner.value, SIGNATURE);
    if id == None || sig == None || !c.utf8(id.value) || id.value !in store then None else
    var pk := store[id.value];
    if !c.validKey(pk) || |sig.value| != 64 || !c.verify(pk, v.clientPk + id.value + v.serverPk, sig.value) then None
    else Some((id.value, pk, sig.value))
  }

  // ---------------------------------------------------------------------------------------------
  // The connection
  // ---------------------------------------------------------------------------------------------

  datatype State = State(
    store: map<Bytes, Bytes>,
    srp: Option<Server>,
    verify: Option<Verify>,
    videoSecret: Option<Bytes>,
    secret: Option<Bytes>,
    isAp2: bool,
    pending: Option<Bytes>,
    cipher: Option<Bytes>)

  /** A request; salts and private exponents are drawn when it needs them. */
  datatype Request =
    | PairSetup(data: Option<Bytes>, salt: Bytes, b: nat)
    | PairVerify(data: Option<Bytes>, sk: Bytes)
    | Other

  /** What a request did, as far as pairing is concerned. */
  datatype Outcome =
    | Nothing
    | Created(transient: bool)
    | Judged(accepted: bool, transient: bool, key: Bytes)
    | Stored(key: Bytes, data: Bytes, id: Bytes, pk: Bytes)
    | Started(v: Verify)
    | Completed(id: Bytes, pk: Bytes, sig: Bytes, v: Verify)

  datatype Reply = Legacy | NoBody | Body(bytes: Bytes)

  datatype Handled = Handled(state: State, outcome: Outcome, reply: Reply)

  function ErrorReply(state: byte): Reply
  {
    Body(Encode([Entry(STATE, [state]), Entry(ERROR, [AUTHENTICATION_ERROR])]))
  }

  /** The step a message asks for: none without a state entry, and then the legacy protocol answers. */
  function StepOf(data: Bytes): Option<Bytes>
  {
    var tlv := Decode(data);
    if tlv == None then None else Get(tlv.value, STATE)
  }

  function SetupFirst(c: Crypto, pin: Option<Bytes>, st: State, data: Bytes, salt: Bytes, b: nat): Handled
    requires c.suite.n > 0
  {
    match ProcessM1(NewServer(c.suite, pin, salt, b), data)
    case None => Handled(st, Nothing, ErrorReply(2))
    case Some(srv) => Handled(st.(srp := Some(srv)), Created(srv.transient), Body(BuildM2(c.suite, srv)))
  }

  function SetupThird(c: Crypto, st: State, data: Bytes): Handled
    requires c.suite.n > 0
  {
    if st.srp == None then Handled(st, Nothing, NoBody) else
    var (srv, ok) := ProcessM3(c.suite, st.srp.value, data);
    if ok == None then Handled(st, Nothing, NoBody) else
    var st1 := st.(srp := Some(srv));
    var st2 := if ok.value && srv.transient then st1.(secret := Some(srv.sessionKey), isAp2 := true) else st1;
    Handled(st2, Judged(ok.value, srv.transient, srv.sessionKey), Body(BuildM4(srv)))
  }

  function SetupFifth(c: Crypto, st: State, data: Bytes): Handled
  {
    if st.srp == None then Handled(st, Nothing, NoBody) else
    var srv := st.srp.value;
    if !srv.verified || srv.transient then Handled(st, Nothing, ErrorReply(6)) else
    match SetupController(c, srv.sessionKey, data)
    case None => Handled(st, Nothing, ErrorReply(6))
    case Some((id, pk)) =>
      var m6 := c.setupIdentity(srv.sessionKey);
      if m6 == None then Handled(st, Nothing, NoBody)
      else Handled(st.(store := st.store[id := pk]), Stored(srv.sessionKey, data, id, pk), Body(m6.value))
  }

  function HandleSetup(c: Crypto, pin: Option<Bytes>, st: State, data: Bytes, salt: Bytes, b: nat): Handled
    requires c.suite.n > 0
  {
    var step := StepOf(data);
    if step == None then Handled(st, Nothing, Legacy)
    else if step.value == [] then Handled(st, Nothing, NoBody)
    else if step.value[0] == 1 then SetupFirst(c, pin, st, data, salt, b)
    else if step.value[0] == 3 then SetupThird(c, st, data)
    else if step.value[0] == 5 then SetupFifth(c, st, data)
    else Handled(st, Nothing, NoBody)
  }

  function VerifyFirst(c: Crypto, st: State, data: Bytes, sk: Bytes): Handled
  {
    match StartVerify(c, sk, data)
    case None => Handled(st, Nothing, NoBody)
    case Some((v, m2)) => Handled(st.(verify := Some(v), videoSecret := Some(v.secret)), Started(v), Body(m2))
  }

  function VerifyThird(c: Crypto, st: State, data: Bytes): Handled
  {
    if st.verify == None then Handled(st, Nothing, NoBody) else
    match VerifiedController(c, st.verify.value, st.store, data)
    case None => Handled(st, Nothing, NoBody)
    case Some((id, pk, sig)) =>
      var v := st.verify.value.(completed := true);
      Handled(st.(verify := Some(v), videoSecret := Some(v.secret), secret := Some(v.secret), isAp2 := true),
              Completed(id, pk, sig, v), Body(Encode([Entry(STATE, [4])])))
  }

  function HandleVerify(c: Crypto, st: State, data: Bytes, sk: Bytes): Handled
  {
    var step := StepOf(data);
    if step == None then Handled(st, Nothing, Legacy)
    else if step.value == [] then Handled(st, Nothing, NoBody)
    else if step.value[0] == 1 then VerifyFirst(c, st, data, sk)
    else if step.value[0] == 3 then VerifyThird(c, st, data)
    else Handled(st, Nothing, NoBody)
  }

  function Dispatch(c: Crypto, pin: Option<Bytes>, st: State, r: Request): Handled
    requires c.suite.n > 0
  {
    match r
    case Other => Handled(st, Nothing, Legacy)
    case PairSetup(data, salt, b) =>
      if data == None then Handled(st, Nothing, NoBody) else HandleSetup(c, pin, st, data.value, salt, b)
    case PairVerify(data, sk) =>
      if data == None then Handled(st, Nothing, NoBody) else HandleVerify(c, st, data.value, sk)
  }

  /** A request queues its session secret for after its response, unless the connection is encrypted already. */
  function Queue(st: State): State
  {
    if st.cipher == None && st.secret.Some? then st.(pending := st.secret) else st
  }

  /** After a response the queued secret becomes the cipher. */
  function Activate(c: Crypto, st: State): State
  {
    if st.cipher == None && st.pending.Some? then st.(pending := None, cipher := c.channel(st.pending.value)) else st
  }

  // ---------------------------------------------------------------------------------------------
  // Runs
  // ---------------------------------------------------------------------------------------------

  /** An outcome of the server or exchange with that number, a key put by another connection, or a response. */
  datatype Event =
    | Did(server: nat, outcome: Outcome)
    | Put(id: Bytes, pk: Bytes)
    | Response(encrypted: bool)

  /** `servers` and `exchanges` number the setup servers and verify exchanges created so far. */
  datatype World = World(state: State, servers: nat, exchanges: nat, log: seq<Event>)

  datatype Step = Serve(request: Request) | OtherPut(id: Bytes, pk: Bytes)

  function Record(w: World, h: Handled): World
  {
    match h.outcome
    case Nothing => w.(state := h.state)
    case Created(_) => World(h.state, w.servers + 1, w.exchanges, w.log + [Did(w.servers, h.outcome)])
    case Started(_) => World(h.state, w.servers, w.exchanges + 1, w.log + [Did(w.exchanges, h.outcome)])
    case Completed(_, _, _, _) =>
      w.(state := h.state, log := w.log + [Did(if w.exchanges == 0 then 0 else w.exchanges - 1, h.outcome)])
    case _ => w.(state := h.state, log := w.log + [Did(if w.servers == 0 then 0 else w.servers - 1, h.outcome)])
  }

  function Respond(c: Crypto, w: World): World
  {
    var st := Queue(w.state);
    w.(state := Activate(c, st), log := w.log + [Response(st.cipher.Some?)])
  }

  function Take(c: Crypto, pin: Option<Bytes>, w: World, s: Step): World
    requires c.suite.n > 0
  {
    match s
    case OtherPut(id, pk) => w.(state := w.state.(store := w.state.store[id := pk]), log := w.log + [Put(id, pk)])
    case Serve(r) => Respond(c, Record(w, Dispatch(c, pin, w.state, r)))
  }

  function Run(c: Crypto, pin: Option<Bytes>, w: World, steps: seq<Step>): World
    requires c.suite.n > 0
    decreases |steps|
  {
    if steps == [] then w else Run(c, pin, Take(c, pin, w, steps[0]), steps[1..])
  }

  function Start(store: map<Bytes, Bytes>): World
  {
    World(State(store, None, None, None, None, false, None, None), 0, 0, [])
  }

  // ---------------------------------------------------------------------------------------------
  // What a log says
  // ---------------------------------------------------------------------------------------------

  predicate IsVerdict(e: Event, n: nat)
  {
    e.Did? && e.server == n && e.outcome.Judged?
  }

  /** The last verdict on a setup server. */
  function LastVerdict(log: seq<Event>, n: nat): Option<Outcome>
  {
    if log == [] then None
    else if IsVerdict(log[|log| - 1], n) then Some(log[|log| - 1].outcome)
    else LastVerdict(log[..|log| - 1], n)
  }

  /** The keys in the store. */
  function StoreAfter(store: map<Bytes, Bytes>, log: seq<Event>): map<Bytes, Bytes>
  {
    if log == [] then store else
    var before := StoreAfter(store, log[..|log| - 1]);
    match log[|log| - 1]
    case Put(id, pk) => before[id := pk]
    case Did(_, Stored(_, _, id, pk)) => before[id := pk]
    case _ => before
  }

  /** The session secret: of the last accepted transient setup or completed verify. */
  function SecretAfter(log: seq<Event>): Option<Bytes>
  {
    if log == [] then None else
    match log[|log| - 1]
    case Did(_, Judged(true, true, key)) => Some(key)
    case Did(_, Completed(_, _, _, v)) => Some(v.secret)
    case _ => SecretAfter(log[..|log| - 1])
  }

  /** The cipher: made from the secret at the first response that had one to make it from, and kept. */
  function CipherAfter(c: Crypto, log: seq<Event>): Option<Bytes>
  {
    if log == [] then None else
    var init := log[..|log| - 1];
    var before := CipherAfter(c, init);
    if before.Some? || !log[|log| - 1].Response? || SecretAfter(init) == None then before
    else c.channel(SecretAfter(init).value)
  }

  predicate CreatedIn(log: seq<Event>, n: nat, transient: bool)
  {
    Did(n, Created(transient)) in log
  }

  /** Whether an event may follow a log. */
  predicate Justified(c: Crypto, pin: Option<Bytes>, store: map<Bytes, Bytes>, log: seq<Event>, e: Event)
  {
    match e
    case Did(n, Created(transient)) =>
      (pin.Some? ==> !transient) && forall t: bool :: !CreatedIn(log, n, t)
    case Did(n, Judged(_, transient, _)) =>
      CreatedIn(log, n, transient)
    case Did(n, Stored(key, data, id, pk)) =>
      && CreatedIn(log, n, false) && LastVerdict(log, n) == Some(Judged(true, false, key))
      && SetupController(c, key, data) == Some((id, pk))
    case Did(n, Completed(id, pk, sig, v)) =>
      && Did(n, Started(v.(completed := false))) in log
      && id in StoreAfter(store, log) && StoreAfter(store, log)[id] == pk
      && c.verify(pk, v.clientPk + id + v.serverPk, sig)
    case Response(encrypted) =>
      encrypted == CipherAfter(c, log).Some?
    case _ => true
  }

  predicate AllJustified(c: Crypto, pin: Option<Bytes>, store: map<Bytes, Bytes>, log: seq<Event>)
  {
    log == [] ||
    (&& AllJustified(c, pin, store, log[..|log| - 1])
     && Justified(c, pin, store, log[..|log| - 1], log[|log| - 1]))
  }

  lemma Append(c: Crypto, pin: Option<Bytes>, store: map<Bytes, Bytes>, log: seq<Event>, e: Event)
    requires AllJustified(c, pin, store, log) && Justified(c, pin, store, log, e)
    ensures AllJustified(c, pin, store, log + [e])
  {
    hide Justified;
    assert (log + [e])[..|log|] == log;
  }

  // ---------------------------------------------------------------------------------------------
  // The invariant
  // ---------------------------------------------------------------------------------------------

  predicate ServerKnown(pin: Option<Bytes>, w: World)
  {
    w.state.srp.Some? ==>
      var srv := w.state.srp.value;
      && w.servers > 0 && CreatedIn(w.log, w.servers - 1, srv.transient)
      && (pin.Some? ==> !srv.transient)
      && (srv.verified ==> LastVerdict(w.log, w.servers - 1) == Some(Judged(true, srv.transient, srv.sessionKey)))
  }

  predicate ExchangeKnown(w: World)
  {
    w.state.verify.Some? ==>
      w.exchanges > 0 && Did(w.exchanges - 1, Started(w.state.verify.value.(completed := false))) in w.log
  }

  ghost predicate Numbered(w: World)
  {
    forall n: nat, t: bool :: CreatedIn(w.log, n, t) ==> n < w.servers
  }

  ghost predicate Inv(c: Crypto, pin: Option<Bytes>, store: map<Bytes, Bytes>, w: World)
  {
    && AllJustified(c, pin, store, w.log)
    && ServerKnown(pin, w) && ExchangeKnown(w) && Numbered(w)
    && w.state.store == StoreAfter(store, w.log)
    && w.state.secret == SecretAfter(w.log)
    && w.state.cipher == CipherAfter(c, w.log)
    && w.state.pending == None
  }

  /** What one more event does to everything read from a log. */
  lemma OneMore(c: Crypto, store: map<Bytes, Bytes>, log: seq<Event>, e: Event)
    ensures forall n: nat ::
              LastVerdict(log + [e], n) == if IsVerdict(e, n) then Some(e.outcome) else LastVerdict(log, n)
    ensures forall n: nat, t: bool :: CreatedIn(log + [e], n, t) <==> CreatedIn(log, n, t) || e == Did(n, Created(t))
    ensures StoreAfter(store, log + [e]) == match e
              case Put(id, pk) => StoreAfter(store, log)[id := pk]
              case Did(_, Stored(_, _, id, pk)) => StoreAfter(store, log)[id := pk]
              case _ => StoreAfter(store, log)
    ensures SecretAfter(log + [e]) == match e
              case Did(_, Judged(true, true, key)) => Some(key)
              case Did(_, Completed(_, _, _, v)) => Some(v.secret)
              case _ => SecretAfter(log)
    ensures CipherAfter(c, log + [e]) ==
              if CipherAfter(c, log).Some? || !e.Response? || SecretAfter(log) == None then CipherAfter(c, log)
              else c.channel(SecretAfter(log).value)
  {
    assert (log + [e])[..|log|] == log;
  }

  lemma Kept(log: seq<Event>, e: Event, f: Event)
    ensures f in log ==> f in log + [e]
  {
  }

  /** An event that changes neither servers nor exchanges keeps what is known of them. */
  lemma KnownKept(pin: Option<Bytes>, w: World, e: Event)
    requires ServerKnown(pin, w) && ExchangeKnown(w) && Numbered(w)
    requires e.Response? || e.Put? || (e.Did? && !e.outcome.Created? && !e.outcome.Judged?)
    ensures forall st: State :: st.srp == w.state.srp ==> ServerKnown(pin, w.(state := st, log := w.log + [e]))
    ensures forall st: State :: st.verify == w.state.verify ==> ExchangeKnown(w.(state := st, log := w.log + [e]))
    ensures forall st: State :: Numbered(w.(state := st, log := w.log + [e]))
  {
    hide LastVerdict, CreatedIn, IsVerdict;
    NotAVerdict(w.log, e);
  }

  lemma NotAVerdict(log: seq<Event>, e: Event)
    requires e.Response? || e.Put? || (e.Did? && !e.outcome.Created? && !e.outcome.Judged?)
    ensures forall n: nat :: LastVerdict(log + [e], n) == LastVerdict(log, n)
    ensures forall n: nat, t: bool :: CreatedIn(log + [e], n, t) <==> CreatedIn(log, n, t)
  {
    assert (log + [e])[..|log|] == log;
  }

  lemma FirstCases(c: Crypto, pin: Option<Bytes>, st: State, data: Bytes, salt: Bytes, b: nat)
    requires c.suite.n > 0
    ensures var h := SetupFirst(c, pin, st, data, salt, b);
            || (h.state == st && h.outcome == Nothing)
            || exists srv: Server :: h.state == st.(srp := Some(srv)) && h.outcome == Created(srv.transient)
                                  && !srv.verified && (pin.Some? ==> !srv.transient)
  {
    hide Decode, Get, PasswordExponent, ModPow, ServerPublic, Multiplier, BuildM2, ErrorReply;
    var m1 := ProcessM1(NewServer(c.suite, pin, salt, b), data);
    if m1.Some? {
      assert SetupFirst(c, pin, st, data, salt, b).state == st.(srp := Some(m1.value));
    }
  }

  lemma FirstInv(c: Crypto, pin: Option<Bytes>, store: map<Bytes, Bytes>, w: World, h: Handled, srv: Server)
    requires Inv(c, pin, store, w) && !srv.verified && (pin.Some? ==> !srv.transient)
    requires h.state == w.state.(srp := Some(srv)) && h.outcome == Created(srv.transient)
    ensures Inv(c, pin, store, Record(w, h))
  {
    hide LastVerdict, IsVerdict, StoreAfter, SecretAfter, CipherAfter, AllJustified, CreatedIn;
    var e := Did(w.servers, Created(srv.transient));
    OneMore(c, store, w.log, e);
    assert Justified(c, pin, store, w.log, e);
    Append(c, pin, store, w.log, e);
  }

  lemma ThirdCases(c: Crypto, st: State, data: Bytes)
    requires c.suite.n > 0
    ensures var h := SetupThird(c, st, data);
            || (h.state == st && h.outcome == Nothing)
            || (&& st.srp.Some? && h.state.srp.Some?
                && var srv := h.state.srp.value;
                   && srv.transient == st.srp.value.transient
                   && h.outcome == Judged(srv.verified, srv.transient, srv.sessionKey)
                   && h.state == (if srv.verified && srv.transient
                                  then st.(srp := Some(srv), secret := Some(srv.sessionKey), isAp2 := true)
                                  else st.(srp := Some(srv))))
  {
    hide M3Fields, SessionKey, ClientProof, ServerProof, BuildM4;
  }

  lemma ThirdInv(c: Crypto, pin: Option<Bytes>, store: map<Bytes, Bytes>, w: World, h: Handled, srv: Server)
    requires Inv(c, pin, store, w) && w.state.srp.Some? && srv.transient == w.state.srp.value.transient
    requires h.outcome == Judged(srv.verified, srv.transient, srv.sessionKey)
    requires h.state == (if srv.verified && srv.transient
                         then w.state.(srp := Some(srv), secret := Some(srv.sessionKey), isAp2 := true)
                         else w.state.(srp := Some(srv)))
    ensures Inv(c, pin, store, Record(w, h))
  {
    hide StoreAfter, CipherAfter, AllJustified, LastVerdict, SecretAfter, CreatedIn;
    var e := Did(w.servers - 1, h.outcome);
    OneMore(c, store, w.log, e);
    assert Justified(c, pin, store, w.log, e);
    Append(c, pin, store, w.log, e);
    if w.state.verify.Some? {
      Kept(w.log, e, Did(w.exchanges - 1, Started(w.state.verify.value.(completed := false))));
    }
  }

  lemma FifthCases(c: Crypto, st: State, data: Bytes)
    ensures var h := SetupFifth(c, st, data);
            || (h.state == st && h.outcome == Nothing)
            || (&& st.srp.Some? && st.srp.value.verified && !st.srp.value.transient && h.outcome.Stored?
                && h.outcome.key == st.srp.value.sessionKey
                && SetupController(c, h.outcome.key, h.outcome.data) == Some((h.outcome.id, h.outcome.pk))
                && h.state == st.(store := st.store[h.outcome.id := h.outcome.pk]))
  {
    hide SetupController, ErrorReply;
  }

  lemma FifthInv(c: Crypto, pin: Option<Bytes>, store: map<Bytes, Bytes>, w: World, h: Handled)
    requires Inv(c, pin, store, w) && w.state.srp.Some? && w.state.srp.value.verified && !w.state.srp.value.transient
    requires h.outcome.Stored? && h.outcome.key == w.state.srp.value.sessionKey
    requires SetupController(c, h.outcome.key, h.outcome.data) == Some((h.outcome.id, h.outcome.pk))
    requires h.state == w.state.(store := w.state.store[h.outcome.id := h.outcome.pk])
    ensures Inv(c, pin, store, Record(w, h))
  {
    hide SetupController, CipherAfter, AllJustified, LastVerdict, SecretAfter, StoreAfter, CreatedIn;
    var e := Did(w.servers - 1, h.outcome);
    OneMore(c, store, w.log, e);
    assert Justified(c, pin, store, w.log, e);
    Append(c, pin, store, w.log, e);
    KnownKept(pin, w, e);
  }

  lemma StartInv(c: Crypto, pin: Option<Bytes>, store: map<Bytes, Bytes>, w: World, h: Handled, v: Verify)
    requires Inv(c, pin, store, w) && !v.completed
    requires h.state == w.state.(verify := Some(v), videoSecret := Some(v.secret)) && h.outcome == Started(v)
    ensures Inv(c, pin, store, Record(w, h))
  {
    hide CipherAfter, AllJustified, LastVerdict, SecretAfter, StoreAfter;
    var e := Did(w.exchanges, Started(v));
    OneMore(c, store, w.log, e);
    assert Justified(c, pin, store, w.log, e);
    Append(c, pin, store, w.log, e);
    KnownKept(pin, w, e);
    assert v.(completed := false) == v;
  }

  lemma CompleteInv(c: Crypto, pin: Option<Bytes>, store: map<Bytes, Bytes>, w: World, h: Handled, id: Bytes, pk: Bytes,
                    sig: Bytes)
    requires Inv(c, pin, store, w) && w.state.verify.Some? && id in w.state.store && w.state.store[id] == pk
    requires c.verify(pk, w.state.verify.value.clientPk + id + w.state.verify.value.serverPk, sig)
    requires var v := w.state.verify.value.(completed := true);
             && h.outcome == Completed(id, pk, sig, v)
             && h.state == w.state.(verify := Some(v), videoSecret := Some(v.secret), secret := Some(v.secret),
                                    isAp2 := true)
    ensures Inv(c, pin, store, Record(w, h))
  {
    hide CipherAfter, AllJustified, LastVerdict, StoreAfter, SecretAfter, CreatedIn;
    var e := Did(w.exchanges - 1, h.outcome);
    var started := Did(w.exchanges - 1, Started(w.state.verify.value.(completed := false)));
    OneMore(c, store, w.log, e);
    assert started in w.log;
    assert Justified(c, pin, store, w.log, e);
    Append(c, pin, store, w.log, e);
    KnownKept(pin, w, e);
    Kept(w.log, e, started);
  }

  lemma RespondInv(c: Crypto, pin: Option<Bytes>, store: map<Bytes, Bytes>, w: World)
    requires Inv(c, pin, store, w)
    ensures Inv(c, pin, store, Respond(c, w))
  {
    hide AllJustified, LastVerdict, SecretAfter, StoreAfter, CipherAfter, CreatedIn, ServerKnown, ExchangeKnown,
      Numbered;
    var e := Response(w.state.cipher.Some?);
    OneMore(c, store, w.log, e);
    assert Justified(c, pin, store, w.log, e);
    Append(c, pin, store, w.log, e);
    KnownKept(pin, w, e);
  }

  lemma PutInv(c: Crypto, pin: Option<Bytes>, store: map<Bytes, Bytes>, w: World, id: Bytes, pk: Bytes)
    requires c.suite.n > 0 && Inv(c, pin, store, w)
    ensures Inv(c, pin, store, Take(c, pin, w, OtherPut(id, pk)))
  {
    hide AllJustified, LastVerdict, SecretAfter, StoreAfter, CipherAfter, CreatedIn, ServerKnown, ExchangeKnown,
      Numbered;
    var e := Put(id, pk);
    OneMore(c, store, w.log, e);
    assert Justified(c, pin, store, w.log, e);
    Append(c, pin, store, w.log, e);
    KnownKept(pin, w, e);
  }

  lemma NothingRecorded(w: World, h: Handled)
    requires h.outcome == Nothing && h.state == w.state
    ensures Record(w, h) == w
  {
  }

  lemma SetupInv(c: Crypto, pin: Option<Bytes>, store: map<Bytes, Bytes>, w: World, data: Bytes, salt: Bytes, b: nat)
    requires c.suite.n > 0 && Inv(c, pin, store, w)
    ensures Inv(c, pin, store, Record(w, HandleSetup(c, pin, w.state, data, salt, b)))
  {
    hide Inv, SetupFirst, SetupThird, SetupFifth, StepOf, SetupController, Record;
    FirstCases(c, pin, w.state, data, salt, b);
    ThirdCases(c, w.state, data);
    FifthCases(c, w.state, data);
    var h := HandleSetup(c, pin, w.state, data, salt, b);
    if h.outcome.Created? {
      var srv: Server :| h.state == w.state.(srp := Some(srv)) && h.outcome == Created(srv.transient)
                      && !srv.verified && (pin.Some? ==> !srv.transient);
      FirstInv(c, pin, store, w, h, srv);
    } else if h.outcome.Judged? {
      ThirdInv(c, pin, store, w, h, h.state.srp.value);
    } else if h.outcome.Stored? {
      FifthInv(c, pin, store, w, h);
    } else {
      NothingRecorded(w, h);
    }
  }

  lemma VerifyCases(c: Crypto, st: State, data: Bytes, sk: Bytes)
    ensures var h := HandleVerify(c, st, data, sk);
            || (h.state == st && h.outcome == Nothing)
            || (exists v: Verify :: !v.completed && h.outcome == Started(v)
                                 && h.state == st.(verify := Some(v), videoSecret := Some(v.secret)))
            || (&& st.verify.Some? && h.outcome.Completed?
                && var v := st.verify.value.(completed := true);
                   && h.outcome.v == v && h.outcome.id in st.store && st.store[h.outcome.id] == h.outcome.pk
                   && c.verify(h.outcome.pk, v.clientPk + h.outcome.id + v.serverPk, h.outcome.sig)
                   && h.state == st.(verify := Some(v), videoSecret := Some(v.secret), secret := Some(v.secret),
                                     isAp2 := true))
  {
    hide StepOf, OpenInner, Decode, Get, Encode;
    var start := StartVerify(c, sk, data);
    if start.Some? {
      assert !start.value.0.completed;
    }
  }

  lemma VerifyInv(c: Crypto, pin: Option<Bytes>, store: map<Bytes, Bytes>, w: World, data: Bytes, sk: Bytes)
    requires Inv(c, pin, store, w)
    ensures Inv(c, pin, store, Record(w, HandleVerify(c, w.state, data, sk)))
  {
    hide Inv, HandleVerify;
    VerifyCases(c, w.state, data, sk);
    var h := HandleVerify(c, w.state, data, sk);
    if h.outcome.Started? {
      var v: Verify :| !v.completed && h.outcome == Started(v)
                    && h.state == w.state.(verify := Some(v), videoSecret := Some(v.secret));
      StartInv(c, pin, store, w, h, v);
    } else if h.outcome.Completed? {
      CompleteInv(c, pin, store, w, h, h.outcome.id, h.outcome.pk, h.outcome.sig);
    }
  }

  /** Every step keeps the invariant. */
  lemma StepInv(c: Crypto, pin: Option<Bytes>, store: map<Bytes, Bytes>, w: World, s: Step)
    requires c.suite.n > 0 && Inv(c, pin, store, w)
    ensures Inv(c, pin, store, Take(c, pin, w, s))
  {
    hide Inv, HandleVerify, HandleSetup, Respond;
    if s.OtherPut? {
      PutInv(c, pin, store, w, s.id, s.pk);
    } else {
      match s.request {
        case Other =>
        case PairSetup(data, salt, b) =>
          if data.Some? {
            SetupInv(c, pin, store, w, data.value, salt, b);
          }
        case PairVerify(data, sk) =>
          if data.Some? {
            VerifyInv(c, pin, store, w, data.value, sk);
          }
      }
      RespondInv(c, pin, store, Record(w, Dispatch(c, pin, w.state, s.request)));
    }
  }

  lemma {:induction false} RunInv(c: Crypto, pin: Option<Bytes>, store: map<Bytes, Bytes>, w: World, steps: seq<Step>)
    requires c.suite.n > 0 && Inv(c, pin, store, w)
    ensures Inv(c, pin, store, Run(c, pin, w, steps))
    decreases |steps|
  {
    hide Inv, Take;
    if steps == [] {
    } else {
      StepInv(c, pin, store, w, steps[0]);
      RunInv(c, pin, store, Take(c, pin, w, steps[0]), steps[1..]);
    }
  }

  // ---------------------------------------------------------------------------------------------
  // What no run can do
  // ---------------------------------------------------------------------------------------------

  lemma StartsWell(c: Crypto, pin: Option<Bytes>, store: map<Bytes, Bytes>)
    ensures Inv(c, pin, store, Start(store))
  {
  }

  lemma {:induction false} PrefixJustified(c: Crypto, pin: Option<Bytes>, store: map<Bytes, Bytes>, log: seq<Event>,
                                           j: nat)
    requires AllJustified(c, pin, store, log) && j < |log|
    ensures AllJustified(c, pin, store, log[..j]) && Justified(c, pin, store, log[..j], log[j])
    decreases |log|
  {
    hide Justified;
    if j == |log| - 1 {
    } else {
      PrefixJustified(c, pin, store, log[..|log| - 1], j);
      assert log[..|log| - 1][..j] == log[..j];
    }
  }

  /** The log of a run, and any point in it. */
  lemma RunJustified(c: Crypto, pin: Option<Bytes>, store: map<Bytes, Bytes>, steps: seq<Step>, j: nat)
    requires c.suite.n > 0 && j < |Run(c, pin, Start(store), steps).log|
    ensures var log := Run(c, pin, Start(store), steps).log;
            AllJustified(c, pin, store, log[..j]) && Justified(c, pin, store, log[..j], log[j])
  {
    hide Justified, Run, AllJustified;
    StartsWell(c, pin, store);
    RunInv(c, pin, store, Start(store), steps);
    PrefixJustified(c, pin, store, Run(c, pin, Start(store), steps).log, j);
  }

  /** Where the last verdict on a server was given. */
  lemma {:induction false} VerdictAt(log: seq<Event>, n: nat) returns (i: nat)
    requires LastVerdict(log, n).Some?
    ensures i < |log| && log[i] == Did(n, LastVerdict(log, n).value)
    ensures forall k :: i < k < |log| ==> !IsVerdict(log[k], n)
    decreases |log|
  {
    if IsVerdict(log[|log| - 1], n) {
      i := |log| - 1;
    } else {
      i := VerdictAt(log[..|log| - 1], n);
    }
  }

  /**
   * In every run a controller's key is stored only on a server that was created for normal pairing, after that same
   * server accepted a proof of the PIN with this session key and has not judged another since, and only for a message
   * in which the controller signed its identity with that key.
   */
  lemma StoredOnlyAfterProof(c: Crypto, pin: Option<Bytes>, store: map<Bytes, Bytes>, steps: seq<Step>, j: nat, n: nat,
                             key: Bytes, data: Bytes, id: Bytes, pk: Bytes) returns (i: nat, created: nat)
    requires c.suite.n > 0 && j < |Run(c, pin, Start(store), steps).log|
    requires Run(c, pin, Start(store), steps).log[j] == Did(n, Stored(key, data, id, pk))
    ensures var log := Run(c, pin, Start(store), steps).log;
            && created < i < j && log[created] == Did(n, Created(false)) && log[i] == Did(n, Judged(true, false, key))
            && forall k :: i < k < j ==> !IsVerdict(log[k], n)
    ensures SetupController(c, key, data) == Some((id, pk))
  {
    hide Run, SetupController;
    var log := Run(c, pin, Start(store), steps).log;
    RunJustified(c, pin, store, steps, j);
    i := VerdictAt(log[..j], n);
    assert log[i] == log[..j][i];
    RunJustified(c, pin, store, steps, i);
    created :| 0 <= created < |log[..i]| && log[..i][created] == Did(n, Created(false));
    forall k | i < k < j
      ensures !IsVerdict(log[k], n)
    {
      assert log[k] == log[..j][k];
    }
  }

  /** No two servers of a run have the same number. */
  lemma NumbersUnique(c: Crypto, pin: Option<Bytes>, store: map<Bytes, Bytes>, steps: seq<Step>, i: nat, j: nat, n: nat,
                      s: bool, t: bool)
    requires c.suite.n > 0 && i < j < |Run(c, pin, Start(store), steps).log|
    requires Run(c, pin, Start(store), steps).log[i] == Did(n, Created(s))
    ensures Run(c, pin, Start(store), steps).log[j] != Did(n, Created(t))
  {
    hide Run;
    var log := Run(c, pin, Start(store), steps).log;
    RunJustified(c, pin, store, steps, j);
    assert log[..j][i] == log[i];
    assert CreatedIn(log[..j], n, s);
  }

  /** A completed exchange, on a log. */
  predicate CompletedAt(log: seq<Event>, i: nat, secret: Bytes)
    requires i < |log|
  {
    log[i].Did? && log[i].outcome.Completed? && log[i].outcome.v.secret == secret
  }

  lemma {:induction false} SecretSource(c: Crypto, pin: Option<Bytes>, store: map<Bytes, Bytes>, log: seq<Event>)
    returns (i: nat)
    requires AllJustified(c, pin, store, log) && pin.Some? && SecretAfter(log).Some?
    ensures i < |log| && CompletedAt(log, i, SecretAfter(log).value)
    decreases |log|
  {
    i := |log| - 1;
    var e := log[i];
    if e.Did? && e.outcome.Judged? && e.outcome.accepted && e.outcome.transient {
      NoTransient(c, pin, store, log[..i], e.server);
      assert false;
    } else if !(e.Did? && e.outcome.Completed?) {
      i := SecretSource(c, pin, store, log[..i]);
    }
  }

  lemma {:induction false} NoTransient(c: Crypto, pin: Option<Bytes>, store: map<Bytes, Bytes>, log: seq<Event>, n: nat)
    requires AllJustified(c, pin, store, log) && pin.Some?
    ensures !CreatedIn(log, n, true)
    decreases |log|
  {
    if log == [] {
    } else {
      var init := log[..|log| - 1];
      NoTransient(c, pin, store, init, n);
      assert log == init + [log[|log| - 1]];
    }
  }

  /**
   * With a PIN set, a run has a session secret only from a completed verify exchange: one started earlier, whose
   * controller signed both ephemeral keys with the key the store held for it at that moment.
   */
  lemma PinNeedsVerify(c: Crypto, pin: Option<Bytes>, store: map<Bytes, Bytes>, steps: seq<Step>) returns (j: nat)
    requires c.suite.n > 0 && pin.Some? && Run(c, pin, Start(store), steps).state.secret.Some?
    ensures var w := Run(c, pin, Start(store), steps);
            && j < |w.log| && w.log[j].Did? && w.log[j].outcome.Completed?
            && var Completed(id, pk, sig, v) := w.log[j].outcome;
               && w.state.secret == Some(v.secret)
               && Did(w.log[j].server, Started(v.(completed := false))) in w.log[..j]
               && id in StoreAfter(store, w.log[..j]) && StoreAfter(store, w.log[..j])[id] == pk
               && c.verify(pk, v.clientPk + id + v.serverPk, sig)
  {
    hide Run, StoreAfter;
    var w := Run(c, pin, Start(store), steps);
    StartsWell(c, pin, store);
    RunInv(c, pin, store, Start(store), steps);
    j := SecretSource(c, pin, store, w.log);
    RunJustified(c, pin, store, steps, j);
  }

  /** A key in the store was there from the start, was put by another connection, or was stored after a proof. */
  lemma {:induction false} KeySource(store: map<Bytes, Bytes>, log: seq<Event>, id: Bytes)
    requires id in StoreAfter(store, log)
    ensures var pk := StoreAfter(store, log)[id];
            || (id in store && store[id] == pk)
            || Put(id, pk) in log
            || exists n: nat, key: Bytes, data: Bytes :: Did(n, Stored(key, data, id, pk)) in log
    decreases |log|
  {
    if log == [] {
    } else {
      var init, e := log[..|log| - 1], log[|log| - 1];
      var pk := StoreAfter(store, log)[id];
      if e == Put(id, pk) {
      } else if e.Did? && e.outcome.Stored? && e.outcome.id == id {
        assert Did(e.server, Stored(e.outcome.key, e.outcome.data, id, pk)) in log;
      } else {
        KeySource(store, init, id);
        if n: nat, key: Bytes, data: Bytes :| Did(n, Stored(key, data, id, pk)) in init {
          assert Did(n, Stored(key, data, id, pk)) in log;
        }
      }
    }
  }

  /** A run of requests alone, without keys put by other connections. */
  predicate OwnSteps(steps: seq<Step>)
  {
    forall i :: 0 <= i < |steps| ==> steps[i].Serve?
  }

  predicate NoPuts(log: seq<Event>)
  {
    forall i :: 0 <= i < |log| ==> !log[i].Put?
  }

  lemma StepPutsNothing(c: Crypto, pin: Option<Bytes>, w: World, r: Request)
    requires c.suite.n > 0 && NoPuts(w.log)
    ensures NoPuts(Take(c, pin, w, Serve(r)).log)
  {
    hide Dispatch, Queue, Activate;
  }

  lemma {:induction false} OwnRunPutsNothing(c: Crypto, pin: Option<Bytes>, w: World, steps: seq<Step>)
    requires c.suite.n > 0 && NoPuts(w.log) && OwnSteps(steps)
    ensures NoPuts(Run(c, pin, w, steps).log)
    decreases |steps|
  {
    hide Take, NoPuts;
    if steps == [] {
    } else {
      StepPutsNothing(c, pin, w, steps[0].request);
      OwnRunPutsNothing(c, pin, Take(c, pin, w, steps[0]), steps[1..]);
    }
  }

  /**
   * The whole chain: with a PIN set, no key stored before and none put by others, a session secret means that earlier
   * in the run a server created for normal pairing accepted a proof of the PIN and then stored the key of a controller
   * that signed its identity over that session, and that this controller completed the verify the secret comes from.
   */
  lemma PinSecretNeedsProof(c: Crypto, pin: Option<Bytes>, steps: seq<Step>)
    returns (created: nat, proved: nat, stored: nat, verified: nat)
    requires c.suite.n > 0 && pin.Some? && OwnSteps(steps) && Run(c, pin, Start(map[]), steps).state.secret.Some?
    ensures var w := Run(c, pin, Start(map[]), steps);
            && created < proved < stored < verified < |w.log|
            && w.log[verified].Did? && w.log[verified].outcome.Completed?
            && w.state.secret == Some(w.log[verified].outcome.v.secret)
            && w.log[stored].Did? && w.log[stored].outcome.Stored?
            && w.log[stored].outcome.id == w.log[verified].outcome.id
            && w.log[stored].outcome.pk == w.log[verified].outcome.pk
            && w.log[created] == Did(w.log[stored].server, Created(false))
            && w.log[proved] == Did(w.log[stored].server, Judged(true, false, w.log[stored].outcome.key))
            && SetupController(c, w.log[stored].outcome.key, w.log[stored].outcome.data)
               == Some((w.log[stored].outcome.id, w.log[stored].outcome.pk))
  {
    hide Run, StoreAfter, SetupController;
    var w := Run(c, pin, Start(map[]), steps);
    verified := PinNeedsVerify(c, pin, map[], steps);
    var done := w.log[verified].outcome;
    OwnRunPutsNothing(c, pin, Start(map[]), steps);
    KeySource(map[], w.log[..verified], done.id);
    assert Put(done.id, done.pk) !in w.log[..verified];
    var n: nat, key: Bytes, data: Bytes :| Did(n, Stored(key, data, done.id, done.pk)) in w.log[..verified];
    stored :| 0 <= stored < verified && w.log[..verified][stored] == Did(n, Stored(key, data, done.id, done.pk));
    proved, created := StoredOnlyAfterProof(c, pin, map[], steps, stored, n, key, data, done.id, done.pk);
  }

  // ---------------------------------------------------------------------------------------------
  // Encryption
  // ---------------------------------------------------------------------------------------------

  lemma {:induction false} CipherStays(c: Crypto, log: seq<Event>, j: nat)
    requires j <= |log| && CipherAfter(c, log[..j]).Some?
    ensures CipherAfter(c, log) == CipherAfter(c, log[..j])
    decreases |log|
  {
    if j == |log| {
      assert log[..j] == log;
    } else {
      assert log[..|log| - 1][..j] == log[..j];
      CipherStays(c, log[..|log| - 1], j);
    }
  }

  lemma StepExtends(c: Crypto, pin: Option<Bytes>, w: World, s: Step)
    requires c.suite.n > 0
    ensures w.log <= Take(c, pin, w, s).log
  {
    hide Dispatch, Queue, Activate;
  }

  lemma {:induction false} RunExtends(c: Crypto, pin: Option<Bytes>, w: World, steps: seq<Step>)
    requires c.suite.n > 0
    ensures w.log <= Run(c, pin, w, steps).log
    decreases |steps|
  {
    hide Take;
    if steps == [] {
    } else {
      StepExtends(c, pin, w, steps[0]);
      RunExtends(c, pin, Take(c, pin, w, steps[0]), steps[1..]);
    }
  }

  /** Once a connection is encrypted it stays so, under the same key, whatever else is paired on it. */
  lemma EncryptionStays(c: Crypto, pin: Option<Bytes>, store: map<Bytes, Bytes>, first: seq<Step>, more: seq<Step>)
    requires c.suite.n > 0 && Run(c, pin, Start(store), first).state.cipher.Some?
    ensures var w := Run(c, pin, Start(store), first);
            Run(c, pin, w, more).state.cipher == w.state.cipher
  {
    hide Run, CipherAfter, AllJustified, StoreAfter, SecretAfter, ServerKnown, ExchangeKnown, Numbered;
    var w := Run(c, pin, Start(store), first);
    StartsWell(c, pin, store);
    RunInv(c, pin, store, Start(store), first);
    RunInv(c, pin, store, w, more);
    RunExtends(c, pin, w, more);
    var log := Run(c, pin, w, more).log;
    assert log[..|w.log|] == w.log;
    CipherStays(c, log, |w.log|);
  }

  /** Responses are encrypted from the first encrypted one on. */
  lemma ResponsesStayEncrypted(c: Crypto, pin: Option<Bytes>, store: map<Bytes, Bytes>, steps: seq<Step>, i: nat,
                               j: nat)
    requires c.suite.n > 0 && i <= j < |Run(c, pin, Start(store), steps).log|
    requires var log := Run(c, pin, Start(store), steps).log; log[i] == Response(true) && log[j].Response?
    ensures Run(c, pin, Start(store), steps).log[j] == Response(true)
  {
    hide Run, CipherAfter, AllJustified;
    var log := Run(c, pin, Start(store), steps).log;
    RunJustified(c, pin, store, steps, i);
    RunJustified(c, pin, store, steps, j);
    assert log[..j][..i] == log[..i];
    CipherStays(c, log[..j], i);
  }

  /** A response after a secret that makes a channel. */
  predicate Activates(c: Crypto, log: seq<Event>, i: nat)
    requires i < |log|
  {
    log[i].Response? && SecretAfter(log[..i]).Some? && c.channel(SecretAfter(log[..i]).value).Some?
  }

  /** A response is encrypted exactly when an earlier response came after a secret that makes a channel. */
  ghost predicate ActivatedBefore(c: Crypto, log: seq<Event>, j: nat)
    requires j <= |log|
  {
    exists i :: 0 <= i < j && Activates(c, log, i)
  }

  lemma {:induction false} CipherIffActivated(c: Crypto, log: seq<Event>)
    ensures CipherAfter(c, log).Some? <==> ActivatedBefore(c, log, |log|)
    decreases |log|
  {
    hide SecretAfter;
    if log == [] {
    } else {
      var n := |log| - 1;
      CipherIffActivated(c, log[..n]);
      forall i | 0 <= i < n
        ensures Activates(c, log[..n], i) <==> Activates(c, log, i)
      {
        assert log[..n][..i] == log[..i];
      }
      assert ActivatedBefore(c, log, |log|) <==> ActivatedBefore(c, log[..n], n) || Activates(c, log, n);
    }
  }

  lemma EncryptedExactly(c: Crypto, pin: Option<Bytes>, store: map<Bytes, Bytes>, steps: seq<Step>, j: nat)
    requires c.suite.n > 0 && j < |Run(c, pin, Start(store), steps).log|
    requires Run(c, pin, Start(store), steps).log[j].Response?
    ensures var log := Run(c, pin, Start(store), steps).log;
            log[j].encrypted <==> ActivatedBefore(c, log[..j], j)
  {
    hide Run, CipherAfter, AllJustified, ActivatedBefore;
    var log := Run(c, pin, Start(store), steps).log;
    RunJustified(c, pin, store, steps, j);
    CipherIffActivated(c, log[..j]);
  }

  predicate GivesSecret(e: Event)
  {
    e.Did? && (e.outcome.Completed? || (e.outcome.Judged? && e.outcome.accepted && e.outcome.transient))
  }

  lemma {:induction false} SecretStays(log: seq<Event>, i: nat)
    requires i < |log| && GivesSecret(log[i])
    ensures SecretAfter(log).Some?
    decreases |log|
  {
    if i == |log| - 1 {
    } else {
      SecretStays(log[..|log| - 1], i);
    }
  }

  lemma {:induction false} NoSecretYet(log: seq<Event>)
    requires forall i :: 0 <= i < |log| ==> !GivesSecret(log[i])
    ensures SecretAfter(log) == None
    decreases |log|
  {
    if log == [] {
    } else {
      NoSecretYet(log[..|log| - 1]);
    }
  }

  /**
   * The response to the request that completes pairing is the last one in the clear: every earlier response and that
   * one are plain, every later one is encrypted, given that channel keys can be derived.
   */
  lemma LastPlaintext(c: Crypto, pin: Option<Bytes>, store: map<Bytes, Bytes>, steps: seq<Step>, i: nat, r: nat, j: nat)
    requires c.suite.n > 0 && (forall s :: c.channel(s).Some?)
    requires var log := Run(c, pin, Start(store), steps).log;
             && i < r < |log| && j < |log| && GivesSecret(log[i]) && (forall k :: 0 <= k < i ==> !GivesSecret(log[k]))
             && log[r].Response? && (forall k :: i < k < r ==> !log[k].Response?) && log[j].Response?
    ensures Run(c, pin, Start(store), steps).log[j].encrypted <==> j > r
  {
    hide Run;
    var log := Run(c, pin, Start(store), steps).log;
    EncryptedExactly(c, pin, store, steps, j);
    if j > r {
      assert log[..r][i] == log[i];
      SecretStays(log[..r], i);
      assert log[..j][..r] == log[..r] && log[..j][r] == log[r];
      assert Activates(c, log[..j], r);
    } else {
      forall k | 0 <= k < j && log[..j][k].Response?
        ensures SecretAfter(log[..j][..k]) == None
      {
        assert log[..j][k] == log[k] && log[..j][..k] == log[..k];
        assert k <= i;
        forall m | 0 <= m < k
          ensures !GivesSecret(log[..k][m])
        {
          assert log[..k][m] == log[m];
        }
        NoSecretYet(log[..k]);
      }
    }
  }

  // ---------------------------------------------------------------------------------------------
  // A pairing that succeeds
  // ---------------------------------------------------------------------------------------------

  /** The client's opening message of a transient pairing. */
  const TRANSIENT_M1: Bytes := Encode([Entry(STATE, [1]), Entry(METHOD, [PAIR_SETUP]), Entry(FLAGS, [TRANSIENT_FLAG])])

  lemma TransientOpening(c: Crypto, st: State, salt: Bytes, b: nat)
    requires c.suite.n > 0
    ensures var srv := NewServer(c.suite, None, salt, b).(transient := true);
            HandleSetup(c, None, st, TRANSIENT_M1, salt, b)
            == Handled(st.(srp := Some(srv)), Created(true), Body(BuildM2(c.suite, srv)))
  {
    hide Decode, Encode, BuildM2, PasswordExponent, ModPow, ServerPublic, Multiplier, SetupThird, SetupFifth;
    ThreeEntries(Entry(STATE, [1]), Entry(METHOD, [PAIR_SETUP]), Entry(FLAGS, [TRANSIENT_FLAG]));
  }

  lemma ThirdOpens(bigA: nat, proof: Bytes)
    ensures StepOf(Encode(M3Entries(bigA, proof))) == Some([3])
  {
    hide Decode, Encode, ToBytes;
    var e := M3Entries(bigA, proof);
    ThreeEntries(e[0], e[1], e[2]);
  }

  /**
   * A client that follows the mock exchange pairs: from any state, its two messages leave its session key as the
   * connection's secret and bring it the server proof it expects.
   */
  lemma HonestTransientPairing(c: Crypto, st: State, salt: Bytes, b: nat, a: nat, m2: seq<Entry>, saltGot: Bytes,
                               publicKey: Bytes, salt': Bytes, b': nat)
    requires c.suite.n > 0 && ModPow(c.suite.g, a, c.suite.n) != 0
    requires var reply := HandleSetup(c, None, st, TRANSIENT_M1, salt, b).reply;
             && reply.Body? && Decode(reply.bytes) == Some(m2)
             && Get(m2, SALT) == Some(saltGot) && Get(m2, PUBLIC_KEY) == Some(publicKey)
    ensures var client := RunClient(c.suite, TRANSIENT_PIN, a, saltGot, publicKey);
            var h := HandleSetup(c, None, HandleSetup(c, None, st, TRANSIENT_M1, salt, b).state, client.m3, salt', b');
            && h.state.secret == Some(client.key) && h.state.isAp2
            && h.reply.Body? && Decode(h.reply.bytes).Some?
            && Get(Decode(h.reply.bytes).value, PROOF) == Some(client.expects)
  {
    hide Decode, Encode, Get, BuildM2, BuildM4, NewServer, RunClient, ProcessM3, SetupFirst, SetupFifth, ModPow, Issued,
      StepOf;
    TransientOpening(c, st, salt, b);
    var srv := NewServer(c.suite, None, salt, b).(transient := true);
    var client := RunClient(c.suite, TRANSIENT_PIN, a, saltGot, publicKey);
    TransientIssued(c.suite, salt, b);
    HonestClientAccepted(c.suite, TRANSIENT_PIN, a, srv, m2, saltGot, publicKey);
    ClientMessages(c.suite, TRANSIENT_PIN, a, saltGot, publicKey);
    ThirdOpens(ModPow(c.suite.g, a, c.suite.n),
               ClientProof(c.suite, BigEndian(saltGot), ModPow(c.suite.g, a, c.suite.n), BigEndian(publicKey),
                           client.key));
    TransientKept(c.suite, srv, client.m3);
    M4Carries(ProcessM3(c.suite, srv, client.m3).0);
  }

  lemma TransientIssued(s: Suite, salt: Bytes, b: nat)
    requires s.n > 0
    ensures Issued(s, TRANSIENT_PIN, NewServer(s, None, salt, b).(transient := true))
  {
    NewIsIssued(s, None, salt, b);
  }

  lemma TransientKept(s: Suite, srv: Server, data: Bytes)
    requires s.n > 0
    ensures ProcessM3(s, srv, data).0.transient == srv.transient
  {
    hide M3Fields, SessionKey, ClientProof, ServerProof;
  }

  /** The client's opening message of a normal pairing. */
  const NORMAL_M1: Bytes := Encode([Entry(STATE, [1]), Entry(METHOD, [PAIR_SETUP])])

  lemma TwoEntries(a: Entry, b: Entry, tag: byte)
    requires a.tag != b.tag && tag != a.tag && tag != b.tag
    ensures Decode(Encode([a, b])) == Some([a, b])
    ensures Get([a, b], a.tag) == Some(a.value) && Get([a, b], b.tag) == Some(b.value) && Get([a, b], tag) == None
  {
    hide Decode, Encode;
    DistinctTags([a, b]);
    assert [a, b][1..] == [b];
  }

  lemma NormalOpening(c: Crypto, pin: Option<Bytes>, st: State, salt: Bytes, b: nat)
    requires c.suite.n > 0
    ensures var srv := NewServer(c.suite, pin, salt, b);
            HandleSetup(c, pin, st, NORMAL_M1, salt, b)
            == Handled(st.(srp := Some(srv)), Created(false), Body(BuildM2(c.suite, srv)))
  {
    hide Decode, Encode, Get, BuildM2, PasswordExponent, ModPow, ServerPublic, Multiplier, SetupThird, SetupFifth;
    TwoEntries(Entry(STATE, [1]), Entry(METHOD, [PAIR_SETUP]), FLAGS);
  }

  lemma ThirdAccepted(c: Crypto, pin: Option<Bytes>, st: State, a: nat, srv: Server, m2: seq<Entry>, salt: Bytes,
                      publicKey: Bytes, salt': Bytes, b': nat)
    requires c.suite.n > 0 && ModPow(c.suite.g, a, c.suite.n) != 0 && Issued(c.suite, PinOf(pin), srv) && !srv.transient
    requires st.srp == Some(srv) && Decode(BuildM2(c.suite, srv)) == Some(m2)
    requires Get(m2, SALT) == Some(salt) && Get(m2, PUBLIC_KEY) == Some(publicKey)
    ensures var client := RunClient(c.suite, PinOf(pin), a, salt, publicKey);
            var h := HandleSetup(c, pin, st, client.m3, salt', b');
            && h.state.srp.Some? && h.state.srp.value.verified && !h.state.srp.value.transient
            && h.state.srp.value.sessionKey == client.key && h.state.store == st.store
            && h.outcome == Judged(true, false, client.key)
  {
    hide Decode, Encode, Get, BuildM2, BuildM4, RunClient, ProcessM3, SetupFirst, SetupFifth, ModPow, Issued, StepOf;
    var client := RunClient(c.suite, PinOf(pin), a, salt, publicKey);
    HonestClientAccepted(c.suite, PinOf(pin), a, srv, m2, salt, publicKey);
    ClientMessages(c.suite, PinOf(pin), a, salt, publicKey);
    ThirdOpens(ModPow(c.suite.g, a, c.suite.n),
               ClientProof(c.suite, BigEndian(salt), ModPow(c.suite.g, a, c.suite.n), BigEndian(publicKey),
                           client.key));
    TransientKept(c.suite, srv, client.m3);
  }

  /**
   * What an honest controller sends fifth: its identity, signed with its long-term key, sealed under the session key.
   */
  ghost predicate HonestIdentity(c: Crypto, key: Bytes, enc: Bytes, id: Bytes, pk: Bytes, sig: Bytes)
  {
    && c.derive(key, SetupMessage).Some? && c.derive(key, SetupSign).Some?
    && c.open(c.derive(key, SetupMessage).value, SetupMessage, enc)
       == Some(Encode([Entry(IDENTIFIER, id), Entry(PUBLIC_KEY, pk), Entry(SIGNATURE, sig)]))
    && |pk| == 32 && c.validKey(pk) && |sig| == 64 && c.utf8(id)
    && c.verify(pk, c.derive(key, SetupSign).value + id + pk, sig)
  }

  function FifthMessage(enc: Bytes): Bytes
  {
    Encode([Entry(STATE, [5]), Entry(ENCRYPTED_DATA, enc)])
  }

  lemma ControllerFound(c: Crypto, key: Bytes, enc: Bytes, id: Bytes, pk: Bytes, sig: Bytes)
    requires HonestIdentity(c, key, enc, id, pk, sig)
    ensures SetupController(c, key, FifthMessage(enc)) == Some((id, pk)) && StepOf(FifthMessage(enc)) == Some([5])
  {
    hide Decode, Encode, Get;
    TwoEntries(Entry(STATE, [5]), Entry(ENCRYPTED_DATA, enc), PROOF);
    ThreeEntries(Entry(IDENTIFIER, id), Entry(PUBLIC_KEY, pk), Entry(SIGNATURE, sig));
    FirstOfThree(Entry(IDENTIFIER, id), Entry(PUBLIC_KEY, pk), Entry(SIGNATURE, sig));
  }

  lemma FirstOfThree(a: Entry, b: Entry, c: Entry)
    ensures Get([a, b, c], a.tag) == Some(a.value)
  {
  }

  /**
   * Normal pairing succeeds too, with any PIN: the three messages of an honest client that knows it, the last carrying
   * its signed identity, leave its key in the store.
   */
  lemma HonestPinPairing(c: Crypto, pin: Option<Bytes>, st: State, salt: Bytes, b: nat, a: nat, m2: seq<Entry>,
                         saltGot: Bytes, publicKey: Bytes, salt': Bytes, b': nat, enc: Bytes, id: Bytes, pk: Bytes,
                         sig: Bytes)
    requires c.suite.n > 0 && ModPow(c.suite.g, a, c.suite.n) != 0
    requires var reply := HandleSetup(c, pin, st, NORMAL_M1, salt, b).reply;
             && reply.Body? && Decode(reply.bytes) == Some(m2)
             && Get(m2, SALT) == Some(saltGot) && Get(m2, PUBLIC_KEY) == Some(publicKey)
    requires var key := RunClient(c.suite, PinOf(pin), a, saltGot, publicKey).key;
             HonestIdentity(c, key, enc, id, pk, sig) && c.setupIdentity(key).Some?
    ensures var client := RunClient(c.suite, PinOf(pin), a, saltGot, publicKey);
            var first := HandleSetup(c, pin, st, NORMAL_M1, salt, b).state;
            var third := HandleSetup(c, pin, first, client.m3, salt', b').state;
            var h := HandleSetup(c, pin, third, FifthMessage(enc), salt', b');
            h.outcome == Stored(client.key, FifthMessage(enc), id, pk) && h.state.store == st.store[id := pk]
  {
    hide Decode, Encode, Get, BuildM2, NewServer, RunClient, SetupFirst, SetupThird, SetupController, ModPow, Issued,
      StepOf, HonestIdentity, FifthMessage;
    NormalOpening(c, pin, st, salt, b);
    NewIsIssued(c.suite, pin, salt, b);
    NewIsNormal(c.suite, pin, salt, b);
    var client := RunClient(c.suite, PinOf(pin), a, saltGot, publicKey);
    var srv := NewServer(c.suite, pin, salt, b);
    ThirdAccepted(c, pin, st.(srp := Some(srv)), a, srv, m2, saltGot, publicKey, salt', b');
    ControllerFound(c, client.key, enc, id, pk, sig);
  }

  lemma NewIsNormal(s: Suite, pin: Option<Bytes>, salt: Bytes, b: nat)
    requires s.n > 0
    ensures !NewServer(s, pin, salt, b).transient
  {
    hide PasswordExponent, ModPow, ServerPublic, Multiplier;
  }

  /** What a controller sends to start a verify exchange: its ephemeral public key. */
  function VerifyOpening(pk: Bytes): Bytes
  {
    Encode([Entry(STATE, [1]), Entry(PUBLIC_KEY, pk)])
  }

  function VerifyClosing(enc: Bytes): Bytes
  {
    Encode([Entry(STATE, [3]), Entry(ENCRYPTED_DATA, enc)])
  }

  /**
   * What an honest controller seals under the shared secret: its identifier and, with its long-term key, a signature of
   * both ephemeral keys around it.
   */
  ghost predicate HonestProof(c: Crypto, shared: Bytes, pk: Bytes, clientPk: Bytes, serverPk: Bytes, enc: Bytes,
                              id: Bytes, sig: Bytes)
  {
    && c.derive(shared, VerifyMessage).Some?
    && c.open(c.derive(shared, VerifyMessage).value, VerifyMessage, enc)
       == Some(Encode([Entry(IDENTIFIER, id), Entry(SIGNATURE, sig)]))
    && c.validKey(pk) && |sig| == 64 && c.utf8(id) && c.verify(pk, clientPk + id + serverPk, sig)
  }

  /** The exchange starts, and its reply carries the server's ephemeral key. */
  lemma VerifyStarts(c: Crypto, st: State, sk: Bytes, pk: Bytes)
    requires |pk| == 32 && c.verifyIdentity(c.publicOf(sk), pk, c.sharedSecret(sk, pk)).Some?
    ensures var v := Verify(c.publicOf(sk), pk, c.sharedSecret(sk, pk), false);
            var h := HandleVerify(c, st, VerifyOpening(pk), sk);
            && h.state == st.(verify := Some(v), videoSecret := Some(v.secret)) && h.outcome == Started(v)
            && h.reply.Body? && Decode(h.reply.bytes).Some?
            && Get(Decode(h.reply.bytes).value, PUBLIC_KEY) == Some(c.publicOf(sk))
  {
    hide Decode, Encode, Get;
    TwoEntries(Entry(STATE, [1]), Entry(PUBLIC_KEY, pk), PROOF);
    var enc := c.verifyIdentity(c.publicOf(sk), pk, c.sharedSecret(sk, pk)).value;
    ThreeEntries(Entry(STATE, [2]), Entry(PUBLIC_KEY, c.publicOf(sk)), Entry(ENCRYPTED_DATA, enc));
  }

  lemma VerifyEnds(c: Crypto, st: State, enc: Bytes, id: Bytes, sig: Bytes, sk: Bytes)
    requires st.verify.Some? && id in st.store
    requires var v := st.verify.value; HonestProof(c, v.secret, st.store[id], v.clientPk, v.serverPk, enc, id, sig)
    ensures var v := st.verify.value.(completed := true);
            HandleVerify(c, st, VerifyClosing(enc), sk)
            == Handled(st.(verify := Some(v), videoSecret := Some(v.secret), secret := Some(v.secret), isAp2 := true),
                       Completed(id, st.store[id], sig, v), Body(Encode([Entry(STATE, [4])])))
  {
    hide Decode, Encode, Get;
    TwoEntries(Entry(STATE, [3]), Entry(ENCRYPTED_DATA, enc), PROOF);
    TwoEntries(Entry(IDENTIFIER, id), Entry(SIGNATURE, sig), PROOF);
  }

  /**
   * A controller whose key is stored completes the verify exchange, whatever the PIN: the reply brings it the server's
   * ephemeral key, and the connection's secret is the one it computes from that key. The one law assumed of the key
   * exchange is that both sides compute the same secret. A connection in the clear is then encrypted under it.
   */
  lemma HonestVerify(c: Crypto, st: State, sk: Bytes, csk: Bytes, enc: Bytes, id: Bytes, sig: Bytes, sk': Bytes)
    requires |c.publicOf(csk)| == 32 && id in st.store
    requires c.sharedSecret(sk, c.publicOf(csk)) == c.sharedSecret(csk, c.publicOf(sk))
    requires c.verifyIdentity(c.publicOf(sk), c.publicOf(csk), c.sharedSecret(sk, c.publicOf(csk))).Some?
    requires var shared := c.sharedSecret(csk, c.publicOf(sk));
             HonestProof(c, shared, st.store[id], c.publicOf(csk), c.publicOf(sk), enc, id, sig)
    ensures var first := HandleVerify(c, st, VerifyOpening(c.publicOf(csk)), sk);
            && first.reply.Body? && Decode(first.reply.bytes).Some?
            && Get(Decode(first.reply.bytes).value, PUBLIC_KEY) == Some(c.publicOf(sk))
    ensures var shared := c.sharedSecret(csk, c.publicOf(sk));
            var first := HandleVerify(c, st, VerifyOpening(c.publicOf(csk)), sk).state;
            var h := HandleVerify(c, first, VerifyClosing(enc), sk');
            && h.outcome.Completed? && h.outcome.id == id && h.outcome.pk == st.store[id]
            && h.state.secret == Some(shared) && h.state.isAp2 && h.state.store == st.store
            && (st.cipher == None ==> Activate(c, Queue(h.state)).cipher == c.channel(shared))
  {
    hide Decode, Encode, Get, HandleVerify, VerifyOpening, VerifyClosing, HonestProof;
    VerifyStarts(c, st, sk, c.publicOf(csk));
    var first := HandleVerify(c, st, VerifyOpening(c.publicOf(csk)), sk).state;
    VerifyEnds(c, first, enc, id, sig, sk');
  }
}
