/** The objects behind the pairing machine: the verify server, the key store and the connection that owns them. */
module PairingHandlers {
  import opened Common
  import opened Tlv
  import opened Srp
  import opened Pairing

  class PairingStore {
    var keys: map<Bytes, Bytes>

    constructor (keys: map<Bytes, Bytes>)
      ensures this.keys == keys
    {
      this.keys := keys;
    }

    method PutKey(id: Bytes, pk: Bytes)
      modifies this
      ensures keys == old(keys)[id := pk]
    {
      keys := keys[id := pk];
    }
  }

  class PairVerifyServer {
    const c: Crypto
    const sk: Bytes
    const serverPk: Bytes
    var clientPk: Bytes
    var secret: Bytes
    var processed: bool
    var completed: bool

    ghost function Value(): Verify
      reads this
    {
      Verify(serverPk, clientPk, secret, completed)
    }

    constructor (c: Crypto, sk: Bytes)
      ensures this.c == c && this.sk == sk && serverPk == c.publicOf(sk) && !processed && !completed
    {
      this.c, this.sk, serverPk := c, sk, c.publicOf(sk);
      clientPk, secret, processed, completed := [], [], false, false;
    }

    /** The first message; a server that could not answer it is dropped. */
    method First(data: Bytes) returns (reply: Option<Bytes>)
      requires !completed && serverPk == c.publicOf(sk)
      modifies this
      ensures var r := StartVerify(c, sk, data);
              if r == None then reply == None else processed && reply == Some(r.value.1) && Value() == r.value.0
    {
      hide Decode, Encode, Get;
      var tlv := Decode(data);
      if tlv == None || Get(tlv.value, STATE) != Some([1]) {
        return None;
      }
      var pk := Get(tlv.value, PUBLIC_KEY);
      if pk == None || |pk.value| != 32 {
        return None;
      }
      clientPk := pk.value;
      secret := c.sharedSecret(sk, clientPk);
      processed := true;
      var enc := c.verifyIdentity(serverPk, clientPk, secret);
      if enc == None {
        return None;
      }
      var values := new TlvValues();
      values.Add(STATE, [2]);
      values.Add(PUBLIC_KEY, serverPk);
      values.Add(ENCRYPTED_DATA, enc.value);
      assert values.entries == [Entry(STATE, [2]), Entry(PUBLIC_KEY, serverPk), Entry(ENCRYPTED_DATA, enc.value)];
      var body := values.EncodeBytes();
      reply := Some(body);
    }

    /** The third message, checked against the stored keys. */
    method Third(data: Bytes, store: map<Bytes, Bytes>) returns (controller: Option<(Bytes, Bytes, Bytes)>)
      requires processed
      modifies this`completed
      ensures controller == VerifiedController(c, old(Value()), store, data)
      ensures completed == (old(completed) || controller.Some?)
    {
      hide Decode, Get, OpenInner;
      var tlv := Decode(data);
      if tlv == None || Get(tlv.value, STATE) != Some([3]) {
        return None;
      }
      var inner := OpenInner(c, secret, VerifyMessage, tlv.value);
      if inner == None {
        return None;
      }
      var id, sig := Get(inner.value, IDENTIFIER), Get(inner.value, SIGNATURE);
      if id == None || sig == None || !c.utf8(id.value) || id.value !in store {
        return None;
      }
      var pk := store[id.value];
      if !c.validKey(pk) || |sig.value| != 64 || !c.verify(pk, clientPk + id.value + serverPk, sig.value) {
        return None;
      }
      completed := true;
      controller := Some((id.value, pk, sig.value));
    }
  }

  class PairingConnection {
    const c: Crypto
    const pin: Option<Bytes>
    const store: PairingStore
    var srp: SrpServer?
    var verify: PairVerifyServer?
    var videoSecret: Option<Bytes>
    var secret: Option<Bytes>
    var isAp2: bool
    var pending: Option<Bytes>
    var cipher: Option<Bytes>
    ghost var servers: nat
    ghost var exchanges: nat
    ghost var log: seq<Event>

    ghost predicate Valid()
      reads this, srp, verify
    {
      c.suite.n > 0 && (srp != null ==> srp.s == c.suite) && (verify != null ==> verify.c == c && verify.processed)
    }

    ghost function Value(): State
      reads this, srp, verify, store
    {
      State(store.keys, if srp == null then None else Some(srp.Value()),
            if verify == null then None else Some(verify.Value()),
            videoSecret, secret, isAp2, pending, cipher)
    }

    ghost function History(): World
      reads this, srp, verify, store
    {
      World(Value(), servers, exchanges, log)
    }

    constructor (c: Crypto, pin: Option<Bytes>, store: PairingStore)
      requires c.suite.n > 0
      ensures Valid() && History() == Start(store.keys)
      ensures this.c == c && this.pin == pin && this.store == store && srp == null && verify == null
    {
      this.c, this.pin, this.store := c, pin, store;
      srp, verify, videoSecret, secret, isAp2, pending, cipher := null, null, None, None, false, None, None;
      servers, exchanges, log := 0, 0, [];
    }

    method SetupM1(data: Bytes, salt: Bytes, b: nat) returns (reply: Reply, ghost outcome: Outcome)
      requires Valid()
      modifies this`srp
      ensures Valid() && verify == old(verify) && (srp == old(srp) || fresh(srp))
      ensures Handled(Value(), outcome, reply) == SetupFirst(c, pin, old(Value()), data, salt, b)
    {
      hide NewServer, ProcessM1, BuildM2, ErrorReply;
      var srv := new SrpServer(c.suite, pin, salt, b);
      var ok := srv.First(data);
      if !ok {
        return ErrorReply(2), Nothing;
      }
      srp := srv;
      var m2 := srv.Second();
      reply, outcome := Body(m2), Created(srv.transient);
    }

    method SetupM3(data: Bytes) returns (reply: Reply, ghost outcome: Outcome)
      requires Valid()
      modifies this`secret, this`isAp2, srp
      ensures Valid() && verify == old(verify) && srp == old(srp)
      ensures Handled(Value(), outcome, reply) == SetupThird(c, old(Value()), data)
    {
      hide M3Fields, SessionKey, ClientProof, ServerProof, BuildM4;
      if srp == null {
        return NoBody, Nothing;
      }
      var ok := srp.Third(data);
      if ok == None {
        return NoBody, Nothing;
      }
      if ok.value && srp.transient {
        secret := Some(srp.sessionKey);
        isAp2 := true;
      }
      var m4 := srp.Fourth();
      reply, outcome := Body(m4), Judged(ok.value, srp.transient, srp.sessionKey);
    }

    method SetupM5(data: Bytes) returns (reply: Reply, ghost outcome: Outcome)
      requires Valid()
      modifies store
      ensures Valid()
      ensures Handled(Value(), outcome, reply) == SetupFifth(c, old(Value()), data)
    {
      hide SetupController, ErrorReply;
      if srp == null {
        return NoBody, Nothing;
      }
      if !srp.verified || srp.transient {
        return ErrorReply(6), Nothing;
      }
      var controller := SetupController(c, srp.sessionKey, data);
      if controller == None {
        return ErrorReply(6), Nothing;
      }
      var m6 := c.setupIdentity(srp.sessionKey);
      if m6 == None {
        return NoBody, Nothing;
      }
      store.PutKey(controller.value.0, controller.value.1);
      reply, outcome := Body(m6.value), Stored(srp.sessionKey, data, controller.value.0, controller.value.1);
    }

    method HandlePairSetup(data: Bytes, salt: Bytes, b: nat) returns (reply: Reply, ghost outcome: Outcome)
      requires Valid()
      modifies this`srp, this`secret, this`isAp2, srp, store
      ensures Valid() && verify == old(verify) && (srp == old(srp) || fresh(srp))
      ensures Handled(Value(), outcome, reply) == HandleSetup(c, pin, old(Value()), data, salt, b)
    {
      hide SetupFirst, SetupThird, SetupFifth, StepOf;
      var step := StepOf(data);
      if step == None {
        return Legacy, Nothing;
      }
      if step.value == [] {
        return NoBody, Nothing;
      }
      if step.value[0] == 1 {
        reply, outcome := SetupM1(data, salt, b);
      } else if step.value[0] == 3 {
        reply, outcome := SetupM3(data);
      } else if step.value[0] == 5 {
        reply, outcome := SetupM5(data);
      } else {
        reply, outcome := NoBody, Nothing;
      }
    }

    method VerifyM1(data: Bytes, sk: Bytes) returns (reply: Reply, ghost outcome: Outcome)
      requires Valid()
      modifies this`verify, this`videoSecret
      ensures Valid() && srp == old(srp) && (verify == old(verify) || fresh(verify))
      ensures Handled(Value(), outcome, reply) == VerifyFirst(c, old(Value()), data, sk)
    {
      hide StartVerify;
      var pv := new PairVerifyServer(c, sk);
      var m2 := pv.First(data);
      if m2 == None {
        return NoBody, Nothing;
      }
      videoSecret := Some(pv.secret);
      verify := pv;
      reply, outcome := Body(m2.value), Started(pv.Value());
    }

    method VerifyM3(data: Bytes) returns (reply: Reply, ghost outcome: Outcome)
      requires Valid()
      modifies this`videoSecret, this`secret, this`isAp2, verify
      ensures Valid() && srp == old(srp) && verify == old(verify)
      ensures Handled(Value(), outcome, reply) == VerifyThird(c, old(Value()), data)
    {
      hide VerifiedController;
      if verify == null {
        return NoBody, Nothing;
      }
      var controller := verify.Third(data, store.keys);
      if controller == None {
        return NoBody, Nothing;
      }
      videoSecret, secret, isAp2 := Some(verify.secret), Some(verify.secret), true;
      reply := Body(Encode([Entry(STATE, [4])]));
      outcome := Completed(controller.value.0, controller.value.1, controller.value.2, verify.Value());
    }

    method HandlePairVerify(data: Bytes, sk: Bytes) returns (reply: Reply, ghost outcome: Outcome)
      requires Valid()
      modifies this`verify, this`videoSecret, this`secret, this`isAp2, verify
      ensures Valid() && srp == old(srp) && (verify == old(verify) || fresh(verify))
      ensures Handled(Value(), outcome, reply) == HandleVerify(c, old(Value()), data, sk)
    {
      hide VerifyFirst, VerifyThird, StepOf;
      var step := StepOf(data);
      if step == None {
        return Legacy, Nothing;
      }
      if step.value == [] {
        return NoBody, Nothing;
      }
      if step.value[0] == 1 {
        reply, outcome := VerifyM1(data, sk);
      } else if step.value[0] == 3 {
        reply, outcome := VerifyM3(data);
      } else {
        reply, outcome := NoBody, Nothing;
      }
    }

    /** Dispatch, and queue the secret for after the response. */
    method ConnRequest(r: Request) returns (reply: Reply, ghost outcome: Outcome)
      requires Valid()
      modifies this`srp, this`verify, this`videoSecret, this`secret, this`isAp2, this`pending, srp, verify, store
      ensures Valid() && (srp == old(srp) || fresh(srp)) && (verify == old(verify) || fresh(verify))
      ensures var h := Dispatch(c, pin, old(Value()), r);
              Value() == Queue(h.state) && outcome == h.outcome && reply == h.reply
    {
      hide HandleSetup, HandleVerify;
      match r {
        case Other =>
          reply, outcome := Legacy, Nothing;
        case PairSetup(data, salt, b) =>
          if data == None {
            reply, outcome := NoBody, Nothing;
          } else {
            reply, outcome := HandlePairSetup(data.value, salt, b);
          }
        case PairVerify(data, sk) =>
          if data == None {
            reply, outcome := NoBody, Nothing;
          } else {
            reply, outcome := HandlePairVerify(data.value, sk);
          }
      }
      if cipher == None && secret.Some? {
        pending := secret;
      }
    }

    /** The response is out: a queued secret becomes the cipher. */
    method AfterResponse()
      requires Valid()
      modifies this`pending, this`cipher
      ensures Valid() && Value() == Activate(c, old(Value()))
    {
      if cipher == None && pending.Some? {
        var queued := pending.value;
        pending := None;
        cipher := c.channel(queued);
      }
    }

    /** One request from dispatch to after its response. */
    method ServeRequest(r: Request) returns (reply: Reply, encrypted: bool)
      requires Valid()
      modifies this, srp, verify, store
      ensures Valid() && (srp == old(srp) || fresh(srp)) && (verify == old(verify) || fresh(verify))
      ensures History() == Take(c, pin, old(History()), Serve(r))
      ensures History().log[|History().log| - 1] == Response(encrypted)
    {
      hide Dispatch, Take, Record, Queue, Activate;
      ghost var before := History();
      ghost var h := Dispatch(c, pin, before.state, r);
      ghost var outcome;
      reply, outcome := ConnRequest(r);
      ghost var recorded := Record(before, h);
      ServeIs(c, pin, before, r);
      servers, exchanges, log := recorded.servers, recorded.exchanges, recorded.log;
      encrypted := cipher.Some?;
      log := log + [Response(encrypted)];
      AfterResponse();
    }
  }

  lemma ServeIs(c: Crypto, pin: Option<Bytes>, w: World, r: Request)
    requires c.suite.n > 0
    ensures var h := Dispatch(c, pin, w.state, r); var recorded := Record(w, h);
            Take(c, pin, w, Serve(r))
            == World(Activate(c, Queue(h.state)), recorded.servers, recorded.exchanges,
                     recorded.log + [Response(Queue(h.state).cipher.Some?)])
  {
    hide Dispatch, Queue, Activate;
  }
}
