/**
 * The incremental RTSP request parser. Its specification is what one byte does; the object takes chunks, and is
 * proved to do what its bytes do one after the other.
 */
module Http {
  import opened Common

  const MAX_HEADER_BYTES: nat := 64 * 1024
  const MAX_BODY_BYTES: nat := 32 * 1024 * 1024
  const USIZE_LIMIT: nat := 0x1_0000_0000_0000_0000

  const CR: byte := 13
  const LF: byte := 10

  type Text = seq<byte>

  datatype Error =
    | HeadersTooLong
    | Malformed(message: Text)
    | TransferFraming
    | DuplicateBodyMetadata
    | InvalidContentLength
    | ContentLengthOverflow
    | BodyTooLong
    | BodyRefused
    | PolicyError(message: Text)

  /** What the header grammar says about a buffer; it is a library, so any function of the buffer will do. */
  datatype Parse =
    | Complete(verb: Option<Text>, target: Option<Text>, fields: seq<(Text, Text)>)
    | Partial
    | Failed(message: Text)

  datatype Head = Head(verb: Option<Text>, target: Option<Text>, headers: map<Text, Text>, contentLength: Option<nat>)

  datatype Verdict = Allow(limit: nat) | Deny(message: Text)

  /** The two things the parser is given: the header grammar and the connection's body policy. */
  datatype Rules = Rules(grammar: Text -> Parse, policy: Head -> Verdict)

  /**
   * The parser's fields. `policyRuns` counts the consultations of the policy and `wire` keeps the bytes that belong
   * to this request; the object keeps both as ghost fields.
   */
  datatype Request = Request(
    buffer: seq<byte>,
    lineStart: Option<nat>,
    head: Head,
    body: Option<seq<byte>>,
    headersComplete: bool,
    complete: bool,
    error: Option<Error>,
    policyRuns: nat,
    wire: seq<byte>)

  const NEW_REQUEST: Request :=
    Request([], None, Head(None, None, map[], None), None, false, false, None, 0, [])

  function Needed(h: Head): nat
  {
    if h.contentLength.Some? then h.contentLength.value else 0
  }

  // ---------------------------------------------------------------------------------------------
  // Headers
  // ---------------------------------------------------------------------------------------------

  predicate EndsWith(s: seq<byte>, suffix: seq<byte>)
  {
    |suffix| <= |s| && s[|s| - |suffix|..] == suffix
  }

  function LineEnd(s: seq<byte>, i: nat): (e: nat)
    requires i <= |s|
    ensures i <= e <= |s|
    decreases |s| - i
  {
    if i == |s| || s[i] == LF then i else LineEnd(s, i + 1)
  }

  // " RTSP/1.0" and "HTTP"
  const RTSP_VERSION: seq<byte> := [32, 82, 84, 83, 80, 47, 49, 46, 48]
  const HTTP_NAME: seq<byte> := [72, 84, 84, 80]

  /** The request line's RTSP version becomes an HTTP version; no other byte changes. */
  function Normalized(s: seq<byte>, start: nat): (r: seq<byte>)
    requires start <= |s|
    ensures |r| == |s|
  {
    var lf := LineEnd(s, start);
    var end := if lf > start && s[lf - 1] == CR then lf - 1 else lf;
    if EndsWith(s[start..end], RTSP_VERSION) then s[..end - 8] + HTTP_NAME + s[end - 4..] else s
  }

  function LowerByte(b: byte): byte
  {
    if 65 <= b <= 90 then b + 32 else b
  }

  function Lower(s: Text): (r: Text)
    ensures |r| == |s|
  {
    seq(|s|, i requires 0 <= i < |s| => LowerByte(s[i]))
  }

  // "transfer-encoding", "content-length", "content-type"
  const TRANSFER_ENCODING: Text :=
    [116, 114, 97, 110, 115, 102, 101, 114, 45, 101, 110, 99, 111, 100, 105, 110, 103]
  const CONTENT_LENGTH: Text := [99, 111, 110, 116, 101, 110, 116, 45, 108, 101, 110, 103, 116, 104]
  const CONTENT_TYPE: Text := [99, 111, 110, 116, 101, 110, 116, 45, 116, 121, 112, 101]

  /** Header fields in order, up to the first that is refused. */
  function InsertFields(headers: map<Text, Text>, fields: seq<(Text, Text)>): (map<Text, Text>, Option<Error>)
    decreases |fields|
  {
    if fields == [] then (headers, None) else
    var name := Lower(fields[0].0);
    if name == TRANSFER_ENCODING then (headers, Some(TransferFraming))
    else if (name == CONTENT_LENGTH || name == CONTENT_TYPE) && name in headers
    then (headers, Some(DuplicateBodyMetadata))
    else InsertFields(headers[name := fields[0].1], fields[1..])
  }

  predicate IsDigit(b: byte)
  {
    48 <= b <= 57
  }

  function Decimal(s: Text): nat
    requires forall i :: 0 <= i < |s| ==> IsDigit(s[i])
  {
    if s == [] then 0 else
    assert IsDigit(s[|s| - 1]);
    10 * Decimal(s[..|s| - 1]) + (s[|s| - 1] as int - 48)
  }

  /** The declared length, or why it is refused. */
  datatype Length = Length(value: Option<nat>) | BadLength(error: Error)

  function ParseContentLength(headers: map<Text, Text>): (r: Length)
    ensures r.Length? && r.value.Some? ==> r.value.value <= MAX_BODY_BYTES
  {
    if CONTENT_LENGTH !in headers then Length(None) else
    var v := headers[CONTENT_LENGTH];
    if v == [] || exists i :: 0 <= i < |v| && !IsDigit(v[i]) then BadLength(InvalidContentLength)
    else if Decimal(v) >= USIZE_LIMIT then BadLength(ContentLengthOverflow)
    else if Decimal(v) > MAX_BODY_BYTES then BadLength(BodyTooLong)
    else Length(Some(Decimal(v)))
  }

  /** The headers have arrived: the grammar reads them, and the buffer is emptied for the body. */
  function TryParseHeaders(rules: Rules, r: Request): Request
    requires r.lineStart.Some? && r.lineStart.value <= |r.buffer|
  {
    var r0 := r.(buffer := Normalized(r.buffer, r.lineStart.value));
    match rules.grammar(r0.buffer)
    case Partial => r0
    case Failed(message) => r0.(error := Some(Malformed(message)))
    case Complete(verb, target, fields) =>
      var (headers, error) := InsertFields(r0.head.headers, fields);
      var r1 := r0.(head := r0.head.(verb := verb, target := target, headers := headers));
      if error.Some? then r1.(error := error) else
      match ParseContentLength(headers)
      case BadLength(e) => r1.(error := Some(e))
      case Length(n) => r1.(head := r1.head.(contentLength := n), headersComplete := true, buffer := [])
  }

  /** The policy is consulted on the complete headers, before any body byte is kept. */
  function ConsultPolicy(rules: Rules, r: Request): Request
  {
    var r1 := r.(policyRuns := r.policyRuns + 1);
    match rules.policy(r.head)
    case Deny(message) => r1.(error := Some(PolicyError(message)))
    case Allow(limit) =>
      var most := if limit < MAX_BODY_BYTES then limit else MAX_BODY_BYTES;
      if Needed(r.head) > most then r1.(error := Some(BodyRefused)) else r1
  }

  /** Body bytes up to the declared length, the rest for the next request. */
  function TakeBody(r: Request, data: seq<byte>): Request
    requires r.headersComplete && |r.buffer| <= Needed(r.head)
  {
    var needed := Needed(r.head);
    var accepted := if |data| < needed - |r.buffer| then |data| else needed - |r.buffer|;
    var all := r.buffer + data[..accepted];
    var r1 := r.(buffer := all, wire := r.wire + data[..accepted]);
    if |all| != needed then r1 else
    r1.(complete := true, body := if needed != 0 then Some(all) else r.body, buffer := data[accepted..])
  }

  predicate AtBlankLine(r: Request)
  {
    r.lineStart.Some? && (EndsWith(r.buffer, [LF, CR, LF]) || EndsWith(r.buffer, [LF, LF]))
  }

  /** One byte of the headers. */
  function HeaderByte(rules: Rules, r: Request, b: byte): Request
    requires Well(r) && !r.headersComplete && r.error == None
  {
    if |r.buffer| == MAX_HEADER_BYTES then r.(error := Some(HeadersTooLong)) else
    var start := if r.lineStart == None && b != CR && b != LF then Some(|r.buffer|) else r.lineStart;
    var r1 := r.(lineStart := start, buffer := r.buffer + [b], wire := r.wire + [b]);
    if !AtBlankLine(r1) then r1 else
    var r2 := TryParseHeaders(rules, r1);
    if !r2.headersComplete then r2 else
    var r3 := ConsultPolicy(rules, r2);
    if r3.error.Some? then r3 else TakeBody(r3, [])
  }

  // ---------------------------------------------------------------------------------------------
  // One byte, and many
  // ---------------------------------------------------------------------------------------------

  /** What holds of every parser. */
  predicate Well(r: Request)
  {
    && (r.lineStart.Some? ==> r.headersComplete || r.lineStart.value <= |r.buffer|)
    && (r.complete ==> r.headersComplete && r.error == None)
    && (!r.headersComplete ==> |r.buffer| <= MAX_HEADER_BYTES && r.body == None && r.head.contentLength == None)
    && (r.headersComplete && !r.complete && r.error == None ==> |r.buffer| < Needed(r.head) && r.body == None)
    && (r.complete ==> if Needed(r.head) == 0 then r.body == None else r.body.Some? && |r.body.value| == Needed(r.head))
  }

  /** One byte: ignored after an error, left over after completion, else header or body. */
  function Feed(rules: Rules, r: Request, b: byte): Request
    requires Well(r)
  {
    if r.error.Some? then r
    else if r.complete then r.(buffer := r.buffer + [b])
    else if r.headersComplete then TakeBody(r, [b])
    else HeaderByte(rules, r, b)
  }

  lemma FeedWell(rules: Rules, r: Request, b: byte)
    requires Well(r)
    ensures Well(Feed(rules, r, b))
  {
    hide Normalized, InsertFields, EndsWith, ParseContentLength;
  }

  function FeedAll(rules: Rules, r: Request, data: seq<byte>): (r': Request)
    requires Well(r)
    ensures Well(r')
    decreases |data|
  {
    if data == [] then r else
    FeedWell(rules, r, data[0]);
    FeedAll(rules, Feed(rules, r, data[0]), data[1..])
  }

  /** Feeding in two pieces is feeding in one. */
  lemma {:induction false} FeedSplit(rules: Rules, r: Request, a: seq<byte>, b: seq<byte>)
    requires Well(r)
    ensures FeedAll(rules, r, a + b) == FeedAll(rules, FeedAll(rules, r, a), b)
    decreases |a|
  {
    hide Feed, Well;
    if a == [] {
      assert a + b == b;
    } else {
      FeedWell(rules, r, a[0]);
      assert (a + b)[1..] == a[1..] + b;
      FeedSplit(rules, Feed(rules, r, a[0]), a[1..], b);
    }
  }

  function FeedChunks(rules: Rules, r: Request, chunks: seq<seq<byte>>): Request
    requires Well(r)
    decreases |chunks|
  {
    if chunks == [] then r else FeedChunks(rules, FeedAll(rules, r, chunks[0]), chunks[1..])
  }

  lemma {:induction false} FeedConcat(rules: Rules, r: Request, chunks: seq<seq<byte>>)
    requires Well(r)
    ensures FeedChunks(rules, r, chunks) == FeedAll(rules, r, Concat(chunks))
    decreases |chunks|
  {
    hide Feed, Well;
    if chunks == [] {
    } else {
      FeedSplit(rules, r, chunks[0], Concat(chunks[1..]));
      FeedConcat(rules, FeedAll(rules, r, chunks[0]), chunks[1..]);
    }
  }

  /** The state after the same bytes is the same, however they were cut. */
  lemma ChunkingIndependent(rules: Rules, r: Request, a: seq<seq<byte>>, b: seq<seq<byte>>)
    requires Well(r) && Concat(a) == Concat(b)
    ensures FeedChunks(rules, r, a) == FeedChunks(rules, r, b)
  {
    FeedConcat(rules, r, a);
    FeedConcat(rules, r, b);
  }

  // ---------------------------------------------------------------------------------------------
  // What every state satisfies
  // ---------------------------------------------------------------------------------------------

  predicate Allowed(rules: Rules, h: Head)
  {
    rules.policy(h).Allow? && Needed(h) <= rules.policy(h).limit
  }

  /**
   * The policy was consulted once if the headers are complete and else not at all; bytes of a body are kept only if
   * it allowed them.
   */
  predicate Policed(rules: Rules, r: Request)
  {
    && r.policyRuns == (if r.headersComplete then 1 else 0)
    && (r.headersComplete && r.error == None ==> Allowed(rules, r.head))
    && (r.body.Some? ==> r.error == None)
    && (r.headersComplete && r.error.Some? ==> r.buffer == [] && r.body == None)
  }

  lemma FeedPoliced(rules: Rules, r: Request, b: byte)
    requires Well(r) && Policed(rules, r)
    ensures Policed(rules, Feed(rules, r, b))
  {
    hide Normalized, InsertFields, EndsWith, ParseContentLength;
  }

  /** In every state the parser can reach, the policy ran at most once and no body byte was kept against it. */
  lemma {:induction false} PolicyOnceBeforeBody(rules: Rules, r: Request, data: seq<byte>)
    requires Well(r) && Policed(rules, r)
    ensures Policed(rules, FeedAll(rules, r, data))
    decreases |data|
  {
    hide Feed, Well, Policed;
    if data == [] {
    } else {
      FeedWell(rules, r, data[0]);
      FeedPoliced(rules, r, data[0]);
      PolicyOnceBeforeBody(rules, Feed(rules, r, data[0]), data[1..]);
    }
  }

  /** Nothing changes after an error. */
  lemma {:induction false} ErrorLatched(rules: Rules, r: Request, data: seq<byte>)
    requires Well(r) && r.error.Some?
    ensures FeedAll(rules, r, data) == r
    decreases |data|
  {
    if data == [] {
    } else {
      ErrorLatched(rules, r, data[1..]);
    }
  }

  lemma {:induction false} CompleteKeeps(rules: Rules, r: Request, data: seq<byte>)
    requires Well(r) && r.complete
    ensures FeedAll(rules, r, data) == r.(buffer := r.buffer + data)
    decreases |data|
  {
    if data == [] {
      assert r.buffer + data == r.buffer;
    } else {
      var r1 := r.(buffer := r.buffer + [data[0]]);
      CompleteKeeps(rules, r1, data[1..]);
      assert r1.buffer + data[1..] == r.buffer + data;
    }
  }

  /** One byte either belongs to the request, and is the last of its bytes when it completes it. */
  lemma FeedConsumes(rules: Rules, r: Request, b: byte)
    requires Well(r) && r.error == None && !r.complete
    ensures var r' := Feed(rules, r, b);
            r'.error == None ==> r'.wire == r.wire + [b] && (r'.complete ==> r'.buffer == [])
  {
    hide Normalized, InsertFields, EndsWith, ParseContentLength;
  }

  /**
   * Bytes are conserved: while a request is incomplete all bytes fed are its own; once it is complete they are its
   * own followed by the leftover, and the leftover is shorter than what was fed.
   */
  lemma {:induction false} BytesConserved(rules: Rules, r: Request, data: seq<byte>)
    requires Well(r) && r.error == None && !r.complete
    ensures var r' := FeedAll(rules, r, data);
            && (r'.error == None && !r'.complete ==> r'.wire == r.wire + data)
            && (r'.complete ==> |r'.buffer| < |data| && r'.wire + r'.buffer == r.wire + data)
    decreases |data|
  {
    hide Feed, Well;
    if data == [] {
      assert r.wire + data == r.wire;
    } else {
      FeedWell(rules, r, data[0]);
      FeedConsumes(rules, r, data[0]);
      var r1 := Feed(rules, r, data[0]);
      assert r.wire + [data[0]] + data[1..] == r.wire + data;
      if r1.error.Some? {
        ErrorStays(rules, r1, data[1..]);
      } else if r1.complete {
        CompleteKeeps(rules, r1, data[1..]);
        assert [] + data[1..] == data[1..];
      } else {
        BytesConserved(rules, r1, data[1..]);
      }
    }
  }

  lemma ErrorStays(rules: Rules, r: Request, data: seq<byte>)
    requires Well(r) && r.error.Some?
    ensures FeedAll(rules, r, data).error.Some? && !FeedAll(rules, r, data).complete
  {
    ErrorLatched(rules, r, data);
  }

  /** The body is the end of the request's own bytes. */
  predicate BodyOnWire(r: Request)
  {
    r.headersComplete && r.error == None ==>
      if r.complete then (r.body.Some? ==> EndsWith(r.wire, r.body.value)) else EndsWith(r.wire, r.buffer)
  }

  lemma TakeBodyOnWire(r: Request, b: byte)
    requires Well(r) && r.headersComplete && !r.complete && r.error == None && BodyOnWire(r)
    ensures BodyOnWire(TakeBody(r, [b]))
  {
    assert [b][..1] == [b];
    EndsAppend(r.wire, r.buffer, [b]);
  }

  lemma EndsAppend(s: seq<byte>, t: seq<byte>, u: seq<byte>)
    requires EndsWith(s, t)
    ensures EndsWith(s + u, t + u)
  {
    assert (s + u)[|s| - |t|..] == s[|s| - |t|..] + u;
  }

  lemma FeedBodyOnWire(rules: Rules, r: Request, b: byte)
    requires Well(r) && BodyOnWire(r)
    ensures BodyOnWire(Feed(rules, r, b))
  {
    hide Normalized, InsertFields, ParseContentLength;
    if r.error == None && r.headersComplete && !r.complete {
      TakeBodyOnWire(r, b);
    } else if r.error == None && !r.headersComplete {
      HeaderBodyOnWire(rules, r, b);
    }
  }

  lemma HeaderBodyOnWire(rules: Rules, r: Request, b: byte)
    requires Well(r) && r.error == None && !r.headersComplete
    ensures BodyOnWire(HeaderByte(rules, r, b))
  {
    hide Normalized, InsertFields, EndsWith, ParseContentLength;
    EndsWithNothing();
  }

  lemma EndsWithNothing()
    ensures forall s :: EndsWith(s, [])
  {
  }

  lemma {:induction false} BodyIsSuffix(rules: Rules, r: Request, data: seq<byte>)
    requires Well(r) && BodyOnWire(r)
    ensures BodyOnWire(FeedAll(rules, r, data))
    decreases |data|
  {
    hide Feed, Well, BodyOnWire;
    if data == [] {
    } else {
      FeedWell(rules, r, data[0]);
      FeedBodyOnWire(rules, r, data[0]);
      BodyIsSuffix(rules, Feed(rules, r, data[0]), data[1..]);
    }
  }

  /** A complete request is what its own bytes alone would have given, with the leftover set aside. */
  lemma {:induction false} SelfContained(rules: Rules, r: Request, data: seq<byte>)
    requires Well(r) && r.error == None && !r.complete && FeedAll(rules, r, data).complete
    ensures var r' := FeedAll(rules, r, data);
            && |r'.buffer| < |data|
            && FeedAll(rules, r, data[..|data| - |r'.buffer|]) == r'.(buffer := [])
    decreases |data|
  {
    hide Feed, Well;
    BytesConserved(rules, r, data);
    var r' := FeedAll(rules, r, data);
    var k := |data| - |r'.buffer|;
    FeedWell(rules, r, data[0]);
    FeedConsumes(rules, r, data[0]);
    var r1 := Feed(rules, r, data[0]);
    assert data[..k][1..] == data[1..][..k - 1];
    if r1.error.Some? {
      ErrorStays(rules, r1, data[1..]);
    } else if r1.complete {
      CompleteKeeps(rules, r1, data[1..]);
      assert [] + data[1..] == data[1..];
      assert data[1..][..k - 1] == [];
    } else {
      SelfContained(rules, r1, data[1..]);
    }
  }

  // ---------------------------------------------------------------------------------------------
  // The object
  // ---------------------------------------------------------------------------------------------

  /** Taking a body in pieces is taking it at once. */
  lemma {:induction false} BodyFeed(rules: Rules, r: Request, data: seq<byte>)
    requires r.headersComplete && !r.complete && r.error == None && r.body == None && |r.buffer| <= Needed(r.head)
    requires Well(TakeBody(r, []))
    ensures FeedAll(rules, TakeBody(r, []), data) == TakeBody(r, data)
    decreases |data|
  {
    hide FeedAll, HeaderByte;
    assert r.buffer + [] == r.buffer && r.wire + [] == r.wire;
    if |r.buffer| == Needed(r.head) {
      CompleteKeeps(rules, TakeBody(r, []), data);
      assert [] + data == data;
    } else if data != [] {
      assert TakeBody(r, []) == r;
      var r1 := r.(buffer := r.buffer + [data[0]], wire := r.wire + [data[0]]);
      TakeOne(r, data[0]);
      FeedWell(rules, r, data[0]);
      FeedStep(rules, r, data);
      BodyFeed(rules, r1, data[1..]);
      TakeBodyShift(r, data);
    } else {
      assert data[..0] == [];
      FeedNothing(rules, TakeBody(r, []));
    }
  }

  lemma TakeOne(r: Request, b: byte)
    requires r.headersComplete && !r.complete && |r.buffer| < Needed(r.head)
    ensures TakeBody(r, [b]) == TakeBody(r.(buffer := r.buffer + [b], wire := r.wire + [b]), [])
  {
    assert [b][..1] == [b] && [b][1..] == [];
    assert r.buffer + [b] + [] == r.buffer + [b] && r.wire + [b] + [] == r.wire + [b];
  }

  lemma TakeBodyShift(r: Request, data: seq<byte>)
    requires r.headersComplete && !r.complete && |r.buffer| < Needed(r.head) && data != []
    ensures TakeBody(r.(buffer := r.buffer + [data[0]], wire := r.wire + [data[0]]), data[1..]) == TakeBody(r, data)
  {
    var room := Needed(r.head) - |r.buffer|;
    var k := if |data| < room then |data| else room;
    assert data[..k] == [data[0]] + data[1..][..k - 1];
    assert data[k..] == data[1..][k - 1..];
    assert r.buffer + [data[0]] + data[1..][..k - 1] == r.buffer + data[..k];
    assert r.wire + [data[0]] + data[1..][..k - 1] == r.wire + data[..k];
  }

  class HttpRequest {
    var buffer: seq<byte>
    var lineStart: Option<nat>
    var verb: Option<Text>
    var target: Option<Text>
    var headers: map<Text, Text>
    var contentLength: Option<nat>
    var body: Option<seq<byte>>
    var headersComplete: bool
    var complete: bool
    var error: Option<Error>
    ghost var policyRuns: nat
    ghost var wire: seq<byte>

    ghost function Value(): Request
      reads this
    {
      Request(buffer, lineStart, Head(verb, target, headers, contentLength), body, headersComplete, complete, error,
              policyRuns, wire)
    }

    constructor ()
      ensures Value() == NEW_REQUEST
    {
      buffer, lineStart, verb, target, headers := [], None, None, None, map[];
      contentLength, body, headersComplete, complete, error := None, None, false, false, None;
      policyRuns, wire := 0, [];
    }

    /** Parsing the headers that have arrived. */
    method ParseHeaders(rules: Rules)
      requires lineStart.Some? && lineStart.value <= |buffer| && error == None && !headersComplete
      modifies this
      ensures Value() == TryParseHeaders(rules, old(Value()))
    {
      hide Normalized, ParseContentLength, InsertFields;
      buffer := Normalized(buffer, lineStart.value);
      match rules.grammar(buffer)
      case Partial =>
      case Failed(message) =>
        error := Some(Malformed(message));
      case Complete(v, t, fields) =>
        verb, target := v, t;
        InsertAll(fields);
        if error.Some? {
          return;
        }
        match ParseContentLength(headers)
        case BadLength(e) =>
          error := Some(e);
        case Length(n) =>
          contentLength, headersComplete, buffer := n, true, [];
    }

    /** Header fields in order; the first that is refused ends it. */
    method InsertAll(fields: seq<(Text, Text)>)
      requires error == None
      modifies this`headers, this`error
      ensures (headers, error) == InsertFields(old(headers), fields)
    {
      ghost var goal := InsertFields(headers, fields);
      for i := 0 to |fields|
        invariant error == None && goal == InsertFields(headers, fields[i..])
      {
        ghost var rest := fields[i..];
        assert rest[0] == fields[i] && rest[1..] == fields[i + 1..];
        var name := Lower(fields[i].0);
        if name == TRANSFER_ENCODING {
          error := Some(TransferFraming);
          return;
        }
        if (name == CONTENT_LENGTH || name == CONTENT_TYPE) && name in headers {
          error := Some(DuplicateBodyMetadata);
          return;
        }
        headers := headers[name := fields[i].1];
      }
    }

    /** Body bytes and what follows them. */
    method BufferBodyAndLeftover(data: seq<byte>)
      requires headersComplete && |buffer| <= Needed(Value().head)
      modifies this`buffer, this`body, this`complete, this`wire
      ensures Value() == TakeBody(old(Value()), data)
    {
      var needed := if contentLength.Some? then contentLength.value else 0;
      var accepted := if |data| < needed - |buffer| then |data| else needed - |buffer|;
      buffer := buffer + data[..accepted];
      wire := wire + data[..accepted];
      if |buffer| == needed {
        if needed != 0 {
          body := Some(buffer);
        }
        buffer := [];
        complete := true;
        buffer := buffer + data[accepted..];
      }
    }

    method Consult(rules: Rules)
      requires error == None
      modifies this`error, this`policyRuns
      ensures Value() == ConsultPolicy(rules, old(Value()))
    {
      policyRuns := policyRuns + 1;
      var h := Head(verb, target, headers, contentLength);
      match rules.policy(h)
      case Deny(message) =>
        error := Some(PolicyError(message));
      case Allow(limit) =>
        var most := if limit < MAX_BODY_BYTES then limit else MAX_BODY_BYTES;
        if Needed(h) > most {
          error := Some(BodyRefused);
        }
    }

    /** One header byte up to the policy decision; `done` when the headers are complete and allowed. */
    method TakeHeaderByte(rules: Rules, b: byte) returns (done: bool)
      requires Well(Value()) && !headersComplete && error == None
      modifies this
      ensures done == (headersComplete && error == None)
      ensures !done ==> Value() == HeaderByte(rules, old(Value()), b)
      ensures done ==> !complete && body == None && |buffer| <= Needed(Value().head)
      ensures done ==> TakeBody(Value(), []) == HeaderByte(rules, old(Value()), b)
    {
      hide TryParseHeaders, ConsultPolicy, EndsWith, TakeBody;
      if |buffer| == MAX_HEADER_BYTES {
        error := Some(HeadersTooLong);
        return false;
      }
      if lineStart == None && b != CR && b != LF {
        lineStart := Some(|buffer|);
      }
      buffer := buffer + [b];
      wire := wire + [b];
      if lineStart.Some? && (EndsWith(buffer, [LF, CR, LF]) || EndsWith(buffer, [LF, LF])) {
        HeadersParsed(rules, Value());
        ParseHeaders(rules);
        if headersComplete {
          PolicyConsulted(rules, Value());
          Consult(rules);
        }
      }
      done := headersComplete && error == None;
    }

    /** A chunk of any size does what its bytes do. */
    method AddData(rules: Rules, data: seq<byte>) returns (ok: bool)
      requires Well(Value())
      modifies this
      ensures Well(Value()) && Value() == FeedAll(rules, old(Value()), data)
      ensures ok == (error == None)
    {
      hide HeaderByte, TakeBody, FeedAll;
      ghost var goal := FeedAll(rules, Value(), data);
      if error.Some? {
        ErrorLatched(rules, Value(), data);
        return false;
      }
      if complete {
        CompleteKeeps(rules, Value(), data);
        buffer := buffer + data;
        return true;
      }
      var rest := data;
      if !headersComplete {
        var done := false;
        while rest != [] && !done
          invariant error == None
          invariant !done ==> !headersComplete && Well(Value()) && FeedAll(rules, Value(), rest) == goal
          invariant done ==> Ready(Value(), rules, rest, goal)
          decreases |rest|
        {
          ghost var r := Value();
          FeedWell(rules, r, rest[0]);
          FeedStep(rules, r, rest);
          done := TakeHeaderByte(rules, rest[0]);
          rest := rest[1..];
          if error.Some? {
            ErrorLatched(rules, Value(), rest);
            return false;
          }
        }
        if !done {
          FeedNothing(rules, Value());
          return true;
        }
      } else {
        StillTaking(Value());
      }
      BodyFeed(rules, Value(), rest);
      BufferBodyAndLeftover(rest);
      return true;
    }

    method TakeLeftover() returns (leftover: seq<byte>)
      modifies this`buffer
      ensures leftover == (if complete then old(buffer) else [])
      ensures buffer == (if complete then [] else old(buffer))
    {
      if !complete {
        return [];
      }
      leftover := buffer;
      buffer := [];
    }
  }

  lemma HeadersParsed(rules: Rules, r: Request)
    requires r.lineStart.Some? && r.lineStart.value <= |r.buffer| && r.error == None && !r.headersComplete
    ensures var r' := TryParseHeaders(rules, r);
            && r'.body == r.body && r'.complete == r.complete
            && (r'.headersComplete ==> r'.error == None && r'.buffer == [])
  {
    hide Normalized, ParseContentLength, InsertFields;
  }

  lemma PolicyConsulted(rules: Rules, r: Request)
    ensures var r' := ConsultPolicy(rules, r);
            && r'.head == r.head && r'.buffer == r.buffer && r'.body == r.body
            && r'.complete == r.complete && r'.headersComplete == r.headersComplete
  {
  }

  /** Headers done and allowed, body still to come: what is left of the chunk gives the goal. */
  ghost predicate Ready(r: Request, rules: Rules, rest: seq<byte>, goal: Request)
  {
    && r.headersComplete && !r.complete && r.error == None && r.body == None && |r.buffer| <= Needed(r.head)
    && Well(TakeBody(r, [])) && FeedAll(rules, TakeBody(r, []), rest) == goal
  }

  lemma StillTaking(r: Request)
    requires Well(r) && r.headersComplete && !r.complete && r.error == None
    ensures TakeBody(r, []) == r
  {
    assert r.buffer + [] == r.buffer && r.wire + [] == r.wire;
  }

  lemma FeedStep(rules: Rules, r: Request, data: seq<byte>)
    requires Well(r) && data != []
    ensures Well(Feed(rules, r, data[0]))
    ensures FeedAll(rules, r, data) == FeedAll(rules, Feed(rules, r, data[0]), data[1..])
  {
    hide Feed;
    FeedWell(rules, r, data[0]);
  }

  lemma FeedNothing(rules: Rules, r: Request)
    requires Well(r)
    ensures FeedAll(rules, r, []) == r
  {
  }
}
