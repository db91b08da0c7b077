/** Requests and responses, and their mapping to and from packets. */
module Messages {
  import opened Types
  import opened Paths

  datatype Result<+T> = Ok(value: T) | Err(error: MessageError)

  datatype MessageError = NotAResponse | NotARequest

  datatype CoapResponse = CoapResponse(
    status: ResponseType, contentFormat: Option<ContentFormat>, payload: Bytes)

  datatype CoapRequest = CoapRequest(
    requestType: RequestType,
    path: Text,
    queries: seq<Text>,
    contentFormat: Option<ContentFormat>,
    payload: Bytes,
    accept: Option<ContentFormat>,
    confirmable: bool)

  // ---- Unsigned integer options (section 3.2 of RFC 7252) ----

  /** Fewest big-endian bytes for a 16-bit option value; zero is the empty string. */
  function MinimalU16(v: nat): (r: Bytes)
    requires v < 0x1_0000
    ensures |r| <= 2
  {
    if v == 0 then [] else if v < 256 then [v] else [v / 256, v % 256]
  }

  function BigEndian(b: Bytes): nat {
    if b == [] then 0 else 256 * BigEndian(b[..|b| - 1]) + b[|b| - 1]
  }

  function Pow256(n: nat): nat { if n == 0 then 1 else 256 * Pow256(n - 1) }

  /** The first byte is the most significant. */
  lemma {:induction false} BigEndianFirst(x: Byte, b: Bytes)
    ensures BigEndian([x] + b) == x * Pow256(|b|) + BigEndian(b) && BigEndian(b) < Pow256(|b|)
    decreases |b|
  {
    if b == [] {
      assert [x] + b == [x] && [x][..0] == [];
      assert BigEndian([x][..0]) == 0;
    } else {
      var n := |b| - 1;
      BigEndianFirst(x, b[..n]);
      assert ([x] + b)[..n + 1] == [x] + b[..n];
      assert 256 * (x * Pow256(n)) == x * (256 * Pow256(n));
    }
  }

  /** No leading zero, and no shorter value list of bytes means the same. */
  lemma MinimalU16IsShortest(v: nat, b: Bytes)
    requires v < 0x1_0000
    ensures MinimalU16(v) != [] ==> MinimalU16(v)[0] != 0
    ensures BigEndian(b) == v ==> |MinimalU16(v)| <= |b|
  {
    if |b| == 1 {
      assert b[..0] == [] && BigEndian(b[..0]) == 0;
    }
  }

  lemma MinimalU16RoundTrip(v: nat)
    requires v < 0x1_0000
    ensures BigEndian(MinimalU16(v)) == v
  {
    var r := MinimalU16(v);
    if v >= 256 {
      assert r[..1] == [v / 256] && r[..1][..0] == [];
      assert BigEndian(r[..1]) == v / 256;
    } else if v > 0 {
      assert r[..0] == [];
    }
  }

  lemma {:induction false} LeadingZeros(n: nat, b: Bytes)
    ensures BigEndian(seq(n, _ => 0) + b) == BigEndian(b)
    decreases n + |b|
  {
    var z: Bytes := seq(n, _ => 0);
    if b != [] {
      assert (z + b)[..|z + b| - 1] == z + b[..|b| - 1];
      LeadingZeros(n, b[..|b| - 1]);
    } else if n > 0 {
      var y: Bytes := seq(n - 1, _ => 0);
      assert (z + b)[..n - 1] == y + [];
      LeadingZeros(n - 1, []);
    }
  }

  /** The Accept decoder: right-align the raw bytes in a zeroed 8-byte buffer and read it big-endian. */
  method DecodeAccept(raw: Bytes) returns (code: nat)
    requires |raw| <= 8
    ensures code == BigEndian(raw)
  {
    var bytes := new Byte[8](_ => 0);
    var offset := 8 - |raw|;
    for i := 0 to |raw|
      invariant forall j :: 0 <= j < offset ==> bytes[j] == 0
      invariant forall j :: 0 <= j < i ==> bytes[offset + j] == raw[j]
    {
      bytes[offset + i] := raw[i];
    }
    assert bytes[..] == seq(offset, _ => 0) + raw;
    LeadingZeros(offset, raw);
    code := 0;
    for i := 0 to 8
      invariant code == BigEndian(bytes[..i])
    {
      assert bytes[..i + 1][..i] == bytes[..i];
      code := 256 * code + bytes[i];
    }
    assert bytes[..8] == bytes[..];
  }

  // ---- Requests ----

  /** What `ContentFormat::try_from` does, for the set of codes the library knows. */
  function KnownFormat(code: nat, known: set<nat>): Option<ContentFormat> {
    if code in known then Some(ContentFormat(code)) else None
  }

  /** Values of a text option, the ones that are not UTF-8 dropped. */
  function TextValues(values: seq<Bytes>): seq<Text> {
    if values == [] then []
    else if Utf8(values[0]) then [values[0]] + TextValues(values[1..])
    else TextValues(values[1..])
  }

  /** r lists the UTF-8 ones of the values, at the indices given in rising order. */
  ghost predicate Picks(values: seq<Bytes>, r: seq<Text>, at: seq<nat>) {
    && |at| == |r|
    && (forall k :: 0 <= k < |at| ==> at[k] < |values| && r[k] == values[at[k]])
    && (forall j, k :: 0 <= j < k < |at| ==> at[j] < at[k])
    && (forall i :: 0 <= i < |values| ==> (Utf8(values[i]) <==> i in at))
  }

  /** r is all the UTF-8 ones of the values, in their order. */
  ghost predicate KeepsUtf8(values: seq<Bytes>, r: seq<Text>) { exists at :: Picks(values, r, at) }

  lemma {:induction false} TextValuesAppend(a: seq<Bytes>, v: Bytes, b: seq<Bytes>)
    ensures TextValues(a + [v] + b) == TextValues(a) + (if Utf8(v) then [v] else []) + TextValues(b)
    decreases |a|
  {
    hide Utf8;
    var all := a + [v] + b;
    if a == [] {
      assert all[0] == v && all[1..] == b;
    } else {
      assert all[0] == a[0] && all[1..] == a[1..] + [v] + b;
      TextValuesAppend(a[1..], v, b);
    }
  }

  lemma TextValuesNext(values: seq<Bytes>, v: Bytes)
    ensures TextValues(values + [v]) == if Utf8(v) then TextValues(values) + [v] else TextValues(values)
  {
    hide Utf8;
    assert values + [v] + [] == values + [v] && TextValues([]) == [];
    TextValuesAppend(values, v, []);
    hide TextValues;
    var r := TextValues(values);
    assert r + [] + [] == r && r + [v] + [] == r + [v];
  }

  lemma {:induction false} TextValuesPicks(values: seq<Bytes>) returns (at: seq<nat>)
    ensures Picks(values, TextValues(values), at)
    decreases |values|
  {
    hide Utf8;
    if values == [] {
      at := [];
    } else {
      var n := |values| - 1;
      var before := TextValuesPicks(values[..n]);
      TextValuesNext(values[..n], values[n]);
      hide TextValues, Picks;
      PicksNext(values[..n], TextValues(values[..n]), before, values[n]);
      at := if Utf8(values[n]) then before + [n] else before;
      assert values == values[..n] + [values[n]];
    }
  }

  lemma PicksNext(values: seq<Bytes>, r: seq<Text>, at: seq<nat>, v: Bytes)
    requires Picks(values, r, at)
    ensures if Utf8(v) then Picks(values + [v], r + [v], at + [|values|]) else Picks(values + [v], r, at)
  {
    hide Utf8;
    var all, at' := values + [v], if Utf8(v) then at + [|values|] else at;
    forall i | 0 <= i < |all|
      ensures Utf8(all[i]) <==> i in at'
    {
      if i < |values| { assert all[i] == values[i]; }
    }
  }

  /** A text option yields all its UTF-8 values, in order, and nothing else. */
  lemma TextValuesKeepsUtf8(values: seq<Bytes>)
    ensures KeepsUtf8(values, TextValues(values))
  {
    var at := TextValuesPicks(values);
  }

  function RequestFromPacket(p: Packet, known: set<nat>): (r: Result<CoapRequest>)
    requires p.accept != [] ==> |p.accept[0]| <= 8
  {
    if !p.code.Request? then Err(NotARequest)
    else Ok(CoapRequest(
              p.code.requestType,
              Normal(TextValues(p.uriPath)),
              TextValues(p.uriQuery),
              p.contentFormat,
              p.payload,
              if p.accept == [] then None else KnownFormat(BigEndian(p.accept[0]), known),
              p.messageType == Confirmable))
  }

  /** `CoapRequest::from_packet`, the Accept value going through its byte buffer. */
  method ParseRequest(p: Packet, known: set<nat>) returns (r: Result<CoapRequest>)
    requires p.accept != [] ==> |p.accept[0]| <= 8
    ensures r == RequestFromPacket(p, known)
    ensures !p.code.Request? ==> r == Err(NotARequest)
    ensures p.code.Request? ==>
      && r.Ok?
      && r.value.requestType == p.code.requestType
      && r.value.contentFormat == p.contentFormat && r.value.payload == p.payload
      && (r.value.confirmable <==> p.messageType.Confirmable?)
      && r.value.accept == (if p.accept != [] && BigEndian(p.accept[0]) in known
                            then Some(ContentFormat(BigEndian(p.accept[0]))) else None)
      && KeepsUtf8(p.uriQuery, r.value.queries)
      && exists segments ::
           KeepsUtf8(p.uriPath, segments) && r.value.path == if segments == [] then [SLASH] else Slashed(segments)
  {
    TextValuesKeepsUtf8(p.uriQuery);
    TextValuesKeepsUtf8(p.uriPath);
    NormalIsSlashed(TextValues(p.uriPath));
    hide TextValues, KeepsUtf8, Normal, Slashed;
    if !p.code.Request? {
      return Err(NotARequest);
    }
    var accept: Option<ContentFormat> := None;
    if p.accept != [] {
      var code := DecodeAccept(p.accept[0]);
      accept := KnownFormat(code, known);
    }
    return Ok(CoapRequest(p.code.requestType, Normal(TextValues(p.uriPath)), TextValues(p.uriQuery), p.contentFormat,
                          p.payload, accept, p.messageType == Confirmable));
  }

  /** The packet a request becomes. The Accept code is cut to 16 bits. */
  function RequestPacket(r: CoapRequest, token: Token, mid: Mid): Packet {
    Packet(
      if r.confirmable then Confirmable else NonConfirmable,
      Request(r.requestType),
      mid,
      token,
      Segments(r.path),
      r.queries,
      r.contentFormat,
      if r.accept.Some? then [MinimalU16(r.accept.value.code % 0x1_0000)] else [],
      r.payload)
  }

  /** The packet says all there is in the request, under this token and MID, and nothing else: a CON or a NON as the
      request asks, with the Accept code as the shortest big-endian bytes of its last 16 bits. */
  predicate CarriesRequest(p: Packet, r: CoapRequest, token: Token, mid: Mid) {
    && p.messageType == (if r.confirmable then Confirmable else NonConfirmable)
    && p.code == Request(r.requestType)
    && p.messageId == mid && p.token == token
    && p.uriPath == Segments(r.path) && p.uriQuery == r.queries
    && p.contentFormat == r.contentFormat && p.payload == r.payload
    && |p.accept| == (if r.accept.Some? then 1 else 0)
    && (r.accept.Some? ==>
          && BigEndian(p.accept[0]) == r.accept.value.code % 0x1_0000
          && (p.accept[0] != [] ==> p.accept[0][0] != 0))
  }

  lemma CarriesOf(r: CoapRequest, token: Token, mid: Mid)
    ensures CarriesRequest(RequestPacket(r, token, mid), r, token, mid)
  {
    if r.accept.Some? {
      MinimalU16RoundTrip(r.accept.value.code % 0x1_0000);
      MinimalU16IsShortest(r.accept.value.code % 0x1_0000, []);
    }
  }

  /** `CoapRequest::to_packet`, field by field. */
  method RequestToPacket(r: CoapRequest, token: Token, mid: Mid) returns (pkt: Packet)
    ensures pkt == RequestPacket(r, token, mid)
    ensures CarriesRequest(pkt, r, token, mid)
  {
    CarriesOf(r, token, mid);
    hide CarriesRequest, MinimalU16;
    pkt := NEW_PACKET;
    pkt := pkt.(token := token);
    pkt := pkt.(messageId := mid);
    pkt := pkt.(code := Request(r.requestType));
    pkt := pkt.(messageType := if r.confirmable then Confirmable else NonConfirmable);
    ghost var start := pkt;
    if r.path != [] {
      var segments := Segments(r.path);
      for i := 0 to |segments|
        invariant pkt == start.(uriPath := segments[..i])
      {
        pkt := pkt.(uriPath := pkt.uriPath + [segments[i]]);
      }
    } else {
      SplitSlashFree([]);
    }
    assert pkt == start.(uriPath := Segments(r.path));
    for i := 0 to |r.queries|
      invariant pkt == start.(uriPath := Segments(r.path), uriQuery := r.queries[..i])
    {
      pkt := pkt.(uriQuery := pkt.uriQuery + [r.queries[i]]);
    }
    if r.contentFormat.Some? {
      pkt := pkt.(contentFormat := r.contentFormat);
    }
    if r.accept.Some? {
      var value := r.accept.value.code % 0x1_0000;
      pkt := pkt.(accept := pkt.accept + [MinimalU16(value)]);
    }
    if r.payload != [] {
      pkt := pkt.(payload := r.payload);
    }
  }

  /** What Rust's `String` type guarantees of a request's text. */
  predicate WellFormed(r: CoapRequest) {
    Utf8(r.path) && forall q :: q in r.queries ==> Utf8(q)
  }

  lemma {:induction false} TextValuesKeepsAll(values: seq<Bytes>)
    requires forall v :: v in values ==> Utf8(v)
    ensures TextValues(values) == values
    decreases |values|
  {
    if values != [] { TextValuesKeepsAll(values[1..]); }
  }

  /** A request survives its packet, except that its path is normalised; its segments survive too.
      The Accept format survives exactly when its code is known and fits 16 bits. */
  lemma RequestRoundTrip(r: CoapRequest, token: Token, mid: Mid, known: set<nat>)
    requires WellFormed(r)
    ensures var back := RequestFromPacket(RequestPacket(r, token, mid), known);
      && back.Ok?
      && back.value.(accept := r.accept) == r.(path := Normal(Segments(r.path)))
      && (back.value.accept == r.accept <==>
          (r.accept.Some? ==> r.accept.value.code < 0x1_0000 && r.accept.value.code in known))
      && Segments(back.value.path) == Segments(r.path)
  {
    Utf8Segments(r.path);
    TextValuesKeepsAll(Segments(r.path));
    TextValuesKeepsAll(r.queries);
    SegmentsOfNormal(Segments(r.path));
    if r.accept.Some? {
      MinimalU16RoundTrip(r.accept.value.code % 0x1_0000);
    }
  }

  lemma ScalarLengthAppend(a: Bytes, b: Bytes)
    requires ScalarLength(a) > 0
    ensures ScalarLength(a + b) == ScalarLength(a)
  {
    var n := ScalarLength(a);
    assert forall i :: 0 <= i < |a| ==> (a + b)[i] == a[i];
  }

  lemma {:induction false} Utf8Append(a: Bytes, b: Bytes)
    requires Utf8(a) && Utf8(b)
    ensures Utf8(a + b)
    decreases |a|
  {
    if a == [] {
      assert a + b == b;
    } else {
      var n := ScalarLength(a);
      ScalarLengthAppend(a, b);
      hide ScalarLength;
      assert (a + b)[n..] == a[n..] + b;
      Utf8Append(a[n..], b);
    }
  }

  lemma {:induction false} Utf8Join(pieces: seq<Text>)
    requires forall x :: x in pieces ==> Utf8(x)
    ensures Utf8(Join(pieces))
    decreases |pieces|
  {
    if |pieces| > 1 {
      Utf8Join(pieces[1..]);
      assert Utf8([SLASH]) by { assert [SLASH][1..] == []; }
      Utf8Append(pieces[0], [SLASH]);
      Utf8Append(pieces[0] + [SLASH], Join(pieces[1..]));
    }
  }

  /** What one trip yields is well-formed and a second trip changes nothing more. */
  lemma SecondTripIsIdentity(r: CoapRequest, token: Token, mid: Mid, token': Token, mid': Mid, known: set<nat>)
    requires WellFormed(r)
    ensures var once := RequestFromPacket(RequestPacket(r, token, mid), known);
      once.Ok? && RequestFromPacket(RequestPacket(once.value, token', mid'), known) == once
  {
    RequestRoundTrip(r, token, mid, known);
    var once := RequestFromPacket(RequestPacket(r, token, mid), known).value;
    Utf8Segments(r.path);
    Utf8Join(Segments(r.path));
    assert Utf8([SLASH]) by { assert [SLASH][1..] == []; }
    Utf8Append([SLASH], Join(Segments(r.path)));
    if r.accept.Some? {
      MinimalU16RoundTrip(r.accept.value.code % 0x1_0000);
    }
    RequestRoundTrip(once, token', mid', known);
  }

  // ---- Responses ----

  function ResponseFromPacket(p: Packet): (r: Result<CoapResponse>) {
    if p.code.Response? then Ok(CoapResponse(p.code.responseType, p.contentFormat, p.payload))
    else Err(NotAResponse)
  }

  function ResponsePacket(r: CoapResponse, token: Token, mid: Mid, messageType: MessageType): Packet {
    Packet(messageType, Response(r.status), mid, token, [], [], r.contentFormat, [], r.payload)
  }

  /** The packet says all there is in the response, as this type of message under this token and MID, nothing else. */
  predicate CarriesResponse(p: Packet, r: CoapResponse, token: Token, mid: Mid, messageType: MessageType) {
    && p.messageType == messageType && p.code == Response(r.status)
    && p.messageId == mid && p.token == token
    && p.contentFormat == r.contentFormat && p.payload == r.payload
    && p.uriPath == [] && p.uriQuery == [] && p.accept == []
  }

  /** `CoapResponse::to_packet`, field by field. */
  method ResponseToPacket(r: CoapResponse, token: Token, mid: Mid, messageType: MessageType) returns (pkt: Packet)
    ensures pkt == ResponsePacket(r, token, mid, messageType)
    ensures CarriesResponse(pkt, r, token, mid, messageType)
  {
    pkt := NEW_PACKET;
    pkt := pkt.(token := token);
    pkt := pkt.(messageId := mid);
    pkt := pkt.(messageType := messageType);
    pkt := pkt.(code := Response(r.status));
    pkt := pkt.(payload := r.payload);
    if r.contentFormat.Some? {
      pkt := pkt.(contentFormat := r.contentFormat);
    }
  }

  /** A response survives its packet whatever message type, MID and token carry it,
      and nothing else decodes to it but a packet with its code, format and payload. */
  lemma ResponseRoundTrip(r: CoapResponse, p: Packet)
    ensures (exists t, m, k :: ResponsePacket(r, t, m, k) == p.(uriPath := [], uriQuery := [], accept := []))
       <==> ResponseFromPacket(p) == Ok(r)
    ensures ResponseFromPacket(p) == Ok(r) <==>
            p.code == Response(r.status) && p.contentFormat == r.contentFormat && p.payload == r.payload
    ensures ResponseFromPacket(p).Err? <==> !p.code.Response?
  {
    if ResponseFromPacket(p) == Ok(r) {
      assert ResponsePacket(r, p.token, p.messageId, p.messageType) == p.(uriPath := [], uriQuery := [], accept := []);
    }
  }
}
