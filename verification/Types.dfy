/** Values shared by every part of the model. */
module Types {

  datatype Option<+T> = None | Some(value: T)

  type Byte = x: nat | x < 256
  type Bytes = seq<Byte>

  /** A Rust `String` is its UTF-8 encoding; paths, queries and segments are byte strings. */
  type Text = Bytes

  const SLASH: Byte := 47
  const COLON: Byte := 58

  /** Instants and durations, in milliseconds. */
  type Millis = nat

  const MID_SPACE: nat := 0x1_0000
  const TOKEN_SPACE: nat := 0x1_0000_0000

  type Mid = m: nat | m < MID_SPACE
  type TokenNumber = n: nat | n < TOKEN_SPACE
  type Token = Bytes

  datatype SocketAddr = SocketAddr(ip: nat, port: nat)

  datatype MessageType = Confirmable | NonConfirmable | Acknowledgement | Reset

  datatype RequestType = Get | Post | Put | Delete | OtherMethod(code: nat)

  datatype ResponseType = NotFound | MethodNotAllowed | OtherStatus(code: nat)

  datatype MessageClass =
    | Empty
    | Request(requestType: RequestType)
    | Response(responseType: ResponseType)
    | Reserved(code: nat)

  datatype ContentFormat = ContentFormat(code: nat)

  /** A decoded CoAP message. An option that is absent is an empty list of values. */
  datatype Packet = Packet(
    messageType: MessageType,
    code: MessageClass,
    messageId: Mid,
    token: Token,
    uriPath: seq<Bytes>,
    uriQuery: seq<Bytes>,
    contentFormat: Option<ContentFormat>,
    accept: seq<Bytes>,
    payload: Bytes)

  ghost predicate Distinct<T(!new)>(s: seq<T>) { forall i, j :: 0 <= i < j < |s| ==> s[i] != s[j] }

  /** The message `Packet::new` starts from: a confirmable empty message with no options. */
  const NEW_PACKET := Packet(Confirmable, Empty, 0, [], [], [], None, [], [])
}
