/** The one-byte request and response codes of the wire protocol: the ordinals of
    the REQ and RESP enumerations, and the bounds-checked lookups that decode them. */
module CommFlags {
  import opened Wrappers
  import opened Bytes

  /** Requests a client sends; a request's code is its position here. */
  datatype Req =
    | REQBOX | DISCONNECTBOX | CREATEBOX | REMOVEBOX | DISCONNECT
    | SENDLETTER | GETMAIL | NEXTLETTER | SATIATED | EMPTYBOX

  /** Responses the server sends; a response's code is its position here. */
  datatype Resp =
    | NOAUTH | BADCOMMAND | ALREADYCONNECTED | MAILTIMEOUT | BOXEXISTS
    | NONEXISTENTBOX | NOBOXCONNECTION | BOXINUSE | DELIVERYFAILURE | SHUTDOWN
    | COMMTIMEOUT | REQDATA | REQGRANTED | NOMAIL | INCOMINGMAIL

  /** REQ.values(), in declaration order. */
  const ReqValues: seq<Req> :=
    [REQBOX, DISCONNECTBOX, CREATEBOX, REMOVEBOX, DISCONNECT,
     SENDLETTER, GETMAIL, NEXTLETTER, SATIATED, EMPTYBOX]

  /** RESP.values(), in declaration order. */
  const RespValues: seq<Resp> :=
    [NOAUTH, BADCOMMAND, ALREADYCONNECTED, MAILTIMEOUT, BOXEXISTS,
     NONEXISTENTBOX, NOBOXCONNECTION, BOXINUSE, DELIVERYFAILURE, SHUTDOWN,
     COMMTIMEOUT, REQDATA, REQGRANTED, NOMAIL, INCOMINGMAIL]

  /** The byte that ends every line of a frame. */
  const EndOfLine: byte := 0x0A

  /** Req.ordinal(): the position of a request in ReqValues. */
  function ReqOrdinal(r: Req): (n: nat)
    ensures n < |ReqValues| && ReqValues[n] == r
  {
    match r
    case REQBOX => 0
    case DISCONNECTBOX => 1
    case CREATEBOX => 2
    case REMOVEBOX => 3
    case DISCONNECT => 4
    case SENDLETTER => 5
    case GETMAIL => 6
    case NEXTLETTER => 7
    case SATIATED => 8
    case EMPTYBOX => 9
  }

  /** Resp.ordinal(): the position of a response in RespValues. */
  function RespOrdinal(r: Resp): (n: nat)
    ensures n < |RespValues| && RespValues[n] == r
  {
    match r
    case NOAUTH => 0
    case BADCOMMAND => 1
    case ALREADYCONNECTED => 2
    case MAILTIMEOUT => 3
    case BOXEXISTS => 4
    case NONEXISTENTBOX => 5
    case NOBOXCONNECTION => 6
    case BOXINUSE => 7
    case DELIVERYFAILURE => 8
    case SHUTDOWN => 9
    case COMMTIMEOUT => 10
    case REQDATA => 11
    case REQGRANTED => 12
    case NOMAIL => 13
    case INCOMINGMAIL => 14
  }

  /** The byte written for a response. */
  function RespByte(r: Resp): (b: byte)
    ensures b as int == RespOrdinal(r)
  {
    RespOrdinal(r)
  }

  /** The byte written for a request. */
  function ReqByte(r: Req): (b: byte)
    ensures b as int == ReqOrdinal(r)
  {
    ReqOrdinal(r)
  }

  /** getReqByCode: the request whose ordinal is `code`, or None (Java's null) for a
      code outside 0..9, including the -1 that InputStream.read returns at the end of
      the stream. */
  function GetReqByCode(code: int): (r: Option<Req>)
    ensures r.None? <==> code < 0 || code > 9
    ensures r.Some? ==> ReqOrdinal(r.value) == code
  {
    if code < 0 || code > |ReqValues| - 1 then None else Some(ReqValues[code])
  }

  /** getRespByCode: the response whose ordinal is `code`, or None for a code outside
      0..14, including -1. */
  function GetRespByCode(code: int): (r: Option<Resp>)
    ensures r.None? <==> code < 0 || code > 14
    ensures r.Some? ==> RespOrdinal(r.value) == code
  {
    if code < 0 || code > |RespValues| - 1 then None else Some(RespValues[code])
  }

  /** Decoding a request's ordinal gives back that request. */
  lemma ReqCodeRoundTrip(r: Req)
    ensures GetReqByCode(ReqOrdinal(r)) == Some(r)
  {
  }

  /** Decoding a response's ordinal gives back that response. */
  lemma RespCodeRoundTrip(r: Resp)
    ensures GetRespByCode(RespOrdinal(r)) == Some(r)
  {
  }

  /** Distinct requests have distinct codes, so a code names one request. */
  lemma ReqOrdinalInjective(r: Req, s: Req)
    ensures ReqOrdinal(r) == ReqOrdinal(s) ==> r == s
  {
  }

  /** Distinct responses have distinct codes. */
  lemma RespOrdinalInjective(r: Resp, s: Resp)
    ensures RespOrdinal(r) == RespOrdinal(s) ==> r == s
  {
  }
}
