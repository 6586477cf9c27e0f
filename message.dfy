/** Typed messages carried as letter payloads: Message's sender and initialisation
    contract, and LiveStreamMessage, whose payload is three writeUTF strings (both
    participants and the live-stream id as a UUID string). */
module Messages {
  import opened Wrappers
  import opened Exceptions
  import opened Bytes
  import opened Text

  // ---------------------------------------------------------------- UUID strings

  type Nibble = n: int | 0 <= n < 16

  /** A UUID as its 32 hexadecimal digits, most significant first. */
  type Uuid = d: seq<Nibble> | |d| == 32 witness seq(32, i => 0)

  function HexChar(n: Nibble): (c: char)
    ensures 1 <= c as int < 0x80
  {
    if n < 10 then ('0' as int + n) as char else ('a' as int + n - 10) as char
  }

  /** The value of a hexadecimal digit of either case, as Long.parseLong(s, 16) reads it. */
  function HexValue(c: char): Option<Nibble>
  {
    if '0' <= c <= '9' then Some(c as int - '0' as int)
    else if 'a' <= c <= 'f' then Some(c as int - 'a' as int + 10)
    else if 'A' <= c <= 'F' then Some(c as int - 'A' as int + 10)
    else None
  }

  function Hex(ds: seq<Nibble>): (s: string)
    ensures |s| == |ds|
    ensures forall i :: 0 <= i < |ds| ==> s[i] == HexChar(ds[i])
  {
    if ds == [] then [] else [HexChar(ds[0])] + Hex(ds[1..])
  }

  function ParseHex(s: string): (r: Option<seq<Nibble>>)
    ensures r.Some? ==> |r.value| == |s|
    ensures r.Some? <==> forall i :: 0 <= i < |s| ==> HexValue(s[i]).Some?
    ensures r.Some? ==> forall i :: 0 <= i < |s| ==> r.value[i] == HexValue(s[i]).value
  {
    if s == [] then Some([])
    else
      match HexValue(s[0])
      case None => None
      case Some(d) =>
        match ParseHex(s[1..])
        case None => None
        case Some(t) => Some([d] + t)
  }

  lemma {:induction false} ParseHexRoundTrip(ds: seq<Nibble>)
    ensures ParseHex(Hex(ds)) == Some(ds)
  {
    if ds != [] {
      assert Hex(ds)[1..] == Hex(ds[1..]);
      ParseHexRoundTrip(ds[1..]);
      assert [ds[0]] + ds[1..] == ds;
    }
  }

  /** UUID.toString: lower-case digits grouped 8-4-4-4-12 by dashes, the layout of
      section 3 of RFC 4122. */
  function UuidToString(u: Uuid): (s: string)
    ensures |s| == 36
    ensures s[8] == '-' && s[13] == '-' && s[18] == '-' && s[23] == '-'
  {
    Hex(u[..8]) + "-" + Hex(u[8..12]) + "-" + Hex(u[12..16]) + "-" + Hex(u[16..20]) + "-" + Hex(u[20..])
  }

  /** UUID.fromString on the canonical layout; None for the IllegalArgumentException. */
  /** The 32 digits of a 36-character string once the dashes at 8, 13, 18 and 23 are
      dropped are hexadecimal exactly when its other characters are. */
  lemma DigitsOfDashed(s: string)
    requires |s| == 36
    ensures var t := s[..8] + s[9..13] + s[14..18] + s[19..23] + s[24..];
            (forall j :: 0 <= j < |t| ==> HexValue(t[j]).Some?) <==>
            (forall i :: 0 <= i < 36 && i != 8 && i != 13 && i != 18 && i != 23 ==> HexValue(s[i]).Some?)
  {
    var t := s[..8] + s[9..13] + s[14..18] + s[19..23] + s[24..];
    assert |t| == 32;
    forall j | 0 <= j < 32
      ensures t[j] == s[if j < 8 then j else if j < 12 then j + 1 else if j < 16 then j + 2 else if j < 20 then j + 3 else j + 4]
    {
    }
    forall i | 0 <= i < 36 && i != 8 && i != 13 && i != 18 && i != 23
      ensures s[i] == t[if i < 8 then i else if i < 13 then i - 1 else if i < 18 then i - 2 else if i < 23 then i - 3 else i - 4]
    {
    }
  }

  function UuidFromString(s: string): (r: Option<Uuid>)
    ensures r.Some? <==>
              |s| == 36 && s[8] == '-' && s[13] == '-' && s[18] == '-' && s[23] == '-'
              && forall i :: 0 <= i < 36 && i != 8 && i != 13 && i != 18 && i != 23 ==> HexValue(s[i]).Some?
  {
    if |s| != 36 || s[8] != '-' || s[13] != '-' || s[18] != '-' || s[23] != '-' then None
    else
      DigitsOfDashed(s);
      match ParseHex(s[..8] + s[9..13] + s[14..18] + s[19..23] + s[24..])
      case None => None
      case Some(ds) => Some(ds)
  }

  lemma HexAppend(a: seq<Nibble>, b: seq<Nibble>)
    ensures Hex(a + b) == Hex(a) + Hex(b)
  {
    forall i | 0 <= i < |a + b|
      ensures Hex(a + b)[i] == (Hex(a) + Hex(b))[i]
    {
      if i < |a| {
        assert (a + b)[i] == a[i];
      } else {
        assert (a + b)[i] == b[i - |a|];
      }
    }
  }

  /** The five groups of a dashed string are where UuidFromString takes them from. */
  lemma Groups(a: string, b: string, c: string, d: string, e: string)
    requires |a| == 8 && |b| == 4 && |c| == 4 && |d| == 4
    ensures var s := a + "-" + b + "-" + c + "-" + d + "-" + e;
            s[..8] + s[9..13] + s[14..18] + s[19..23] + s[24..] == a + b + c + d + e
  {
    var s := a + "-" + b + "-" + c + "-" + d + "-" + e;
    assert s[..8] == a;
    assert s[9..13] == b;
    assert s[14..18] == c;
    assert s[19..23] == d;
    assert s[24..] == e;
  }

  /** A UUID's string reads back as that UUID. */
  lemma UuidRoundTrip(u: Uuid)
    ensures UuidFromString(UuidToString(u)) == Some(u)
  {
    Groups(Hex(u[..8]), Hex(u[8..12]), Hex(u[12..16]), Hex(u[16..20]), Hex(u[20..]));
    assert u == u[..8] + u[8..12] + u[12..16] + u[16..20] + u[20..];
    HexAppend(u[..8], u[8..12]);
    HexAppend(u[..8] + u[8..12], u[12..16]);
    HexAppend(u[..8] + u[8..12] + u[12..16], u[16..20]);
    HexAppend(u[..8] + u[8..12] + u[12..16] + u[16..20], u[20..]);
    ParseHexRoundTrip(u);
  }

  /** UUID strings are plain ASCII, one byte per character in modified UTF-8. */
  lemma UuidStringIsAscii(u: Uuid)
    ensures IsAsciiNoNul(UuidToString(u))
  {
  }

  // ---------------------------------------------------------------- the wire form

  /** The three fields of a live-stream message, each possibly null. */
  datatype Fields = Fields(participantA: Option<string>, participantB: Option<string>, liveStreamId: Option<Uuid>)

  /** The string written for the id: null stays null, so writing it fails. */
  function IdString(id: Option<Uuid>): Option<string>
  {
    match id
    case None => None
    case Some(u) => Some(UuidToString(u))
  }

  /** writeUTF of one string followed by the writing `next` stands for: a null string
      is a NullPointerException that escapes; a string too long to encode ends the
      writing silently (marshal catches the UTFDataFormatException), so nothing more is
      written. */
  function WriteThen(s: Option<string>, next: Result<seq<byte>, Exception>): (r: Result<seq<byte>, Exception>)
    ensures r.Success? ==> |r.value| <= 2 + 0xFFFF + (if next.Success? then |next.value| else 0)
  {
    match s
    case None => Failure(NullPointer)
    case Some(v) =>
      match WriteUtf(v)
      case None => Success([])
      case Some(w) =>
        match next
        case Failure(e) => Failure(e)
        case Success(t) => Success(w + t)
  }

  /** The bytes marshal returns for the given fields. */
  function Marshalled(f: Fields): (r: Result<seq<byte>, Exception>)
    ensures r.Success? ==> |r.value| <= 3 * (2 + 0xFFFF)
  {
    WriteThen(f.participantA, WriteThen(f.participantB, WriteThen(IdString(f.liveStreamId), Success([]))))
  }

  /** What demarshal leaves in the fields, and how it ends: each readUTF that succeeds
      updates its field at once; a failed read (too few bytes, malformed text) is
      swallowed and leaves the later fields as they were; a malformed UUID string is an
      IllegalArgumentException that escapes; null data fails at once. */
  function Unmarshalled(f: Fields, data: Option<seq<byte>>): (Fields, Outcome<Exception>)
  {
    match data
    case None => (f, Fail(NullPointer))
    case Some(d) =>
      match ReadUtf(d)
      case None => (f, Pass)
      case Some((a, d1)) =>
        match ReadUtf(d1)
        case None => (f.(participantA := Some(a)), Pass)
        case Some((b, d2)) =>
          match ReadUtf(d2)
          case None => (f.(participantA := Some(a), participantB := Some(b)), Pass)
          case Some((s, _)) =>
            match UuidFromString(s)
            case None => (f.(participantA := Some(a), participantB := Some(b)), Fail(IllegalArgument))
            case Some(u) => (Fields(Some(a), Some(b), Some(u)), Pass)
  }

  /** Fields every one of which marshal writes in full. */
  predicate Encodable(f: Fields)
  {
    f.participantA.Some? && f.participantB.Some? && f.liveStreamId.Some?
    && WriteUtf(f.participantA.value).Some? && WriteUtf(f.participantB.value).Some?
  }

  lemma UuidWritable(u: Uuid)
    ensures WriteUtf(UuidToString(u)).Some?
    ensures |WriteUtf(UuidToString(u)).value| == 2 + 36
  {
    UuidStringIsAscii(u);
    ModifiedUtf8OfAscii(UuidToString(u));
  }

  /** The marshalled form of encodable fields is the three writeUTF forms in order. */
  lemma MarshalledEncodable(f: Fields)
    requires Encodable(f)
    ensures WriteUtf(UuidToString(f.liveStreamId.value)).Some?
    ensures Marshalled(f) == Success(WriteUtf(f.participantA.value).value
                                     + WriteUtf(f.participantB.value).value
                                    + WriteUtf(UuidToString(f.liveStreamId.value)).value)
  {
    UuidWritable(f.liveStreamId.value);
    var wa := WriteUtf(f.participantA.value).value;
    var wb := WriteUtf(f.participantB.value).value;
    var wu := WriteUtf(UuidToString(f.liveStreamId.value)).value;
    assert wu + [] == wu;
    assert WriteThen(IdString(f.liveStreamId), Success([])) == Success(wu);
    assert WriteThen(f.participantB, Success(wu)) == Success(wb + wu);
    assert WriteThen(f.participantA, Success(wb + wu)) == Success(wa + (wb + wu));
    assert wa + (wb + wu) == wa + wb + wu;
  }

  /** demarshal(marshal(m)) restores both participants and the id, whatever the
      fields held before. */
  lemma MarshalRoundTrip(f: Fields, before: Fields)
    requires Encodable(f)
    ensures Marshalled(f).Success?
    ensures Unmarshalled(before, Some(Marshalled(f).value)) == (f, Pass)
  {
    MarshalledEncodable(f);
    var a := f.participantA.value;
    var b := f.participantB.value;
    var u := f.liveStreamId.value;
    var wa := WriteUtf(a).value;
    var wb := WriteUtf(b).value;
    var wu := WriteUtf(UuidToString(u)).value;
    assert wa + wb + wu == wa + (wb + (wu + []));
    ReadUtfOfWritten(a, wb + (wu + []));
    ReadUtfOfWritten(b, wu + []);
    ReadUtfOfWritten(UuidToString(u), []);
    UuidRoundTrip(u);
  }

  /** For ASCII participants without NUL the output is (2+|A|)+(2+|B|)+(2+36) bytes. */
  lemma MarshalLength(a: string, b: string, u: Uuid)
    requires IsAsciiNoNul(a) && IsAsciiNoNul(b) && |a| <= 0xFFFF && |b| <= 0xFFFF
    ensures Marshalled(Fields(Some(a), Some(b), Some(u))).Success?
    ensures |Marshalled(Fields(Some(a), Some(b), Some(u))).value| == (2 + |a|) + (2 + |b|) + (2 + 36)
  {
    ModifiedUtf8OfAscii(a);
    ModifiedUtf8OfAscii(b);
    UuidWritable(u);
    MarshalledEncodable(Fields(Some(a), Some(b), Some(u)));
  }

  /** A field whose encoding is too long stops marshal: the output holds only the
      fields before it. */
  lemma MarshalStopsAtLongField(f: Fields)
    requires f.participantA.Some? && f.participantB.Some?
    ensures WriteUtf(f.participantA.value).None? ==> Marshalled(f) == Success([])
    ensures WriteUtf(f.participantA.value).Some? && WriteUtf(f.participantB.value).None? ==>
              Marshalled(f) == Success(WriteUtf(f.participantA.value).value)
  {
    if WriteUtf(f.participantA.value).Some? {
      assert WriteUtf(f.participantA.value).value + [] == WriteUtf(f.participantA.value).value;
    }
  }

  /** On input cut short after the first or second string, the strings read are
      stored and the later fields keep their old values. */
  lemma DemarshalTruncated(before: Fields, a: string, b: string)
    requires WriteUtf(a).Some? && WriteUtf(b).Some?
    ensures Unmarshalled(before, Some(WriteUtf(a).value)) ==
              (before.(participantA := Some(a)), Pass)
    ensures Unmarshalled(before, Some(WriteUtf(a).value + WriteUtf(b).value)) ==
              (before.(participantA := Some(a), participantB := Some(b)), Pass)
  {
    ReadUtfOfWritten(a, []);
    assert WriteUtf(a).value + [] == WriteUtf(a).value;
    ReadUtfOfWritten(a, WriteUtf(b).value);
    ReadUtfOfWritten(b, []);
    assert WriteUtf(b).value + [] == WriteUtf(b).value;
  }

  // ---------------------------------------------------------------- the message object

  class LiveStreamMessage {
    /** Message's private sender, set only by Initialize. */
    var sender: Option<string>
    var participantA: Option<string>
    var participantB: Option<string>
    var liveStreamId: Option<Uuid>

    function Current(): Fields
      reads this
    {
      Fields(participantA, participantB, liveStreamId)
    }

    /** Stores the id and both participants as given; no sender yet. */
    constructor (liveStreamId: Option<Uuid>, participantA: Option<string>, participantB: Option<string>)
      ensures this.liveStreamId == liveStreamId
      ensures this.participantA == participantA && this.participantB == participantB
      ensures sender == None
    {
      this.liveStreamId := liveStreamId;
      this.participantA := participantA;
      this.participantB := participantB;
      sender := None;
    }

    /** getSender: the sender given to the last Initialize, or None before any. */
    function GetSender(): Option<string>
      reads this
    {
      sender
    }

    /** initialize: sets the sender, then hands the data unchanged to demarshal. */
    method Initialize(sender: Option<string>, data: Option<seq<byte>>) returns (r: Outcome<Exception>)
      modifies this
      ensures this.sender == sender
      ensures (Current(), r) == Unmarshalled(old(Current()), data)
    {
      this.sender := sender;
      r := Demarshal(data);
    }

    /** demarshal: reads participant A, participant B and the id string in that order,
        storing each as soon as it is read. The sender is not touched. */
    method Demarshal(data: Option<seq<byte>>) returns (r: Outcome<Exception>)
      modifies this
      ensures sender == old(sender)
      ensures (Current(), r) == Unmarshalled(old(Current()), data)
    {
      if data.None? {
        return Fail(NullPointer);
      }
      var rest := data.value;
      var read := ReadUtf(rest);
      if read.None? {
        return Pass;
      }
      participantA := Some(read.value.0);
      rest := read.value.1;
      read := ReadUtf(rest);
      if read.None? {
        return Pass;
      }
      participantB := Some(read.value.0);
      rest := read.value.1;
      read := ReadUtf(rest);
      if read.None? {
        return Pass;
      }
      var id := UuidFromString(read.value.0);
      if id.None? {
        return Fail(IllegalArgument);
      }
      liveStreamId := id;
      r := Pass;
    }

    /** marshal: writes participant A, participant B and the id string in that order
        to a byte stream and returns what was written. */
    method Marshal() returns (r: Result<seq<byte>, Exception>)
      ensures r == Marshalled(Current())
    {
      if participantA.None? {
        return Failure(NullPointer);
      }
      var wa := WriteUtf(participantA.value);
      if wa.None? {
        return Success([]);
      }
      if participantB.None? {
        return Failure(NullPointer);
      }
      var wb := WriteUtf(participantB.value);
      if wb.None? {
        assert wa.value + [] == wa.value;
        return Success(wa.value);
      }
      if liveStreamId.None? {
        return Failure(NullPointer);
      }
      var wu := WriteUtf(UuidToString(liveStreamId.value));
      if wu.None? {
        assert wb.value + [] == wb.value;
        return Success(wa.value + wb.value);
      }
      assert wu.value + [] == wu.value;
      assert wa.value + (wb.value + wu.value) == wa.value + wb.value + wu.value;
      r := Success(wa.value + wb.value + wu.value);
    }
  }

  /** A message built, marshalled and read into a fresh message by initialize keeps
      its participants and id and gains the given sender. */
  method SendAndReceive(u: Uuid, a: string, b: string, from: string)
    returns (sender: Option<string>, received: Fields, r: Outcome<Exception>)
    requires WriteUtf(a).Some? && WriteUtf(b).Some?
    ensures sender == Some(from)
    ensures received == Fields(Some(a), Some(b), Some(u)) && r == Pass
  {
    var m := new LiveStreamMessage(Some(u), Some(a), Some(b));
    var bytes := m.Marshal();
    MarshalRoundTrip(Fields(Some(a), Some(b), Some(u)), Fields(None, None, None));
    var n := new LiveStreamMessage(None, None, None);
    r := n.Initialize(Some(from), Some(bytes.value));
    sender := n.GetSender();
    received := n.Current();
  }
}
