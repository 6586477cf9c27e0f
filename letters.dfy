/** A letter: who sent it, to whom, and its payload. Every field may be Java's null,
    written None; the fields are set once, by the constructor, and read by the
    datatype's destructors, which stand for the three getters. */
module Letters {
  import opened Wrappers
  import opened Exceptions
  import opened Bytes
  import opened Text

  datatype Letter = Letter(sender: Option<string>, recipient: Option<string>, payload: Option<ByteArray>)

  /** What StringBuffer.append(String) appends: the string, or "null" for null. */
  function Appended(s: Option<string>): (r: string)
    ensures s.Some? ==> r == s.value
    ensures s.None? ==> r == "null"
  {
    match s
    case None => "null"
    case Some(v) => v
  }

  /** Letter.toString; a null payload fails with a NullPointerException when its length
      is read. */
  function ToString(l: Letter): (r: Result<string, Exception>)
    ensures r.Failure? <==> l.payload.None?
    ensures r.Failure? ==> r.error == NullPointer
  {
    match l.payload
    case None => Failure(NullPointer)
    case Some(p) =>
      Success("( From : " + Appended(l.sender) + ", To : " + Appended(l.recipient)
              + " [" + Decimal(|p|) + " bytes ] )")
  }

  /** The text toString prints names both parties and ends with the payload length in
      decimal, which reads back as that length. */
  lemma {:induction false} ToStringShowsParties(l: Letter)
    requires l.payload.Some?
    ensures var t := ToString(l).value;
            var digits := Decimal(|l.payload.value|);
            var tail := " bytes ] )";
            var head := "( From : " + Appended(l.sender) + ", To : " + Appended(l.recipient) + " [";
            |t| == |head| + |digits| + |tail|
            && t[..|head|] == head
            && DecimalValue(t[|head|..|head| + |digits|]) == |l.payload.value|
            && t[|t| - |tail|..] == tail
  {
    var t := ToString(l).value;
    var digits := Decimal(|l.payload.value|);
    var tail := " bytes ] )";
    var head := "( From : " + Appended(l.sender) + ", To : " + Appended(l.recipient) + " [";
    assert t == head + digits + tail;
    assert t[|head|..|head| + |digits|] == digits;
    DecimalRoundTrip(|l.payload.value|);
  }
}
