/** Text on the wire: the UTF-8 charset as Java's String.getBytes("UTF-8") and
    InputStreamReader use it, the modified UTF-8 of DataOutput.writeUTF /
    DataInput.readUTF, and Integer.toString for a length. */
module Text {
  import opened Wrappers
  import opened Bytes

  const ReplacementChar: char := '\U{FFFD}'

  /** The two bytes at which BufferedReader.readLine ends a line. */
  predicate IsLineBreak(b: byte) {
    b == 0x0A || b == 0x0D
  }

  /** A string without LF or CR, which therefore survives being sent as one line. */
  predicate IsOneLine(s: string) {
    forall i :: 0 <= i < |s| ==> s[i] != '\n' && s[i] != '\r'
  }

  // ---------------------------------------------------------------- UTF-8

  /** The UTF-8 encoding of one Unicode scalar value (section 3 of RFC 3629). */
  function EncodeChar(c: char): (r: seq<byte>)
    ensures 1 <= |r| <= 4
    ensures r[0] < 0x80 <==> |r| == 1
    ensures |r| == 1 ==> r[0] == c as int
    ensures forall i :: 1 <= i < |r| ==> 0x80 <= r[i] < 0xC0
  {
    var n := c as int;
    if n < 0x80 then [n]
    else if n < 0x800 then [0xC0 + n / 0x40, 0x80 + n % 0x40]
    else if n < 0x1_0000 then [0xE0 + n / 0x1000, 0x80 + (n / 0x40) % 0x40, 0x80 + n % 0x40]
    else [0xF0 + n / 0x4_0000, 0x80 + (n / 0x1000) % 0x40, 0x80 + (n / 0x40) % 0x40, 0x80 + n % 0x40]
  }

  /** String.getBytes("UTF-8"). */
  function Utf8(s: string): seq<byte>
  {
    if s == [] then [] else EncodeChar(s[0]) + Utf8(s[1..])
  }

  predicate IsContinuation(b: byte) {
    0x80 <= b < 0xC0
  }

  /** The first character decoded from `b` and the number of bytes it takes. An
      ill-formed sequence decodes to U+FFFD, one for each maximal ill-formed subpart. */
  function DecodeFirst(b: seq<byte>): (r: (char, nat))
    requires b != []
    ensures 1 <= r.1 <= |b|
  {
    var b0 := b[0] as int;
    if b0 < 0x80 then (b0 as char, 1)
    else if 0xC2 <= b0 < 0xE0 then
      if |b| > 1 && IsContinuation(b[1]) then
        (((b0 - 0xC0) * 0x40 + (b[1] as int - 0x80)) as char, 2)
      else (ReplacementChar, 1)
    else if 0xE0 <= b0 < 0xF0 then
      var lo := if b0 == 0xE0 then 0xA0 else 0x80;
      var hi := if b0 == 0xED then 0xA0 else 0xC0;
      if |b| > 1 && lo <= b[1] < hi then
        if |b| > 2 && IsContinuation(b[2]) then
          (((b0 - 0xE0) * 0x1000 + (b[1] as int - 0x80) * 0x40 + (b[2] as int - 0x80)) as char, 3)
        else (ReplacementChar, 2)
      else (ReplacementChar, 1)
    else if 0xF0 <= b0 < 0xF5 then
      var lo := if b0 == 0xF0 then 0x90 else 0x80;
      var hi := if b0 == 0xF4 then 0x90 else 0xC0;
      if |b| > 1 && lo <= b[1] < hi then
        if |b| > 2 && IsContinuation(b[2]) then
          if |b| > 3 && IsContinuation(b[3]) then
            (((b0 - 0xF0) * 0x4_0000 + (b[1] as int - 0x80) * 0x1000
              + (b[2] as int - 0x80) * 0x40 + (b[3] as int - 0x80)) as char, 4)
          else (ReplacementChar, 3)
        else (ReplacementChar, 2)
      else (ReplacementChar, 1)
    else (ReplacementChar, 1)
  }

  /** Decoding of a byte stream by InputStreamReader(is, "UTF-8"). */
  function Utf8Decode(b: seq<byte>): string
    decreases |b|
  {
    if b == [] then []
    else
      var (c, k) := DecodeFirst(b);
      [c] + Utf8Decode(b[k..])
  }

  lemma DecodeFirstOfEncoded2(c: char, rest: seq<byte>)
    requires 0x80 <= c as int < 0x800
    ensures DecodeFirst(EncodeChar(c) + rest) == (c, 2)
  {
    var n := c as int;
    assert (n / 0x40) * 0x40 + n % 0x40 == n;
  }

  lemma DecodeFirstOfEncoded3(c: char, rest: seq<byte>)
    requires 0x800 <= c as int < 0x1_0000
    ensures DecodeFirst(EncodeChar(c) + rest) == (c, 3)
  {
    var n := c as int;
    var b := EncodeChar(c) + rest;
    assert b[0] as int == 0xE0 + n / 0x1000;
    assert b[1] as int == 0x80 + (n / 0x40) % 0x40;
    assert b[2] as int == 0x80 + n % 0x40;
    assert (n / 0x1000) * 0x1000 + ((n / 0x40) % 0x40) * 0x40 + n % 0x40 == n;
  }

  /** The four base-64 digits of a supplementary code point, as EncodeChar splits it. */
  lemma SupplementaryDigits(n: int)
    requires 0x1_0000 <= n < 0x11_0000
    ensures var d0, d1, d2, d3 := n / 0x4_0000, (n / 0x1000) % 0x40, (n / 0x40) % 0x40, n % 0x40;
            0 <= d0 <= 4 && 0 <= d1 < 0x40 && 0 <= d2 < 0x40 && 0 <= d3 < 0x40
            && (d0 == 0 ==> 0x10 <= d1) && (d0 == 4 ==> d1 < 0x10)
            && d0 * 0x4_0000 + d1 * 0x1000 + d2 * 0x40 + d3 == n
  {
  }

  lemma DecodeFirstOfEncoded4(c: char, rest: seq<byte>)
    requires 0x1_0000 <= c as int
    ensures DecodeFirst(EncodeChar(c) + rest) == (c, 4)
  {
    var n := c as int;
    SupplementaryDigits(n);
    var b := EncodeChar(c) + rest;
    assert b[0] as int == 0xF0 + n / 0x4_0000;
    assert b[1] as int == 0x80 + (n / 0x1000) % 0x40;
    assert b[2] as int == 0x80 + (n / 0x40) % 0x40;
    assert b[3] as int == 0x80 + n % 0x40;
  }

  lemma DecodeFirstOfEncoded(c: char, rest: seq<byte>)
    ensures DecodeFirst(EncodeChar(c) + rest) == (c, |EncodeChar(c)|)
  {
    var n := c as int;
    if n < 0x80 {
    } else if n < 0x800 {
      DecodeFirstOfEncoded2(c, rest);
    } else if n < 0x1_0000 {
      DecodeFirstOfEncoded3(c, rest);
    } else {
      DecodeFirstOfEncoded4(c, rest);
    }
  }

  /** Text written as UTF-8 is read back unchanged. */
  lemma {:induction false} Utf8RoundTrip(s: string)
    ensures Utf8Decode(Utf8(s)) == s
  {
    if s != [] {
      var e := EncodeChar(s[0]);
      DecodeFirstOfEncoded(s[0], Utf8(s[1..]));
      assert (e + Utf8(s[1..]))[|e|..] == Utf8(s[1..]);
      Utf8RoundTrip(s[1..]);
    }
  }

  /** A one-line string encodes to bytes none of which ends a line. */
  lemma {:induction false} Utf8OfOneLine(s: string)
    requires IsOneLine(s)
    ensures forall i :: 0 <= i < |Utf8(s)| ==> !IsLineBreak(Utf8(s)[i])
  {
    if s != [] {
      Utf8OfOneLine(s[1..]);
      var e := EncodeChar(s[0]);
      assert Utf8(s) == e + Utf8(s[1..]);
      forall i | 0 <= i < |Utf8(s)|
        ensures !IsLineBreak(Utf8(s)[i])
      {
        if i >= |e| {
          assert Utf8(s)[i] == Utf8(s[1..])[i - |e|];
        }
      }
    }
  }

  // ---------------------------------------------------------------- modified UTF-8

  /** A UTF-16 code unit, Java's `char`. */
  type CodeUnit = u: int | 0 <= u < 0x1_0000

  predicate IsHighSurrogate(u: CodeUnit) { 0xD800 <= u < 0xDC00 }
  predicate IsLowSurrogate(u: CodeUnit) { 0xDC00 <= u < 0xE000 }

  /** The UTF-16 code units Java stores for one character. */
  function CharUnits(c: char): (r: seq<CodeUnit>)
    ensures |r| == 1 || |r| == 2
  {
    var n := c as int;
    if n < 0x1_0000 then [n]
    else [0xD800 + (n - 0x1_0000) / 0x400, 0xDC00 + (n - 0x1_0000) % 0x400]
  }

  /** A String as Java holds it: a sequence of UTF-16 code units. */
  function Utf16(s: string): seq<CodeUnit>
  {
    if s == [] then [] else CharUnits(s[0]) + Utf16(s[1..])
  }

  /** The string whose UTF-16 form is `u`; None when `u` holds an unpaired surrogate,
      which a Dafny string cannot hold. */
  function FromUtf16(u: seq<CodeUnit>): Option<string>
    decreases |u|
  {
    if u == [] then Some([])
    else if IsHighSurrogate(u[0]) then
      if |u| > 1 && IsLowSurrogate(u[1]) then
        match FromUtf16(u[2..])
        case None => None
        case Some(t) => Some([(0x1_0000 + (u[0] as int - 0xD800) * 0x400 + (u[1] as int - 0xDC00)) as char] + t)
      else None
    else if IsLowSurrogate(u[0]) then None
    else
      match FromUtf16(u[1..])
      case None => None
      case Some(t) => Some([u[0] as char] + t)
  }

  lemma {:induction false} Utf16RoundTrip(s: string)
    ensures FromUtf16(Utf16(s)) == Some(s)
  {
    if s != [] {
      var n := s[0] as int;
      var u := Utf16(s);
      assert u == CharUnits(s[0]) + Utf16(s[1..]);
      Utf16RoundTrip(s[1..]);
      assert s == [s[0]] + s[1..];
      if n < 0x1_0000 {
        assert u[0] == n && !(0xD800 <= n < 0xE000);
        assert u[1..] == Utf16(s[1..]);
      } else {
        assert u[2..] == Utf16(s[1..]);
        assert 0x1_0000 + ((n - 0x1_0000) / 0x400) * 0x400 + (n - 0x1_0000) % 0x400 == n;
      }
    }
  }

  /** writeUTF's bytes for one code unit: NUL and U+0080..U+07FF take two bytes,
      U+0001..U+007F one, the rest three. */
  function EncodeUnit(u: CodeUnit): (r: seq<byte>)
    ensures 1 <= |r| <= 3
  {
    if 1 <= u < 0x80 then [u]
    else if u < 0x800 then [0xC0 + u / 0x40, 0x80 + u % 0x40]
    else [0xE0 + u / 0x1000, 0x80 + (u / 0x40) % 0x40, 0x80 + u % 0x40]
  }

  function ModifiedUtf8(units: seq<CodeUnit>): seq<byte>
  {
    if units == [] then [] else EncodeUnit(units[0]) + ModifiedUtf8(units[1..])
  }

  /** readUTF's decoding of the body; None stands for UTFDataFormatException. Java
      accepts two- and three-byte forms of any value, overlong ones included. */
  function ModifiedUtf8Decode(b: seq<byte>): Option<seq<CodeUnit>>
    decreases |b|
  {
    if b == [] then Some([])
    else
      var c := b[0] as int;
      if c < 0x80 then
        match ModifiedUtf8Decode(b[1..])
        case None => None
        case Some(t) => Some([c] + t)
      else if 0xC0 <= c < 0xE0 then
        if |b| < 2 || !IsContinuation(b[1]) then None
        else
          match ModifiedUtf8Decode(b[2..])
          case None => None
          case Some(t) => Some([(c - 0xC0) * 0x40 + (b[1] as int - 0x80)] + t)
      else if 0xE0 <= c < 0xF0 then
        if |b| < 3 || !IsContinuation(b[1]) || !IsContinuation(b[2]) then None
        else
          match ModifiedUtf8Decode(b[3..])
          case None => None
          case Some(t) => Some([(c - 0xE0) * 0x1000 + (b[1] as int - 0x80) * 0x40 + (b[2] as int - 0x80)] + t)
      else None
  }

  /** One code unit's bytes decode back to it, in front of whatever follows. */
  lemma DecodeUnitFirst(u: CodeUnit, rest: seq<byte>)
    ensures ModifiedUtf8Decode(EncodeUnit(u) + rest)
            == match ModifiedUtf8Decode(rest)
               case None => None
               case Some(t) => Some([u] + t)
  {
    var b := EncodeUnit(u) + rest;
    if 1 <= u < 0x80 {
      assert b[1..] == rest;
    } else if u < 0x800 {
      assert b[2..] == rest;
      assert (u / 0x40) * 0x40 + u % 0x40 == u;
    } else {
      assert b[3..] == rest;
      assert (u / 0x1000) * 0x1000 + ((u / 0x40) % 0x40) * 0x40 + u % 0x40 == u;
    }
  }

  lemma {:induction false} ModifiedUtf8RoundTrip(units: seq<CodeUnit>)
    ensures ModifiedUtf8Decode(ModifiedUtf8(units)) == Some(units)
  {
    if units != [] {
      DecodeUnitFirst(units[0], ModifiedUtf8(units[1..]));
      ModifiedUtf8RoundTrip(units[1..]);
      assert units == [units[0]] + units[1..];
    }
  }

  /** DataOutput.writeUTF: a two-byte big-endian byte count and the modified UTF-8
      body; None stands for the UTFDataFormatException thrown, before anything is
      written, when the body exceeds 65535 bytes. */
  function WriteUtf(s: string): (r: Option<seq<byte>>)
    ensures r.Some? ==> 2 <= |r.value| <= 2 + 0xFFFF
  {
    var body := ModifiedUtf8(Utf16(s));
    if |body| > 0xFFFF then None
    else Some([|body| / 0x100, |body| % 0x100] + body)
  }

  /** DataInput.readUTF over the bytes still to come: the string and what follows it;
      None for EOFException (too few bytes) or UTFDataFormatException. */
  function ReadUtf(b: seq<byte>): (r: Option<(string, seq<byte>)>)
    ensures |b| < 2 || |b| < 2 + (b[0] as int) * 0x100 + b[1] ==> r.None?
    ensures r.Some? ==> r.value.1 == b[2 + (b[0] as int) * 0x100 + b[1]..]
  {
    if |b| < 2 then None
    else
      var len := (b[0] as int) * 0x100 + b[1];
      if |b| < 2 + len then None
      else
        match ModifiedUtf8Decode(b[2..2 + len])
        case None => None
        case Some(units) =>
          match FromUtf16(units)
          case None => None
          case Some(s) => Some((s, b[2 + len..]))
  }

  /** What writeUTF writes, readUTF reads back, and reading stops right after it. */
  lemma ReadUtfOfWritten(s: string, rest: seq<byte>)
    requires WriteUtf(s).Some?
    ensures ReadUtf(WriteUtf(s).value + rest) == Some((s, rest))
  {
    var body := ModifiedUtf8(Utf16(s));
    var b := WriteUtf(s).value + rest;
    var len := (b[0] as int) * 0x100 + b[1];
    assert len == |body|;
    assert b[2..2 + len] == body;
    assert b[2 + len..] == rest;
    ModifiedUtf8RoundTrip(Utf16(s));
    Utf16RoundTrip(s);
  }

  /** Characters U+0001..U+007F, one byte each in modified UTF-8. */
  predicate IsAsciiNoNul(s: string) {
    forall i :: 0 <= i < |s| ==> 1 <= s[i] as int < 0x80
  }

  lemma {:induction false} ModifiedUtf8OfAscii(s: string)
    requires IsAsciiNoNul(s)
    ensures |ModifiedUtf8(Utf16(s))| == |s|
  {
    if s != [] {
      ModifiedUtf8OfAscii(s[1..]);
      assert Utf16(s) == [s[0] as int] + Utf16(s[1..]);
      assert Utf16(s)[1..] == Utf16(s[1..]);
    }
  }

  // ---------------------------------------------------------------- decimal

  function DigitChar(d: nat): (c: char)
    requires d < 10
    ensures '0' <= c <= '9'
  {
    ('0' as int + d) as char
  }

  function DigitValue(c: char): nat
  {
    if '0' <= c <= '9' then c as int - '0' as int else 0
  }

  /** Integer.toString of a non-negative int: its decimal digits. */
  function Decimal(n: nat): (s: string)
    ensures |s| >= 1
  {
    if n < 10 then [DigitChar(n)] else Decimal(n / 10) + [DigitChar(n % 10)]
  }

  /** The value of a string of decimal digits (non-digits count as 0). */
  function DecimalValue(s: string): nat
  {
    if s == [] then 0 else DecimalValue(s[..|s| - 1]) * 10 + DigitValue(s[|s| - 1])
  }

  /** The digits Java prints for a length read back as that length. */
  lemma {:induction false} DecimalRoundTrip(n: nat)
    ensures DecimalValue(Decimal(n)) == n
  {
    if n >= 10 {
      var s := Decimal(n);
      assert s[..|s| - 1] == Decimal(n / 10);
      DecimalRoundTrip(n / 10);
    }
  }
}
