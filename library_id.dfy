/**
 * The generated library id (Librarian.cs line 39): the base64 text
 * (section 4 of RFC 4648) of the 16 bytes of a fresh GUID, with the
 * trailing '=' padding trimmed, '+' replaced by '.' and '/' by '_'.
 * The GUID bytes are an arbitrary input here.
 */
module LibraryId {
  import opened Wrappers

  type Byte = b: int | 0 <= b < 256

  /** The characters of the base64 alphabet (Table 1 of RFC 4648). */
  predicate IsBase64Digit(c: char) {
    ('A' <= c <= 'Z') || ('a' <= c <= 'z') || ('0' <= c <= '9') || c == '+' || c == '/'
  }

  /** The value of a base64 digit; other characters count as 0. */
  function DigitValue(c: char): (n: int)
    ensures 0 <= n < 64
  {
    if 'A' <= c <= 'Z' then c as int - 'A' as int
    else if 'a' <= c <= 'z' then c as int - 'a' as int + 26
    else if '0' <= c <= '9' then c as int - '0' as int + 52
    else if c == '+' then 62
    else if c == '/' then 63
    else 0
  }

  /** Table 1 of RFC 4648: the digit encoding a 6-bit value. */
  function Digit(n: int): (c: char)
    requires 0 <= n < 64
    ensures IsBase64Digit(c) && DigitValue(c) == n
  {
    if n < 26 then ('A' as int + n) as char
    else if n < 52 then ('a' as int + n - 26) as char
    else if n < 62 then ('0' as int + n - 52) as char
    else if n == 62 then '+'
    else '/'
  }

  /** One full 24-bit group: four digits. */
  function Group(b0: Byte, b1: Byte, b2: Byte): (s: string)
    ensures |s| == 4
  {
    [Digit(b0 / 4), Digit(b0 % 4 * 16 + b1 / 16), Digit(b1 % 16 * 4 + b2 / 64), Digit(b2 % 64)]
  }

  /** A final quantum of one byte: two digits and two '=' characters. */
  function FinalOne(b0: Byte): (s: string)
    ensures |s| == 4
  {
    [Digit(b0 / 4), Digit(b0 % 4 * 16), '=', '=']
  }

  /** A final quantum of two bytes: three digits and one '=' character. */
  function FinalTwo(b0: Byte, b1: Byte): (s: string)
    ensures |s| == 4
  {
    [Digit(b0 / 4), Digit(b0 % 4 * 16 + b1 / 16), Digit(b1 % 16 * 4), '=']
  }

  /** Base64 encoding with '=' padding of a final partial group (section 4 of RFC 4648). */
  function Encode(bytes: seq<Byte>): (s: string)
    ensures |s| == 4 * ((|bytes| + 2) / 3)
    decreases |bytes|
  {
    if |bytes| == 0 then []
    else if |bytes| == 1 then FinalOne(bytes[0])
    else if |bytes| == 2 then FinalTwo(bytes[0], bytes[1])
    else Group(bytes[0], bytes[1], bytes[2]) + Encode(bytes[3..])
  }

  /** The number of '=' characters padding the encoding of n bytes. */
  function Padding(n: nat): nat {
    if n % 3 == 0 then 0 else 3 - n % 3
  }

  /** The first byte of a four-digit quantum. */
  function Byte0(s: string): Byte
    requires |s| >= 2
  {
    DigitValue(s[0]) * 4 + DigitValue(s[1]) / 16
  }

  /** The second byte of a four-digit quantum. */
  function Byte1(s: string): Byte
    requires |s| >= 3
  {
    DigitValue(s[1]) % 16 * 16 + DigitValue(s[2]) / 4
  }

  /** The third byte of a four-digit quantum. */
  function Byte2(s: string): Byte
    requires |s| >= 4
  {
    DigitValue(s[2]) % 4 * 64 + DigitValue(s[3])
  }

  /** Base64 decoding of padded text, four characters at a time. */
  function Decode(s: string): seq<Byte>
    decreases |s|
  {
    if |s| < 4 then []
    else if s[2] == '=' then [Byte0(s)]
    else if s[3] == '=' then [Byte0(s), Byte1(s)]
    else [Byte0(s), Byte1(s), Byte2(s)] + Decode(s[4..])
  }

  /** A full group, wherever it starts a text, decodes to its three bytes. */
  lemma GroupDecodes(b0: Byte, b1: Byte, b2: Byte, s: string)
    requires |s| >= 4 && s[..4] == Group(b0, b1, b2)
    ensures Byte0(s) == b0 && Byte1(s) == b1 && Byte2(s) == b2
    ensures s[2] != '=' && s[3] != '='
  {
    var g := Group(b0, b1, b2);
    assert s[0] == g[0] && s[1] == g[1] && s[2] == g[2] && s[3] == g[3];
    var c1 := b0 % 4 * 16 + b1 / 16;
    var c2 := b1 % 16 * 4 + b2 / 64;
    assert DigitValue(s[1]) == c1 && DigitValue(s[2]) == c2;
    assert c1 / 16 == b0 % 4 && c1 % 16 == b1 / 16;
    assert c2 / 4 == b1 % 16 && c2 % 4 == b2 / 64;
    assert IsBase64Digit(s[2]) && IsBase64Digit(s[3]);
  }

  lemma DecodeFullGroup(b0: Byte, b1: Byte, b2: Byte, rest: string)
    ensures Decode(Group(b0, b1, b2) + rest) == [b0, b1, b2] + Decode(rest)
  {
    var s := Group(b0, b1, b2) + rest;
    assert s[..4] == Group(b0, b1, b2);
    GroupDecodes(b0, b1, b2, s);
    assert s[4..] == rest;
  }

  lemma DecodeOneByte(b0: Byte)
    ensures Decode(FinalOne(b0)) == [b0]
  {
    var s := FinalOne(b0);
    var c0, c1 := DigitValue(s[0]), DigitValue(s[1]);
    assert c0 == b0 / 4 && c1 == b0 % 4 * 16;
    assert c0 * 4 + c1 / 16 == b0;
  }

  lemma DecodeTwoBytes(b0: Byte, b1: Byte)
    ensures Decode(FinalTwo(b0, b1)) == [b0, b1]
  {
    var s := FinalTwo(b0, b1);
    var c0, c1, c2 := DigitValue(s[0]), DigitValue(s[1]), DigitValue(s[2]);
    assert c0 == b0 / 4 && c1 == b0 % 4 * 16 + b1 / 16 && c2 == b1 % 16 * 4;
    assert c1 / 16 == b0 % 4 && c1 % 16 == b1 / 16 && c2 / 4 == b1 % 16;
    assert IsBase64Digit(s[2]);
  }

  lemma EncodeGroup(bytes: seq<Byte>)
    requires |bytes| >= 3
    ensures Encode(bytes) == Group(bytes[0], bytes[1], bytes[2]) + Encode(bytes[3..])
  {
  }

  /** One step of the induction: a full group decodes back, and the rest by hypothesis. */
  lemma DecodeEncodeGroup(b0: Byte, b1: Byte, b2: Byte, tail: seq<Byte>)
    requires Decode(Encode(tail)) == tail
    ensures Decode(Group(b0, b1, b2) + Encode(tail)) == [b0, b1, b2] + tail
  {
    DecodeFullGroup(b0, b1, b2, Encode(tail));
  }

  /** The final quantum of one or two bytes decodes back. */
  lemma DecodeEncodeShort(bytes: seq<Byte>)
    requires 1 <= |bytes| <= 2
    ensures Decode(Encode(bytes)) == bytes
  {
    if |bytes| == 1 {
      assert Encode(bytes) == FinalOne(bytes[0]);
      DecodeOneByte(bytes[0]);
      assert bytes == [bytes[0]];
    } else {
      assert Encode(bytes) == FinalTwo(bytes[0], bytes[1]);
      DecodeTwoBytes(bytes[0], bytes[1]);
      assert bytes == [bytes[0], bytes[1]];
    }
  }

  /** Decoding inverts encoding. */
  lemma {:induction false} DecodeEncode(bytes: seq<Byte>)
    ensures Decode(Encode(bytes)) == bytes
    decreases |bytes|
  {
    if 1 <= |bytes| <= 2 {
      DecodeEncodeShort(bytes);
    } else if |bytes| >= 3 {
      DecodeEncode(bytes[3..]);
      EncodeGroup(bytes);
      DecodeEncodeGroup(bytes[0], bytes[1], bytes[2], bytes[3..]);
      assert bytes == [bytes[0], bytes[1], bytes[2]] + bytes[3..];
    }
  }

  /** Text made of base64 digits followed by exactly `pad` '=' characters. */
  predicate PaddedDigits(s: string, pad: nat) {
    && pad <= |s|
    && (forall i :: 0 <= i < |s| - pad ==> IsBase64Digit(s[i]))
    && (forall i :: |s| - pad <= i < |s| ==> s[i] == '=')
  }

  /** The encoding is digits followed by exactly Padding(|bytes|) '=' characters. */
  lemma {:induction false} EncodeShape(bytes: seq<Byte>)
    ensures PaddedDigits(Encode(bytes), Padding(|bytes|))
    decreases |bytes|
  {
    var s := Encode(bytes);
    if 1 <= |bytes| <= 2 {
      assert IsBase64Digit(s[0]) && IsBase64Digit(s[1]);
    } else if |bytes| >= 3 {
      EncodeShape(bytes[3..]);
      var group := Group(bytes[0], bytes[1], bytes[2]);
      var rest := Encode(bytes[3..]);
      assert s == group + rest;
      assert Padding(|bytes|) == Padding(|bytes| - 3);
      forall i | 0 <= i < |s| - Padding(|bytes|) ensures IsBase64Digit(s[i]) {
        if i < 4 { assert s[i] == group[i]; } else { assert s[i] == rest[i - 4]; }
      }
      forall i | |s| - Padding(|bytes|) <= i < |s| ensures s[i] == '=' {
        assert s[i] == rest[i - 4];
      }
    }
  }

  /** Removes every trailing occurrence of c (String.TrimEnd). */
  function TrimEnd(s: string, c: char): (r: string)
    ensures r <= s
    ensures |r| == 0 || r[|r| - 1] != c
    ensures forall i :: |r| <= i < |s| ==> s[i] == c
    decreases |s|
  {
    if |s| > 0 && s[|s| - 1] == c then TrimEnd(s[..|s| - 1], c) else s
  }

  /** Replaces every occurrence of one character by another (String.Replace). */
  function Replace(s: string, from: char, to: char): (r: string)
    ensures |r| == |s|
    ensures forall i :: 0 <= i < |s| ==> r[i] == if s[i] == from then to else s[i]
    decreases |s|
  {
    if |s| == 0 then [] else [if s[0] == from then to else s[0]] + Replace(s[1..], from, to)
  }

  /** The characters a generated library id may contain. */
  predicate IsLibraryIdChar(c: char) {
    ('A' <= c <= 'Z') || ('a' <= c <= 'z') || ('0' <= c <= '9') || c == '.' || c == '_'
  }

  /**
   * The library id generated from the bytes of a GUID: base64 without its
   * padding, with '+' and '/' replaced. It has 22 characters, drawn from
   * letters, digits, '.' and '_'.
   */
  function EncodeLibraryId(guid: seq<Byte>): (id: string)
    requires |guid| == 16
    ensures |id| == 22
    ensures forall i :: 0 <= i < 22 ==> IsLibraryIdChar(id[i])
  {
    TrimmedEncoding(guid);
    Replace(Replace(TrimEnd(Encode(guid), '='), '+', '.'), '/', '_')
  }

  /** Trimming the padding off digits followed by padding leaves the digits. */
  lemma {:induction false} TrimPadding(digits: string, pad: string, c: char)
    requires |digits| == 0 || digits[|digits| - 1] != c
    requires forall i :: 0 <= i < |pad| ==> pad[i] == c
    ensures TrimEnd(digits + pad, c) == digits
    decreases |pad|
  {
    if |pad| == 0 {
      assert digits + pad == digits;
    } else {
      var s := digits + pad;
      assert s[|s| - 1] == pad[|pad| - 1];
      assert s[..|s| - 1] == digits + pad[..|pad| - 1];
      TrimPadding(digits, pad[..|pad| - 1], c);
    }
  }

  /** Trimming '=' off padded digits leaves exactly the digits. */
  lemma TrimPaddedDigits(s: string, pad: nat)
    requires PaddedDigits(s, pad)
    ensures TrimEnd(s, '=') == s[..|s| - pad]
  {
    var digits := s[..|s| - pad];
    assert s == digits + s[|s| - pad..];
    if |digits| > 0 {
      assert IsBase64Digit(s[|s| - pad - 1]);
    }
    TrimPadding(digits, s[|s| - pad..], '=');
  }

  /** Trimming removes exactly the two padding characters of a 16-byte encoding. */
  lemma TrimmedEncoding(guid: seq<Byte>)
    requires |guid| == 16
    ensures TrimEnd(Encode(guid), '=') + "==" == Encode(guid)
    ensures |TrimEnd(Encode(guid), '=')| == 22
    ensures forall i :: 0 <= i < 22 ==> IsBase64Digit(TrimEnd(Encode(guid), '=')[i])
  {
    var s := Encode(guid);
    EncodeShape(guid);
    assert Padding(|guid|) == 2 && |s| == 24;
    TrimPaddedDigits(s, 2);
    assert s[22..] == "==";
    assert s == s[..22] + s[22..];
  }

  /** Recovers the GUID bytes from a generated id, if the text has that form. */
  function DecodeLibraryId(id: string): Option<seq<Byte>> {
    if |id| == 22 && forall i :: 0 <= i < 22 ==> IsLibraryIdChar(id[i])
    then Some(Decode(Replace(Replace(id, '_', '/'), '.', '+') + "=="))
    else None
  }

  /** The id determines the GUID: decoding recovers its bytes. */
  lemma LibraryIdRoundTrip(guid: seq<Byte>)
    requires |guid| == 16
    ensures DecodeLibraryId(EncodeLibraryId(guid)) == Some(guid)
  {
    TrimmedEncoding(guid);
    var trimmed := TrimEnd(Encode(guid), '=');
    var id := EncodeLibraryId(guid);
    var back := Replace(Replace(id, '_', '/'), '.', '+');
    assert back == trimmed by {
      forall i | 0 <= i < 22 ensures back[i] == trimmed[i] {
        assert IsBase64Digit(trimmed[i]);
      }
    }
    DecodeEncode(guid);
  }

  /** Distinct GUIDs give distinct ids. */
  lemma LibraryIdInjective(g1: seq<Byte>, g2: seq<Byte>)
    requires |g1| == 16 && |g2| == 16
    ensures EncodeLibraryId(g1) == EncodeLibraryId(g2) ==> g1 == g2
  {
    LibraryIdRoundTrip(g1);
    LibraryIdRoundTrip(g2);
  }
}
