/** Text form of the access point's hardware address (the BSSID), as the
    Wi-Fi group's 4.2.0 object renders it: six octets, each as two
    zero-padded upper-case hexadecimal digits, joined by ':'.

    `ParseBssid` is the inverse reading of that text; the two round-trip
    lemmas show that the rendering loses nothing and that only canonical
    texts parse. */
module Bssid {
  import opened Base

  /** `wifi::bssid_t`: exactly six octets. */
  type Mac = s: seq<byte> | |s| == 6 witness [0, 0, 0, 0, 0, 0]

  predicate IsUpperHexDigit(c: char) {
    '0' <= c <= '9' || 'A' <= c <= 'F'
  }

  /** The digit `%X` prints for a nibble. */
  function HexDigit(n: nat): (c: char)
    requires n < 16
    ensures IsUpperHexDigit(c)
    ensures n < 10 <==> '0' <= c <= '9'
  {
    if n < 10 then ('0' as int + n) as char else ('A' as int + n - 10) as char
  }

  /** The nibble an upper-case hexadecimal digit stands for. */
  function DigitValue(c: char): (n: nat)
    requires IsUpperHexDigit(c)
    ensures n < 16
    ensures '0' <= c <= '9' <==> n < 10
  {
    if c <= '9' then c as int - '0' as int else c as int - 'A' as int + 10
  }

  lemma DigitRoundTrip(n: nat)
    requires n < 16
    ensures DigitValue(HexDigit(n)) == n
  {
  }

  lemma DigitValueRoundTrip(c: char)
    requires IsUpperHexDigit(c)
    ensures HexDigit(DigitValue(c)) == c
  {
  }

  /** `%02X` of one octet. */
  function Octet(b: byte): (s: string)
    ensures |s| == 2 && IsUpperHexDigit(s[0]) && IsUpperHexDigit(s[1])
  {
    [HexDigit(b / 16), HexDigit(b % 16)]
  }

  /** Reads back two upper-case hexadecimal digits; anything else is rejected. */
  function ParseOctet(s: string): (r: Option<byte>)
    requires |s| == 2
    ensures r.Some? <==> IsUpperHexDigit(s[0]) && IsUpperHexDigit(s[1])
  {
    if IsUpperHexDigit(s[0]) && IsUpperHexDigit(s[1]) then
      Some(DigitValue(s[0]) * 16 + DigitValue(s[1]))
    else
      None
  }

  lemma OctetRoundTrip(b: byte)
    ensures ParseOctet(Octet(b)) == Some(b)
  {
    DigitRoundTrip(b / 16);
    DigitRoundTrip(b % 16);
  }

  lemma ParseOctetRoundTrip(s: string)
    requires |s| == 2 && ParseOctet(s).Some?
    ensures Octet(ParseOctet(s).value) == s
  {
    var hi, lo := DigitValue(s[0]), DigitValue(s[1]);
    var b := hi * 16 + lo;
    assert b / 16 == hi && b % 16 == lo;
    DigitValueRoundTrip(s[0]);
    DigitValueRoundTrip(s[1]);
  }

  /** `get_bssid`: "%02X:%02X:%02X:%02X:%02X:%02X" of the six octets. */
  function FormatBssid(m: Mac): (r: string)
    ensures |r| == 17
    ensures forall i :: 0 <= i < |r| ==> (r[i] == ':' <==> i % 3 == 2)
    ensures forall i :: 0 <= i < |r| && i % 3 != 2 ==> IsUpperHexDigit(r[i])
  {
    Octet(m[0]) + ":" + Octet(m[1]) + ":" + Octet(m[2]) + ":" +
    Octet(m[3]) + ":" + Octet(m[4]) + ":" + Octet(m[5])
  }

  /** The octet text that starts at position 3 * k of a 17-character BSSID. */
  function Field(s: string, k: nat): (f: string)
    requires |s| == 17 && k < 6
    ensures |f| == 2
  {
    s[3 * k .. 3 * k + 2]
  }

  /** Inverse of `FormatBssid`: accepts exactly the 17-character texts with
      ':' at every third position and upper-case hex digit pairs between. */
  function ParseBssid(s: string): (r: Option<Mac>)
  {
    if |s| == 17 && s[2] == ':' && s[5] == ':' && s[8] == ':' && s[11] == ':' && s[14] == ':' then
      match (ParseOctet(Field(s, 0)), ParseOctet(Field(s, 1)), ParseOctet(Field(s, 2)),
             ParseOctet(Field(s, 3)), ParseOctet(Field(s, 4)), ParseOctet(Field(s, 5)))
      case (Some(a), Some(b), Some(c), Some(d), Some(e), Some(f)) => Some([a, b, c, d, e, f])
      case _ => None
    else
      None
  }

  lemma FormatFields(m: Mac)
    ensures forall k :: 0 <= k < 6 ==> Field(FormatBssid(m), k) == Octet(m[k])
  {
    var s := FormatBssid(m);
    assert Field(s, 0) == Octet(m[0]);
    assert Field(s, 1) == Octet(m[1]);
    assert Field(s, 2) == Octet(m[2]);
    assert Field(s, 3) == Octet(m[3]);
    assert Field(s, 4) == Octet(m[4]);
    assert Field(s, 5) == Octet(m[5]);
  }

  /** Rendering then reading gives back the same six octets. */
  lemma FormatThenParse(m: Mac)
    ensures ParseBssid(FormatBssid(m)) == Some(m)
  {
    var s := FormatBssid(m);
    FormatFields(m);
    forall k | 0 <= k < 6
      ensures ParseOctet(Field(s, k)) == Some(m[k])
    {
      OctetRoundTrip(m[k]);
    }
    assert [m[0], m[1], m[2], m[3], m[4], m[5]] == m;
  }

  /** What a successful parse says about the text: a colon at every third
      position, and each field reads as the corresponding octet. */
  lemma ParsedFields(s: string)
    requires ParseBssid(s).Some?
    ensures |s| == 17
    ensures forall i :: 0 <= i < 17 && i % 3 == 2 ==> s[i] == ':'
    ensures forall k :: 0 <= k < 6 ==> ParseOctet(Field(s, k)) == Some(ParseBssid(s).value[k])
  {
    forall i | 0 <= i < 17 && i % 3 == 2
      ensures s[i] == ':'
    {
      assert i in {2, 5, 8, 11, 14};
    }
  }

  /** Two 17-character texts with the same separators and the same fields
      are the same text. */
  lemma FieldsDetermineText(s: string, t: string)
    requires |s| == 17 && |t| == 17
    requires forall i :: 0 <= i < 17 && i % 3 == 2 ==> s[i] == t[i]
    requires forall k :: 0 <= k < 6 ==> Field(s, k) == Field(t, k)
    ensures s == t
  {
    forall i | 0 <= i < 17
      ensures s[i] == t[i]
    {
      if i % 3 != 2 {
        var k := i / 3;
        assert s[i] == Field(s, k)[i % 3];
        assert t[i] == Field(t, k)[i % 3];
      }
    }
  }

  /** Every text that parses is exactly the rendering of what it parses to. */
  lemma ParseThenFormat(s: string)
    requires ParseBssid(s).Some?
    ensures FormatBssid(ParseBssid(s).value) == s
  {
    var m := ParseBssid(s).value;
    ParsedFields(s);
    forall k | 0 <= k < 6
      ensures Octet(m[k]) == Field(s, k)
    {
      ParseOctetRoundTrip(Field(s, k));
    }
    FormatFields(m);
    FieldsDetermineText(FormatBssid(m), s);
  }

  /** The worked example: AA,01,2B,03,04,05 renders as "AA:01:2B:03:04:05". */
  lemma FormatExample()
    ensures FormatBssid([0xAA, 0x01, 0x2B, 0x03, 0x04, 0x05]) == "AA:01:2B:03:04:05"
  {
  }
}
