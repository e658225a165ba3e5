/**
 * The browser's `atob`: the "forgiving-base64 decode" of the WHATWG Infra
 * standard over the alphabet of section 4 of RFC 4648, returning a binary
 * string whose characters are the decoded octets. The canonical encoder of
 * RFC 4648 is modelled beside it as the decoder's partner.
 */
module Base64 {

  import opened Types

  /** ASCII whitespace: TAB, LF, FF, CR and SPACE. */
  predicate IsAsciiWhitespace(c: char) {
    c == '\t' || c == '\n' || c == '\U{000C}' || c == '\r' || c == ' '
  }

  predicate InAlphabet(c: char) {
    ('A' <= c <= 'Z') || ('a' <= c <= 'z') || ('0' <= c <= '9') || c == '+' || c == '/'
  }

  /** The character of a 6-bit value in the alphabet of RFC 4648, section 4. */
  function SextetChar(v: nat): (c: char)
    requires v < 64
    ensures InAlphabet(c)
  {
    if v < 26 then (65 + v) as char
    else if v < 52 then (97 + v - 26) as char
    else if v < 62 then (48 + v - 52) as char
    else if v == 62 then '+'
    else '/'
  }

  function SextetOf(c: char): (v: nat)
    requires InAlphabet(c)
    ensures v < 64 && SextetChar(v) == c
  {
    if 'A' <= c <= 'Z' then c as int - 65
    else if 'a' <= c <= 'z' then c as int - 97 + 26
    else if '0' <= c <= '9' then c as int - 48 + 52
    else if c == '+' then 62
    else 63
  }

  lemma SextetRoundTrip(v: nat)
    requires v < 64
    ensures SextetOf(SextetChar(v)) == v
  {
  }

  function RemoveWhitespace(s: string): (r: string)
    ensures forall i :: 0 <= i < |r| ==> !IsAsciiWhitespace(r[i])
  {
    if |s| == 0 then ""
    else if IsAsciiWhitespace(s[0]) then RemoveWhitespace(s[1..])
    else [s[0]] + RemoveWhitespace(s[1..])
  }

  /** When the length is a multiple of four, one or two trailing '=' are dropped. */
  function RemovePadding(s: string): string {
    if |s| % 4 == 0 && |s| >= 2 && s[|s| - 2..] == "==" then s[..|s| - 2]
    else if |s| % 4 == 0 && |s| >= 1 && s[|s| - 1] == '=' then s[..|s| - 1]
    else s
  }

  /** The 6-bit values of alphabet characters. */
  function Sextets(s: string): (vs: seq<nat>)
    requires forall i :: 0 <= i < |s| ==> InAlphabet(s[i])
    ensures |vs| == |s| && forall i :: 0 <= i < |vs| ==> vs[i] < 64
  {
    seq(|s|, i requires 0 <= i < |s| => SextetOf(s[i]))
  }

  /** The alphabet characters of 6-bit values. */
  function SextetChars(vs: seq<nat>): (s: string)
    requires forall i :: 0 <= i < |vs| ==> vs[i] < 64
    ensures |s| == |vs| && forall i :: 0 <= i < |s| ==> InAlphabet(s[i])
  {
    seq(|vs|, i requires 0 <= i < |vs| => SextetChar(vs[i]))
  }

  predicate AllSextets(vs: seq<nat>) {
    forall i :: 0 <= i < |vs| ==> vs[i] < 64
  }

  /**
   * Decodes 6-bit values four at a time into three octets; a tail of two or
   * three values makes one or two octets, and the leftover low bits are dropped
   * (a single leftover value, which Atob rejects beforehand, makes none).
   */
  function DecodeSextets(vs: seq<nat>): seq<Byte>
    requires AllSextets(vs)
  {
    if |vs| < 2 then []
    else
      var b0: Byte := vs[0] * 4 + vs[1] / 16;
      if |vs| == 2 then [b0]
      else
        var b1: Byte := (vs[1] % 16) * 16 + vs[2] / 4;
        if |vs| == 3 then [b0, b1]
        else
          var b2: Byte := (vs[2] % 4) * 64 + vs[3];
          [b0, b1, b2] + DecodeSextets(vs[4..])
  }

  /** The binary string holding the given octets, one character per octet. */
  function Latin1(bytes: seq<Byte>): (s: string)
    ensures |s| == |bytes|
    ensures forall i :: 0 <= i < |s| ==> s[i] as int == bytes[i]
  {
    seq(|bytes|, i requires 0 <= i < |bytes| => bytes[i] as char)
  }

  /** `atob(s)`: None stands for the InvalidCharacterError it throws. */
  function Atob(s: string): (r: Option<string>)
    ensures r.Some? ==> forall i :: 0 <= i < |r.value| ==> r.value[i] as int < 256
  {
    var data := RemovePadding(RemoveWhitespace(s));
    if |data| % 4 == 1 then None
    else if exists i :: 0 <= i < |data| && !InAlphabet(data[i]) then None
    else Some(Latin1(DecodeSextets(Sextets(data))))
  }

  /** Three octets become four 6-bit values; one or two trailing octets become two or three. */
  function EncodeSextets(b: seq<Byte>): (vs: seq<nat>)
    ensures AllSextets(vs)
  {
    if |b| == 0 then []
    else if |b| == 1 then [b[0] / 4, (b[0] % 4) * 16]
    else if |b| == 2 then [b[0] / 4, (b[0] % 4) * 16 + b[1] / 16, (b[1] % 16) * 4]
    else [b[0] / 4, (b[0] % 4) * 16 + b[1] / 16, (b[1] % 16) * 4 + b[2] / 64, b[2] % 64] + EncodeSextets(b[3..])
  }

  /** The padding characters that complete the last group. */
  function Padding(n: nat): string {
    if n % 3 == 1 then "==" else if n % 3 == 2 then "=" else ""
  }

  /** The canonical padded encoding of RFC 4648, section 4 (what `btoa` yields). */
  function Encode(b: seq<Byte>): string {
    SextetChars(EncodeSextets(b)) + Padding(|b|)
  }

  lemma ByteGroupRoundTrip(b0: Byte, b1: Byte, b2: Byte)
    ensures (b0 / 4) * 4 + ((b0 % 4) * 16 + b1 / 16) / 16 == b0
    ensures (((b0 % 4) * 16 + b1 / 16) % 16) * 16 + ((b1 % 16) * 4 + b2 / 64) / 4 == b1
    ensures (((b1 % 16) * 4 + b2 / 64) % 4) * 64 + b2 % 64 == b2
  {
  }

  lemma {:induction false} EncodedLength(b: seq<Byte>)
    ensures |EncodeSextets(b)| % 4 == (if |b| % 3 == 0 then 0 else |b| % 3 + 1)
    ensures |EncodeSextets(b)| == 0 <==> |b| == 0
  {
    if |b| >= 3 {
      EncodedLength(b[3..]);
    }
  }

  lemma {:induction false} DecodeEncodeSextets(b: seq<Byte>)
    ensures DecodeSextets(EncodeSextets(b)) == b
  {
    EncodedLength(b);
    var vs := EncodeSextets(b);
    if |b| == 1 {
      ByteGroupRoundTrip(b[0], 0, 0);
    } else if |b| == 2 {
      ByteGroupRoundTrip(b[0], b[1], 0);
    } else if |b| >= 3 {
      ByteGroupRoundTrip(b[0], b[1], b[2]);
      assert vs[4..] == EncodeSextets(b[3..]);
      DecodeEncodeSextets(b[3..]);
      assert b == [b[0], b[1], b[2]] + b[3..];
    }
  }

  lemma SextetsOfChars(vs: seq<nat>)
    requires AllSextets(vs)
    ensures Sextets(SextetChars(vs)) == vs
  {
    forall i | 0 <= i < |vs| ensures Sextets(SextetChars(vs))[i] == vs[i] {
      SextetRoundTrip(vs[i]);
    }
  }

  lemma NoWhitespaceUnchanged(s: string)
    requires forall i :: 0 <= i < |s| ==> !IsAsciiWhitespace(s[i])
    ensures RemoveWhitespace(s) == s
  {
    if |s| > 0 {
      NoWhitespaceUnchanged(s[1..]);
      assert [s[0]] + s[1..] == s;
    }
  }

  lemma RemovePaddingOf(core: string, pad: string)
    requires forall i :: 0 <= i < |core| ==> core[i] != '='
    requires pad == "" || pad == "=" || pad == "=="
    requires (|core| + |pad|) % 4 == 0
    requires pad != "" ==> |core| >= 1
    ensures RemovePadding(core + pad) == core
  {
    var s := core + pad;
    if pad == "==" {
      assert s[|s| - 2..] == pad;
      assert s[..|s| - 2] == core;
    } else if pad == "=" {
      assert s[|s| - 2] == core[|core| - 1];
      assert s[..|s| - 1] == core;
    } else {
      assert s == core;
      if |s| > 0 {
        assert s[|s| - 1] == core[|core| - 1];
      }
    }
  }

  /** The padding completes the last group: an encoding is a whole number of four-character groups. */
  lemma {:induction false} PaddedLength(b: seq<Byte>)
    ensures (|EncodeSextets(b)| + |Padding(|b|)|) % 4 == 0
  {
    if |b| >= 3 {
      var rest := b[3..];
      PaddedLength(rest);
      Mod3Step(|b|);
      assert |rest| == |b| - 3;
      assert Padding(|b|) == Padding(|rest|);
      var a := |EncodeSextets(rest)| + |Padding(|rest|)|;
      Mod4Step(a);
      assert |EncodeSextets(b)| + |Padding(|b|)| == a + 4;
    }
  }

  lemma Mod3Step(n: nat)
    requires n >= 3
    ensures (n - 3) % 3 == n % 3
  {
  }

  lemma Mod4Step(a: nat)
    requires a % 4 == 0
    ensures (a + 4) % 4 == 0
  {
  }

  lemma PaddingRemoved(b: seq<Byte>)
    ensures RemovePadding(Encode(b)) == SextetChars(EncodeSextets(b))
  {
    var core := SextetChars(EncodeSextets(b));
    var pad := Padding(|b|);
    assert forall i :: 0 <= i < |core| ==> core[i] != '=' by {
      assert forall i :: 0 <= i < |core| ==> InAlphabet(core[i]);
    }
    PaddedLength(b);
    assert (|core| + |pad|) % 4 == 0;
    EncodedLength(b);
    assert pad != "" ==> |core| >= 1;
    RemovePaddingOf(core, pad);
  }

  /** `atob` inverts the canonical encoder: decoding an encoding gives the octets back. */
  lemma AtobEncode(b: seq<Byte>)
    ensures Atob(Encode(b)) == Some(Latin1(b))
  {
    var s := Encode(b);
    var core := SextetChars(EncodeSextets(b));
    assert forall i :: 0 <= i < |s| ==> InAlphabet(s[i]) || s[i] == '=';
    NoWhitespaceUnchanged(s);
    PaddingRemoved(b);
    EncodedLength(b);
    SextetsOfChars(EncodeSextets(b));
    DecodeEncodeSextets(b);
  }
}
