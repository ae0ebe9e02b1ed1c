/**
 * Base64 as the push client uses it. `atob` is the forgiving-base64 decode of
 * the WHATWG Infra standard over the alphabet of RFC 4648 section 4 (Table 1);
 * the VAPID key arrives in the URL-safe alphabet of RFC 4648 section 5 and
 * without the `=` padding of RFC 4648 section 3.2, so it is padded and its two
 * URL-safe characters are mapped back before decoding. An encoder to the
 * URL-safe alphabet without padding is the partner of the conversion.
 */
module Base64 {

  import opened Wrappers
  import opened Text

  newtype byte = x: int | 0 <= x < 256

  /* ---------------------------------------------------------------------- */
  /* Alphabets                                                              */
  /* ---------------------------------------------------------------------- */

  /** The 6-bit value of a character of the standard alphabet, if it is one. */
  function SextetOf(c: char): (v: Option<nat>)
    ensures v.Some? ==> v.value < 64
  {
    if 'A' <= c <= 'Z' then Some(c as int - 'A' as int)
    else if 'a' <= c <= 'z' then Some(c as int - 'a' as int + 26)
    else if '0' <= c <= '9' then Some(c as int - '0' as int + 52)
    else if c == '+' then Some(62)
    else if c == '/' then Some(63)
    else None
  }

  /** The character of the standard alphabet for a 6-bit value. */
  function StdChar(v: nat): (c: char)
    requires v < 64
    ensures SextetOf(c) == Some(v)
  {
    if v < 26 then ('A' as int + v) as char
    else if v < 52 then ('a' as int + v - 26) as char
    else if v < 62 then ('0' as int + v - 52) as char
    else if v == 62 then '+'
    else '/'
  }

  /** The character of the URL-safe alphabet for a 6-bit value: as the standard one, with '-' and '_' for 62 and 63. */
  function UrlChar(v: nat): (c: char)
    requires v < 64
    ensures v < 62 ==> c == StdChar(v)
    ensures v == 62 ==> c == '-'
    ensures v == 63 ==> c == '_'
  {
    if v == 62 then '-' else if v == 63 then '_' else StdChar(v)
  }

  /** Every standard-alphabet character is the character of its value. */
  lemma SextetOfInverse(c: char)
    requires SextetOf(c).Some?
    ensures StdChar(SextetOf(c).value) == c
  {
  }

  /* ---------------------------------------------------------------------- */
  /* Bytes and 6-bit groups                                                 */
  /* ---------------------------------------------------------------------- */

  predicate AllSextets(v: seq<nat>) {
    forall i :: 0 <= i < |v| ==> v[i] < 64
  }

  /** One byte from two sextets; the last four bits of the second are dropped. */
  function Byte1(s0: nat, s1: nat): (b: byte)
    requires s0 < 64 && s1 < 64
  {
    (s0 * 4 + s1 / 16) as byte
  }

  /** Second byte of a group, from the second and third sextets. */
  function Byte2(s1: nat, s2: nat): (b: byte)
    requires s1 < 64 && s2 < 64
  {
    ((s1 % 16) * 16 + s2 / 4) as byte
  }

  /** Third byte of a group, from the third and fourth sextets. */
  function Byte3(s2: nat, s3: nat): (b: byte)
    requires s2 < 64 && s3 < 64
  {
    ((s2 % 4) * 64 + s3) as byte
  }

  /** The bytes of a sextet sequence: 3 per group of 4, then 1 for 2 left over, 2 for 3 left over. */
  function DecodeSextets(v: seq<nat>): (b: seq<byte>)
    requires AllSextets(v) && |v| % 4 != 1
    ensures |b| == (|v| / 4) * 3 + (if |v| % 4 == 0 then 0 else |v| % 4 - 1)
    decreases |v|
  {
    if |v| == 0 then []
    else if |v| == 2 then [Byte1(v[0], v[1])]
    else if |v| == 3 then [Byte1(v[0], v[1]), Byte2(v[1], v[2])]
    else [Byte1(v[0], v[1]), Byte2(v[1], v[2]), Byte3(v[2], v[3])] + DecodeSextets(v[4..])
  }

  /** The sextets of a byte sequence, without padding. */
  function EncodeSextets(b: seq<byte>): (v: seq<nat>)
    ensures AllSextets(v)
    ensures |v| % 4 != 1
    ensures |v| == (|b| / 3) * 4 + (if |b| % 3 == 0 then 0 else |b| % 3 + 1)
    decreases |b|
  {
    if |b| == 0 then []
    else if |b| == 1 then
      [b[0] as nat / 4, (b[0] as nat % 4) * 16]
    else if |b| == 2 then
      [b[0] as nat / 4, (b[0] as nat % 4) * 16 + b[1] as nat / 16, (b[1] as nat % 16) * 4]
    else
      EncodeGroup(b[0], b[1], b[2]) + EncodeSextets(b[3..])
  }

  /** The four sextets of three bytes. */
  function EncodeGroup(x: byte, y: byte, z: byte): (g: seq<nat>)
    ensures |g| == 4 && AllSextets(g)
  {
    [x as nat / 4, (x as nat % 4) * 16 + y as nat / 16, (y as nat % 16) * 4 + z as nat / 64, z as nat % 64]
  }

  /** A group's four sextets decode to its three bytes. */
  lemma GroupBytes(x: byte, y: byte, z: byte)
    ensures var g := EncodeGroup(x, y, z);
            [Byte1(g[0], g[1]), Byte2(g[1], g[2]), Byte3(g[2], g[3])] == [x, y, z]
  {
    GroupRoundTrip(x as nat, y as nat, z as nat);
  }

  lemma GroupRoundTrip(x: nat, y: nat, z: nat)
    requires x < 256 && y < 256 && z < 256
    ensures Byte1(x / 4, (x % 4) * 16 + y / 16) as nat == x
    ensures Byte2((x % 4) * 16 + y / 16, (y % 16) * 4 + z / 64) as nat == y
    ensures Byte3((y % 16) * 4 + z / 64, z % 64) as nat == z
  {
  }

  /** Decoding the encoded sextets gives the bytes back. */
  lemma {:induction false} SextetsRoundTrip(b: seq<byte>)
    ensures DecodeSextets(EncodeSextets(b)) == b
    decreases |b|
  {
    if |b| == 0 {
    } else if |b| == 1 {
      GroupRoundTrip(b[0] as nat, 0, 0);
    } else if |b| == 2 {
      GroupRoundTrip(b[0] as nat, b[1] as nat, 0);
    } else {
      FirstGroupRoundTrip(b);
      SextetsRoundTrip(b[3..]);
      assert b == [b[0], b[1], b[2]] + b[3..];
    }
  }

  /** The first three bytes come back from the first four sextets, and the rest is decoded from the rest. */
  lemma FirstGroupRoundTrip(b: seq<byte>)
    requires |b| >= 3
    ensures DecodeSextets(EncodeSextets(b)) == [b[0], b[1], b[2]] + DecodeSextets(EncodeSextets(b[3..]))
  {
    var g := EncodeGroup(b[0], b[1], b[2]);
    var rest := EncodeSextets(b[3..]);
    assert EncodeSextets(b) == g + rest;
    DecodeGroupThenRest(g, rest);
    GroupBytes(b[0], b[1], b[2]);
  }

  /** Decoding a group followed by more sextets decodes the group and then the rest. */
  lemma DecodeGroupThenRest(g: seq<nat>, rest: seq<nat>)
    requires |g| == 4 && AllSextets(g) && AllSextets(rest) && |rest| % 4 != 1
    ensures AllSextets(g + rest) && |g + rest| % 4 != 1
    ensures DecodeSextets(g + rest) == [Byte1(g[0], g[1]), Byte2(g[1], g[2]), Byte3(g[2], g[3])] + DecodeSextets(rest)
  {
    assert (g + rest)[4..] == rest;
  }

  /* ---------------------------------------------------------------------- */
  /* atob                                                                   */
  /* ---------------------------------------------------------------------- */

  /** ASCII whitespace in the sense of the Infra standard: TAB, LF, FF, CR, SPACE. */
  predicate IsAsciiWhitespace(c: char) {
    c == '\t' || c == '\n' || c == '\U{0C}' || c == '\r' || c == ' '
  }

  function StripAsciiWhitespace(s: string): (r: string)
    ensures forall i :: 0 <= i < |r| ==> !IsAsciiWhitespace(r[i])
    ensures (forall i :: 0 <= i < |s| ==> !IsAsciiWhitespace(s[i])) ==> r == s
  {
    if |s| == 0 then []
    else (if IsAsciiWhitespace(s[0]) then [] else [s[0]]) + StripAsciiWhitespace(s[1..])
  }

  /** When the length is a multiple of 4, drop one or two trailing '='. */
  function StripPadding(d: string): (r: string)
    ensures |r| <= |d| && r == d[..|r|]
    ensures |d| - |r| <= 2
  {
    if |d| % 4 != 0 then d
    else if |d| >= 2 && d[|d| - 2] == '=' && d[|d| - 1] == '=' then d[..|d| - 2]
    else if |d| >= 1 && d[|d| - 1] == '=' then d[..|d| - 1]
    else d
  }

  /** The sextets of a string all of whose characters are in the standard alphabet. */
  function Sextets(d: string): (v: seq<nat>)
    requires forall i :: 0 <= i < |d| ==> SextetOf(d[i]).Some?
    ensures |v| == |d| && AllSextets(v)
    ensures forall i :: 0 <= i < |d| ==> v[i] == SextetOf(d[i]).value
  {
    seq(|d|, i requires 0 <= i < |d| => SextetOf(d[i]).value)
  }

  /** A byte sequence as a binary string: one character per byte, with that code. */
  function BinaryString(b: seq<byte>): (s: string)
    ensures |s| == |b|
    ensures forall i :: 0 <= i < |b| ==> s[i] as int == b[i] as int
  {
    seq(|b|, i requires 0 <= i < |b| => (b[i] as int) as char)
  }

  /** `atob`: the forgiving-base64 decode; None where it throws. */
  function Atob(s: string): (r: Option<string>)
    ensures r.Some? ==> forall i :: 0 <= i < |r.value| ==> r.value[i] as int < 256
  {
    var d := StripPadding(StripAsciiWhitespace(s));
    if |d| % 4 == 1 then None
    else if exists i :: 0 <= i < |d| && SextetOf(d[i]).None? then None
    else Some(BinaryString(DecodeSextets(Sextets(d))))
  }

  /* ---------------------------------------------------------------------- */
  /* urlBase64ToUint8Array                                                  */
  /* ---------------------------------------------------------------------- */

  /** `(4 - length % 4) % 4`. */
  function PaddingCount(length: nat): (p: nat)
    ensures p <= 3
    ensures (length + p) % 4 == 0
  {
    (4 - length % 4) % 4
  }

  /** A length that is not 1 modulo 4 takes at most two '=', and none when it is 0. */
  lemma PaddingOfValidLength(n: nat)
    requires n % 4 != 1
    ensures PaddingCount(n) <= 2
    ensures PaddingCount(n) > 0 ==> n > 0
  {
  }

  /** The key padded with '=' and mapped from the URL-safe to the standard alphabet. */
  function ToStandard(key: string): (std: string)
    ensures |std| == |key| + PaddingCount(|key|)
    ensures |std| % 4 == 0
    ensures forall i :: 0 <= i < |key| ==>
              std[i] == (if key[i] == '-' then '+' else if key[i] == '_' then '/' else key[i])
    ensures forall i :: |key| <= i < |std| ==> std[i] == '='
  {
    ReplaceAll(ReplaceAll(key + Repeat('=', PaddingCount(|key|)), '-', '+'), '_', '/')
  }

  /** `new Uint8Array(n)` filled with char codes: each code reduced modulo 256. */
  function CharCodes(raw: string): (out: seq<byte>)
    ensures |out| == |raw|
    ensures forall i :: 0 <= i < |raw| ==> out[i] as int == raw[i] as int % 256
  {
    seq(|raw|, i requires 0 <= i < |raw| => (raw[i] as int % 256) as byte)
  }

  /** The copy loop. */
  method CopyCharCodes(raw: string) returns (out: seq<byte>)
    ensures out == CharCodes(raw)
  {
    out := [];
    var i := 0;
    while i < |raw|
      invariant 0 <= i <= |raw|
      invariant |out| == i
      invariant forall k :: 0 <= k < i ==> out[k] as int == raw[k] as int % 256
    {
      out := out + [(raw[i] as int % 256) as byte];
      i := i + 1;
    }
  }

  /** Char codes below 256 survive the copy unchanged. */
  lemma CharCodesOfBinary(raw: string)
    requires forall i :: 0 <= i < |raw| ==> raw[i] as int < 256
    ensures BinaryString(CharCodes(raw)) == raw
  {
  }

  /** `urlBase64ToUint8Array`; None where `atob` throws. Byte i is the code of character i of the decoded string. */
  function UrlBase64ToUint8Array(key: string): (r: Option<seq<byte>>)
    ensures r.Some? <==> Atob(ToStandard(key)).Some?
    ensures r.Some? ==> BinaryString(r.value) == Atob(ToStandard(key)).value
  {
    var raw := Atob(ToStandard(key));
    if raw.None? then None
    else
      CharCodesOfBinary(raw.value);
      Some(CharCodes(raw.value))
  }

  /** The URL-safe encoding without padding. */
  function EncodeUrl(b: seq<byte>): (key: string)
    ensures |key| == |EncodeSextets(b)|
    ensures forall i :: 0 <= i < |key| ==> key[i] == UrlChar(EncodeSextets(b)[i])
  {
    var v := EncodeSextets(b);
    seq(|v|, i requires 0 <= i < |v| => UrlChar(v[i]))
  }

  /** The standard characters of a sextet sequence. */
  function StdChars(v: seq<nat>): (d: string)
    requires AllSextets(v)
    ensures |d| == |v|
    ensures forall i :: 0 <= i < |v| ==> d[i] == StdChar(v[i])
  {
    seq(|v|, i requires 0 <= i < |v| => StdChar(v[i]))
  }

  /** Padding and mapping an encoded key gives the standard characters followed by the padding. */
  lemma ToStandardOfEncoded(b: seq<byte>)
    ensures var v := EncodeSextets(b);
            ToStandard(EncodeUrl(b)) == StdChars(v) + Repeat('=', PaddingCount(|v|))
  {
  }

  /** Neither alphabet characters nor '=' are whitespace. */
  lemma PaddedHasNoWhitespace(d: string, p: nat)
    requires forall i :: 0 <= i < |d| ==> SextetOf(d[i]).Some?
    ensures StripAsciiWhitespace(d + Repeat('=', p)) == d + Repeat('=', p)
  {
    var padded := d + Repeat('=', p);
    forall i | 0 <= i < |padded| ensures !IsAsciiWhitespace(padded[i]) {
      if i < |d| {
        AlphabetNotWhitespace(padded[i]);
      }
    }
  }

  lemma AlphabetNotWhitespace(c: char)
    requires SextetOf(c).Some?
    ensures !IsAsciiWhitespace(c) && c != '='
  {
  }

  /** Stripping the padding leaves exactly the alphabet characters, when there are at most two '='. */
  lemma StripExactPadding(d: string, p: nat)
    requires forall i :: 0 <= i < |d| ==> SextetOf(d[i]).Some?
    requires p <= 2 && (|d| + p) % 4 == 0
    requires p > 0 ==> |d| > 0
    ensures StripPadding(d + Repeat('=', p)) == d
  {
    var padded := d + Repeat('=', p);
    if p == 2 {
      assert padded[..|padded| - 2] == d;
    } else if p == 1 {
      assert SextetOf(padded[|padded| - 2]).Some?;
      assert padded[..|padded| - 1] == d;
    } else if |d| >= 1 {
      assert padded == d;
      assert SextetOf(padded[|padded| - 1]).Some?;
    }
  }

  /** `atob` of standard characters padded to a multiple of four. */
  lemma AtobOfPadded(v: seq<nat>)
    requires AllSextets(v) && |v| % 4 != 1
    ensures Atob(StdChars(v) + Repeat('=', PaddingCount(|v|))) == Some(BinaryString(DecodeSextets(v)))
  {
    var d := StdChars(v);
    SextetsOfStdChars(v);
    CleanOfPadded(v);
    AtobOfClean(d + Repeat('=', PaddingCount(|v|)), d);
  }

  /** Standard characters padded to a multiple of four clean up to themselves. */
  lemma CleanOfPadded(v: seq<nat>)
    requires AllSextets(v) && |v| % 4 != 1
    ensures StripPadding(StripAsciiWhitespace(StdChars(v) + Repeat('=', PaddingCount(|v|)))) == StdChars(v)
  {
    var d := StdChars(v);
    SextetsOfStdChars(v);
    PaddingOfValidLength(|v|);
    PaddedHasNoWhitespace(d, PaddingCount(|v|));
    StripExactPadding(d, PaddingCount(|v|));
  }

  lemma SextetsOfStdChars(v: seq<nat>)
    requires AllSextets(v)
    ensures forall i :: 0 <= i < |StdChars(v)| ==> SextetOf(StdChars(v)[i]).Some?
    ensures Sextets(StdChars(v)) == v
  {
  }

  /** `atob` of a string that cleans up to alphabet characters of a valid length. */
  lemma AtobOfClean(s: string, d: string)
    requires StripPadding(StripAsciiWhitespace(s)) == d
    requires forall i :: 0 <= i < |d| ==> SextetOf(d[i]).Some?
    requires |d| % 4 != 1
    ensures Atob(s) == Some(BinaryString(DecodeSextets(Sextets(d))))
  {
  }

  /** The conversion reads the URL-safe, unpadded encoding of any bytes back to those bytes. */
  lemma UrlBase64RoundTrip(b: seq<byte>)
    ensures UrlBase64ToUint8Array(EncodeUrl(b)) == Some(b)
  {
    var v := EncodeSextets(b);
    ToStandardOfEncoded(b);
    AtobOfPadded(v);
    SextetsRoundTrip(b);
    var out := UrlBase64ToUint8Array(EncodeUrl(b)).value;
    assert out == b;
  }

  /** A key whose length leaves remainder 1 modulo 4 cannot be converted: `atob` throws. */
  lemma RemainderOneRejected(key: string)
    requires |key| % 4 == 1
    requires forall i :: 0 <= i < |key| ==> !IsAsciiWhitespace(key[i]) && key[i] != '='
    ensures UrlBase64ToUint8Array(key) == None
  {
    StandardOfRemainderOne(key);
    AtobRejectsPadding(ToStandard(key), |key|);
  }

  /**
   * Such a key gets three '=', of which cleaning drops only two: the third is
   * left right after the key.
   */
  lemma StandardOfRemainderOne(key: string)
    requires |key| % 4 == 1
    requires forall i :: 0 <= i < |key| ==> !IsAsciiWhitespace(key[i]) && key[i] != '='
    ensures var d := StripPadding(StripAsciiWhitespace(ToStandard(key)));
            |key| < |d| && d[|key|] == '='
  {
    var std := ToStandard(key);
    StandardHasNoWhitespace(key);
    assert |std| == |key| + 3;
    assert std[|std| - 2] == '=' && std[|std| - 1] == '=';
    assert StripPadding(std) == std[..|std| - 2];
  }

  lemma StandardHasNoWhitespace(key: string)
    requires forall i :: 0 <= i < |key| ==> !IsAsciiWhitespace(key[i])
    ensures StripAsciiWhitespace(ToStandard(key)) == ToStandard(key)
  {
    var std := ToStandard(key);
    forall i | 0 <= i < |std| ensures !IsAsciiWhitespace(std[i]) {
      if i < |key| {
        assert std[i] == (if key[i] == '-' then '+' else if key[i] == '_' then '/' else key[i]);
      }
    }
  }

  /** A '=' left after cleaning is outside the alphabet, so `atob` throws. */
  lemma AtobRejectsPadding(s: string, j: nat)
    requires var d := StripPadding(StripAsciiWhitespace(s));
             j < |d| && d[j] == '='
    ensures Atob(s).None?
  {
    var d := StripPadding(StripAsciiWhitespace(s));
    assert SextetOf(d[j]).None?;
  }
}
