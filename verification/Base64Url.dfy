/** base64url without padding (sections 4 and 5 of RFC 4648), built from plain base64 by editing
    its text. */
module Base64Url {
  import opened Wrappers

  type Byte = n: int | 0 <= n < 256
  type Sextet = n: int | 0 <= n < 64

  // ------------------------------------------------------------ groups of bits

  function Six1(a: Byte): Sextet {
    a / 4
  }

  function Six2(a: Byte, b: Byte): Sextet {
    a % 4 * 16 + b / 16
  }

  function Six3(b: Byte, c: Byte): Sextet {
    b % 16 * 4 + c / 64
  }

  function Six4(c: Byte): Sextet {
    c % 64
  }

  /** Three bytes are four groups of six bits; a shorter last group is filled up with zeros. */
  function Sextets(bs: seq<Byte>): seq<Sextet> {
    if |bs| == 0 then []
    else if |bs| == 1 then [Six1(bs[0]), Six2(bs[0], 0)]
    else if |bs| == 2 then [Six1(bs[0]), Six2(bs[0], bs[1]), Six3(bs[1], 0)]
    else [Six1(bs[0]), Six2(bs[0], bs[1]), Six3(bs[1], bs[2]), Six4(bs[2])] + Sextets(bs[3..])
  }

  function First(a: int, b: int): int {
    a * 4 + b / 16
  }

  function Second(b: int, c: int): int {
    b % 16 * 16 + c / 4
  }

  function Third(c: int, d: int): int {
    c % 4 * 64 + d
  }

  /** The whole bytes in the groups; bits left over are dropped. */
  function Bytes(vs: seq<Sextet>): seq<Byte> {
    if |vs| < 2 then []
    else if |vs| == 2 then [First(vs[0], vs[1])]
    else if |vs| == 3 then [First(vs[0], vs[1]), Second(vs[1], vs[2])]
    else [First(vs[0], vs[1]), Second(vs[1], vs[2]), Third(vs[2], vs[3])] + Bytes(vs[4..])
  }

  /** Four groups give back their three bytes, and a shorter end its one or two. */
  lemma GroupBack(a: Byte, b: Byte, c: Byte, rest: seq<Sextet>)
    ensures Bytes([Six1(a), Six2(a, b), Six3(b, c), Six4(c)] + rest) == [a, b, c] + Bytes(rest)
    ensures Bytes([Six1(a), Six2(a, b), Six3(b, 0)]) == [a, b]
    ensures Bytes([Six1(a), Six2(a, 0)]) == [a]
  {
    var vs := [Six1(a), Six2(a, b), Six3(b, c), Six4(c)] + rest;
    assert vs[4..] == rest;
  }

  lemma {:induction false} BytesOfSextets(bs: seq<Byte>)
    ensures Bytes(Sextets(bs)) == bs
  {
    hide Bytes, Six1, Six2, Six3, Six4;
    if bs == [] {
      NoBytes();
    } else if |bs| == 1 {
      GroupBack(bs[0], 0, 0, []);
      assert bs == [bs[0]];
    } else if |bs| == 2 {
      GroupBack(bs[0], bs[1], 0, []);
      assert bs == [bs[0], bs[1]];
    } else {
      GroupBack(bs[0], bs[1], bs[2], Sextets(bs[3..]));
      BytesOfSextets(bs[3..]);
      assert bs == [bs[0], bs[1], bs[2]] + bs[3..];
    }
  }

  lemma NoBytes()
    ensures Bytes([]) == []
  {
  }

  // ------------------------------------------------------------ alphabets

  function Letter(v: Sextet): char
    requires v < 62
  {
    if v < 26 then 'A' + v as char else if v < 52 then 'a' + (v - 26) as char else '0' + (v - 52) as char
  }

  function Plain(v: Sextet): char {
    if v < 62 then Letter(v) else if v == 62 then '+' else '/'
  }

  function Url(v: Sextet): char {
    if v < 62 then Letter(v) else if v == 62 then '-' else '_'
  }

  function PlainValue(c: char): Option<Sextet> {
    if 'A' <= c <= 'Z' then Some((c - 'A') as int)
    else if 'a' <= c <= 'z' then Some((c - 'a') as int + 26)
    else if '0' <= c <= '9' then Some((c - '0') as int + 52)
    else if c == '+' then Some(62)
    else if c == '/' then Some(63)
    else None
  }

  function UrlValue(c: char): Option<Sextet> {
    if c == '-' then Some(62) else if c == '_' then Some(63) else PlainValue(c)
  }

  lemma UrlValueOfUrl(v: Sextet)
    ensures UrlValue(Url(v)) == Some(v)
    ensures Url(v) != '.' && Url(v) != '='
  {
  }

  function Letters(vs: seq<Sextet>, alphabet: Sextet -> char): (s: string)
    ensures |s| == |vs| && forall k :: 0 <= k < |vs| ==> s[k] == alphabet(vs[k])
  {
    seq(|vs|, k requires 0 <= k < |vs| => alphabet(vs[k]))
  }

  /** Decoding stops at the first character outside the alphabet. */
  function Values(s: string, value: char -> Option<Sextet>): seq<Sextet> {
    if s == [] || value(s[0]).None? then [] else [value(s[0]).value] + Values(s[1..], value)
  }

  // ------------------------------------------------------------ the library's plain base64

  function Padding(n: nat): string {
    if n % 3 == 0 then "" else if n % 3 == 1 then "==" else "="
  }

  function Encode(bs: seq<Byte>): string {
    Letters(Sextets(bs), Plain) + Padding(|bs|)
  }

  function Decode(s: string): seq<Byte> {
    Bytes(Values(s, PlainValue))
  }

  // ------------------------------------------------------------ base64url

  function UrlEncode(bs: seq<Byte>): string {
    Letters(Sextets(bs), Url)
  }

  function UrlDecode(s: string): seq<Byte> {
    Bytes(Values(s, UrlValue))
  }

  lemma {:induction false} ValuesOfLetters(vs: seq<Sextet>)
    ensures Values(Letters(vs, Url), UrlValue) == vs
  {
    if vs != [] {
      UrlValueOfUrl(vs[0]);
      ValuesOfLetters(vs[1..]);
      assert Letters(vs, Url)[1..] == Letters(vs[1..], Url);
    }
  }

  /** Every byte string comes back. */
  lemma RoundTrip(bs: seq<Byte>)
    ensures UrlDecode(UrlEncode(bs)) == bs
  {
    ValuesOfLetters(Sextets(bs));
    BytesOfSextets(bs);
  }

  lemma EncodingIsInjective(a: seq<Byte>, b: seq<Byte>)
    requires UrlEncode(a) == UrlEncode(b)
    ensures a == b
  {
    RoundTrip(a);
    RoundTrip(b);
  }

  /** The encoding can stand in a token: no dot, and no padding either. */
  lemma EncodingHasNoDot(bs: seq<Byte>)
    ensures '.' !in UrlEncode(bs) && '=' !in UrlEncode(bs)
  {
    var vs, s := Sextets(bs), UrlEncode(bs);
    forall k | 0 <= k < |s| ensures s[k] != '.' && s[k] != '=' {
      UrlValueOfUrl(vs[k]);
    }
  }

  // ------------------------------------------------------------ the text edits

  function ReplaceAll(s: string, from: char, to: char): (r: string)
    ensures |r| == |s| && forall k :: 0 <= k < |s| ==> r[k] == if s[k] == from then to else s[k]
  {
    seq(|s|, k requires 0 <= k < |s| => if s[k] == from then to else s[k])
  }

  lemma PaddingIsShort(n: nat)
    ensures |Padding(n)| <= 2 && forall k :: 0 <= k < |Padding(n)| ==> Padding(n)[k] == '='
  {
  }

  lemma EditedEncoding(bs: seq<Byte>)
    ensures ReplaceAll(ReplaceAll(Encode(bs), '+', '-'), '/', '_') == UrlEncode(bs) + Padding(|bs|)
  {
    PaddingIsShort(|bs|);
    var vs := Sextets(bs);
    assert forall v: Sextet :: Url(v) == if Plain(v) == '+' then '-' else if Plain(v) == '/' then '_' else Plain(v);
    hide Sextets, Padding, Plain, Url;
  }

  method Base64URLEnc(input: seq<Byte>) returns (ret: string)
    ensures ret == UrlEncode(input)
  {
    hide UrlEncode, Padding;
    EditedEncoding(input);
    PaddingIsShort(|input|);
    EncodingHasNoDot(input);
    ret := Encode(input);
    if |ret| > 0 {
      ret := ReplaceAll(ret, '+', '-');
      ret := ReplaceAll(ret, '/', '_');
      ghost var core := UrlEncode(input);
      var ii := 0;
      var s := |ret| - 1;
      while ii < 4 && s >= 0 && ret[s] == '='
        invariant 0 <= ii <= 4 && s == |ret| - 1 - ii && |core| - 1 <= s
      {
        ii := ii + 1;
        s := s - 1;
      }
      s := s + 1;
      if s != |ret| {
        ret := ret[..s];
      }
    }
  }

  lemma {:induction false} EditedValues(s: string, pad: string)
    requires forall c <- pad :: c == '='
    ensures Values(ReplaceAll(ReplaceAll(s, '-', '+'), '_', '/') + pad, PlainValue) == Values(s, UrlValue)
  {
    var edited := ReplaceAll(ReplaceAll(s, '-', '+'), '_', '/');
    if s == [] {
      assert edited + pad == pad;
      if pad != [] { var c := pad[0]; assert c in pad; }
    } else {
      EditedValues(s[1..], pad);
      assert (edited + pad)[1..] == ReplaceAll(ReplaceAll(s[1..], '-', '+'), '_', '/') + pad;
    }
  }

  function Fill(n: nat): (r: string)
    ensures |r| == n && forall c <- r :: c == '='
  {
    seq(n, _ => '=')
  }

  method Base64URLDec(input: string) returns (ret: seq<Byte>)
    ensures ret == UrlDecode(input)
    ensures forall bs :: input == UrlEncode(bs) ==> ret == bs
  {
    var inputCopy := input;
    if |inputCopy| > 0 {
      inputCopy := ReplaceAll(inputCopy, '-', '+');
      inputCopy := ReplaceAll(inputCopy, '_', '/');
      EditedValues(input, "");
      assert inputCopy + "" == inputCopy;
      if |inputCopy| % 4 != 0 {
        EditedValues(input, Fill(4 - |inputCopy| % 4));
        inputCopy := inputCopy + Fill(4 - |inputCopy| % 4);
      }
    }
    ret := Decode(inputCopy);
    forall bs | input == UrlEncode(bs) ensures ret == bs { RoundTrip(bs); }
  }
}
