/** What base64url text means, said with the alphabets written out and with groups of 24 bits as
    numbers (sections 4 and 5 of RFC 4648). */
module Base64Meaning {
  import opened Wrappers
  import opened Base64Url

  // ------------------------------------------------------------ alphabets

  const UPPER := "ABCDEFGHIJKLMNOPQRSTUVWXYZ"
  const LOWER := "abcdefghijklmnopqrstuvwxyz"
  const DIGITS := "0123456789"
  const PLAIN_ALPHABET := UPPER + LOWER + DIGITS + "+/"
  const URL_ALPHABET := UPPER + LOWER + DIGITS + "-_"

  lemma UpperAt(v: int)
    requires 0 <= v < 26
    ensures |UPPER| == 26 && UPPER[v] == 'A' + v as char
  {
  }

  lemma LowerAt(v: int)
    requires 0 <= v < 26
    ensures |LOWER| == 26 && LOWER[v] == 'a' + v as char
  {
  }

  lemma DigitAt(v: int)
    requires 0 <= v < 10
    ensures |DIGITS| == 10 && DIGITS[v] == '0' + v as char
  {
  }

  /** Tables 1 and 2 of RFC 4648. */
  lemma AlphabetsAre(v: Sextet)
    ensures |PLAIN_ALPHABET| == |URL_ALPHABET| == 64
    ensures Plain(v) == PLAIN_ALPHABET[v] && Url(v) == URL_ALPHABET[v]
    ensures PlainValue(PLAIN_ALPHABET[v]) == Some(v) && UrlValue(URL_ALPHABET[v]) == Some(v)
  {
    var u, l, d := UPPER, LOWER, DIGITS;
    UpperAt(if v < 26 then v else 0);
    LowerAt(if 26 <= v < 52 then v - 26 else 0);
    DigitAt(if 52 <= v < 62 then v - 52 else 0);
    At(u, l, d, "+/", v);
    At(u, l, d, "-_", v);
  }

  lemma At(u: string, l: string, d: string, last: string, v: Sextet)
    requires |u| == 26 && |l| == 26 && |d| == 10 && |last| == 2
    ensures |u + l + d + last| == 64
    ensures (u + l + d + last)[v] ==
            if v < 26 then u[v] else if v < 52 then l[v - 26] else if v < 62 then d[v - 52] else last[v - 62]
  {
  }

  lemma HasValueIff(c: char)
    ensures UrlValue(c).Some? <==> c in URL_ALPHABET || c == '+' || c == '/'
  {
    if UrlValue(c).Some? {
      ValueIsPlace(c);
    }
    forall v: Sextet ensures UrlValue(URL_ALPHABET[v]) == Some(v) && |URL_ALPHABET| == 64 {
      AlphabetsAre(v);
    }
    hide UrlValue;
    if c in URL_ALPHABET {
      var k :| 0 <= k < |URL_ALPHABET| && URL_ALPHABET[k] == c;
      assert UrlValue(URL_ALPHABET[k]) == Some(k);
    }
  }

  lemma ValueIsPlace(c: char)
    requires UrlValue(c).Some?
    ensures c == '+' || c == '/' || (|URL_ALPHABET| == 64 && URL_ALPHABET[UrlValue(c).value] == c)
  {
    AlphabetsAre(UrlValue(c).value);
  }

  // ------------------------------------------------------------ groups of bits

  /** Three bytes, and four groups of six bits, as one number with the first ones highest. */
  function ThreeBytes(a: int, b: int, c: int): int {
    a * 0x1_0000 + b * 0x100 + c
  }

  function FourSextets(a: int, b: int, c: int, d: int): int {
    a * 0x4_0000 + b * 0x1000 + c * 0x40 + d
  }

  /** The `k`-th three bytes and the `k`-th four groups are the same 24 bits. */
  ghost predicate SameBits(bs: seq<Byte>, vs: seq<Sextet>, k: nat) {
    && 3 * k + 2 < |bs| && 4 * k + 3 < |vs|
    && ThreeBytes(bs[3 * k], bs[3 * k + 1], bs[3 * k + 2])
       == FourSextets(vs[4 * k], vs[4 * k + 1], vs[4 * k + 2], vs[4 * k + 3])
  }

  lemma SameBitsShift(bs: seq<Byte>, vs: seq<Sextet>, k: nat)
    requires |bs| >= 3 && |vs| >= 4 && SameBits(bs[3..], vs[4..], k)
    ensures SameBits(bs, vs, k + 1)
  {
    hide ThreeBytes, FourSextets;
    var b, v, i, j := bs[3..], vs[4..], 3 * k, 4 * k;
    assert b[i] == bs[i + 3] && b[i + 1] == bs[i + 4] && b[i + 2] == bs[i + 5];
    assert v[j] == vs[j + 4] && v[j + 1] == vs[j + 5] && v[j + 2] == vs[j + 6] && v[j + 3] == vs[j + 7];
  }

  lemma {:induction false} EncodedGroup(bs: seq<Byte>, k: nat)
    requires 3 * k + 2 < |bs|
    ensures SameBits(bs, Sextets(bs), k)
  {
    if k > 0 {
      EncodedGroup(bs[3..], k - 1);
      assert Sextets(bs)[4..] == Sextets(bs[3..]);
      hide Sextets, SameBits;
      assert |Sextets(bs)| >= 4;
      SameBitsShift(bs, Sextets(bs), k - 1);
    }
  }

  /** Decoding puts the groups together again the same way. */
  lemma {:induction false} DecodedGroup(vs: seq<Sextet>, k: nat)
    requires 4 * k + 3 < |vs|
    ensures SameBits(Bytes(vs), vs, k)
  {
    if k > 0 {
      DecodedGroup(vs[4..], k - 1);
      assert Bytes(vs)[3..] == Bytes(vs[4..]);
      hide Bytes, SameBits;
      assert |Bytes(vs)| >= 3;
      SameBitsShift(Bytes(vs), vs, k - 1);
    }
  }

  /** One byte left over, or two, and the groups it is filled up to with zero bits. */
  predicate OneFilled(b: int, v: int, w: int) {
    v * 0x40 + w == b * 0x10
  }

  predicate TwoFilled(b: int, c: int, v: int, w: int, x: int) {
    v * 0x1000 + w * 0x40 + x == (b * 0x100 + c) * 4
  }

  ghost predicate FilledUp(bs: seq<Byte>, vs: seq<Sextet>) {
    var n, m := |bs|, |vs|;
    && m == (4 * n + 2) / 3
    && (n % 3 == 1 ==> OneFilled(bs[n - 1], vs[m - 2], vs[m - 1]))
    && (n % 3 == 2 ==> TwoFilled(bs[n - 2], bs[n - 1], vs[m - 3], vs[m - 2], vs[m - 1]))
  }

  lemma FilledShift(bs: seq<Byte>, vs: seq<Sextet>, cs: seq<Byte>, ws: seq<Sextet>)
    requires |bs| >= 3 && |vs| >= 4 && cs == bs[3..] && ws == vs[4..] && FilledUp(cs, ws)
    ensures FilledUp(bs, vs)
  {
    hide OneFilled, TwoFilled;
    var n, m := |cs|, |ws|;
    assert (4 * |bs| + 2) / 3 == (4 * n + 2) / 3 + 4;
    if n % 3 == 1 {
      assert cs[n - 1] == bs[n + 2] && ws[m - 2] == vs[m + 2] && ws[m - 1] == vs[m + 3];
    } else if n % 3 == 2 {
      assert cs[n - 2] == bs[n + 1] && cs[n - 1] == bs[n + 2];
      assert ws[m - 3] == vs[m + 1] && ws[m - 2] == vs[m + 2] && ws[m - 1] == vs[m + 3];
    }
  }

  lemma {:induction false} EncodedRest(bs: seq<Byte>)
    ensures FilledUp(bs, Sextets(bs))
  {
    if |bs| >= 3 {
      EncodedRest(bs[3..]);
      assert Sextets(bs)[4..] == Sextets(bs[3..]);
      hide Sextets, FilledUp;
      assert |Sextets(bs)| >= 4;
      FilledShift(bs, Sextets(bs), bs[3..], Sextets(bs[3..]));
    }
  }

  /** Of a last group that is too short only the whole bytes count. */
  predicate OneWhole(b: int, v: int, w: int) {
    b == (v * 0x40 + w) / 0x10
  }

  predicate TwoWhole(b: int, c: int, v: int, w: int, x: int) {
    b * 0x100 + c == (v * 0x1000 + w * 0x40 + x) / 4
  }

  ghost predicate CutDown(bs: seq<Byte>, vs: seq<Sextet>) {
    var n, m := |bs|, |vs|;
    && n == 3 * m / 4
    && (m % 4 == 2 ==> OneWhole(bs[n - 1], vs[m - 2], vs[m - 1]))
    && (m % 4 == 3 ==> TwoWhole(bs[n - 2], bs[n - 1], vs[m - 3], vs[m - 2], vs[m - 1]))
  }

  lemma CutShift(bs: seq<Byte>, vs: seq<Sextet>, cs: seq<Byte>, ws: seq<Sextet>)
    requires |bs| >= 3 && |vs| >= 4 && cs == bs[3..] && ws == vs[4..] && CutDown(cs, ws)
    ensures CutDown(bs, vs)
  {
    hide OneWhole, TwoWhole;
    var n, m := |cs|, |ws|;
    assert 3 * |vs| / 4 == 3 * m / 4 + 3;
    if m % 4 == 2 {
      assert cs[n - 1] == bs[n + 2] && ws[m - 2] == vs[m + 2] && ws[m - 1] == vs[m + 3];
    } else if m % 4 == 3 {
      assert cs[n - 2] == bs[n + 1] && cs[n - 1] == bs[n + 2];
      assert ws[m - 3] == vs[m + 1] && ws[m - 2] == vs[m + 2] && ws[m - 1] == vs[m + 3];
    }
  }

  lemma {:induction false} DecodedRest(vs: seq<Sextet>)
    ensures CutDown(Bytes(vs), vs)
  {
    if |vs| >= 4 {
      DecodedRest(vs[4..]);
      assert Bytes(vs)[3..] == Bytes(vs[4..]);
      hide Bytes, CutDown;
      assert |Bytes(vs)| >= 3;
      CutShift(Bytes(vs), vs, Bytes(vs[4..]), vs[4..]);
    }
  }

  // ------------------------------------------------------------ texts

  /** The text writes the groups in the url alphabet. */
  ghost predicate Writes(s: string, vs: seq<Sextet>) {
    |s| == |vs| && forall k :: 0 <= k < |s| ==> WritesAt(s[k], vs[k])
  }

  ghost predicate WritesAt(c: char, v: Sextet) {
    |URL_ALPHABET| == 64 && c == URL_ALPHABET[v]
  }

  /** The encoding of every byte string: its groups of 24 bits, six at a time, without padding. */
  lemma EncodingMeans(bs: seq<Byte>)
    ensures exists vs ::
              && Writes(UrlEncode(bs), vs) && FilledUp(bs, vs)
              && forall k :: 0 <= k < |bs| / 3 ==> SameBits(bs, vs, k)
  {
    var vs, s := Sextets(bs), UrlEncode(bs);
    EncodedRest(bs);
    forall k | 0 <= k < |bs| / 3 ensures SameBits(bs, vs, k) { EncodedGroup(bs, k); }
    forall k | 0 <= k < |s| ensures WritesAt(s[k], vs[k]) { AlphabetsAre(vs[k]); }
    hide Sextets, SameBits, FilledUp, WritesAt;
    assert Writes(s, vs);
  }

  /** The decoding of every text in the alphabet, whatever follows behind a character outside it:
      the same groups, and of a last short group only the whole bytes. */
  lemma DecodingMeans(s: string, vs: seq<Sextet>, rest: string)
    requires Writes(s, vs)
    requires rest != "" ==> rest[0] !in URL_ALPHABET && rest[0] != '+' && rest[0] != '/'
    ensures var bs := UrlDecode(s + rest);
            CutDown(bs, vs) && forall k :: 0 <= k < |vs| / 4 ==> SameBits(bs, vs, k)
  {
    if rest != "" { HasValueIff(rest[0]); }
    ValuesOfText(s, vs, rest);
    DecodedRest(vs);
    forall k | 0 <= k < |vs| / 4 ensures SameBits(Bytes(vs), vs, k) { DecodedGroup(vs, k); }
    hide Bytes, SameBits, CutDown, Values;
  }

  lemma {:induction false} ValuesOfText(s: string, vs: seq<Sextet>, rest: string)
    requires Writes(s, vs) && (rest != "" ==> UrlValue(rest[0]).None?)
    ensures Values(s + rest, UrlValue) == vs
  {
    if s == "" {
      assert s + rest == rest;
    } else {
      assert WritesAt(s[0], vs[0]);
      AlphabetsAre(vs[0]);
      hide UrlValue;
      forall k | 0 <= k < |s| - 1 ensures WritesAt(s[1..][k], vs[1..][k]) { assert WritesAt(s[k + 1], vs[k + 1]); }
      hide WritesAt;
      assert (s + rest)[1..] == s[1..] + rest;
      ValuesOfText(s[1..], vs[1..], rest);
    }
  }

  /** The two characters of the plain alphabet are read as well. */
  lemma PlainCharactersToo()
    ensures UrlValue('+') == UrlValue('-') == Some(62) && UrlValue('/') == UrlValue('_') == Some(63)
  {
  }
}
