/** Base64 text of byte strings, RFC 4648: the standard alphabet with '='
    padding (section 4), which Convert.ToBase64String produces, and the
    URL- and filename-safe alphabet without padding (section 5), which the
    refresh token ends up in after its character replacements. */
module Base64 {
  import opened Common

  /** The standard alphabet of RFC 4648 section 4 (Table 1). */
  function StdChar(i: int): char
    requires 0 <= i < 64
  {
    if i < 26 then ('A' as int + i) as char
    else if i < 52 then ('a' as int + (i - 26)) as char
    else if i < 62 then ('0' as int + (i - 52)) as char
    else if i == 62 then '+'
    else '/'
  }

  /** The URL- and filename-safe alphabet of RFC 4648 section 5 (Table 2):
      the standard one with 62 and 63 written '-' and '_'. */
  function UrlChar(i: int): char
    requires 0 <= i < 64
  {
    if i < 62 then StdChar(i) else if i == 62 then '-' else '_'
  }

  predicate IsUrlSafe(c: char) {
    ('A' <= c <= 'Z') || ('a' <= c <= 'z') || ('0' <= c <= '9') || c == '-' || c == '_'
  }

  /** The character's value in the URL-safe alphabet, if it has one. */
  function UrlIndex(c: char): (r: Option<int>)
    ensures r.Some? ==> 0 <= r.value < 64 && UrlChar(r.value) == c
    ensures r.Some? <==> IsUrlSafe(c)
  {
    if 'A' <= c <= 'Z' then Some(c as int - 'A' as int)
    else if 'a' <= c <= 'z' then Some(c as int - 'a' as int + 26)
    else if '0' <= c <= '9' then Some(c as int - '0' as int + 52)
    else if c == '-' then Some(62)
    else if c == '_' then Some(63)
    else None
  }

  lemma UrlIndexOfUrlChar(i: int)
    requires 0 <= i < 64
    ensures UrlIndex(UrlChar(i)) == Some(i)
  {
  }

  // The four 6-bit groups of a 24-bit input group (RFC 4648 section 4):
  // the first takes the high six bits of b0, the second the low two bits of
  // b0 and high four of b1, the third the low four of b1 and high two of b2,
  // the fourth the low six of b2. Missing bytes count as zero.
  function Sextet0(b0: Byte): int { b0 / 4 }
  function Sextet1(b0: Byte, b1: Byte): int { (b0 % 4) * 16 + b1 / 16 }
  function Sextet2(b1: Byte, b2: Byte): int { (b1 % 16) * 4 + b2 / 64 }
  function Sextet3(b2: Byte): int { b2 % 64 }

  /** Convert.ToBase64String: the standard alphabet, a final group of one
      byte padded with "==" and of two bytes with "=". */
  function ToBase64String(b: seq<Byte>): string
    decreases |b|
  {
    if |b| == 0 then ""
    else if |b| == 1 then
      [StdChar(Sextet0(b[0])), StdChar(Sextet1(b[0], 0)), '=', '=']
    else if |b| == 2 then
      [StdChar(Sextet0(b[0])), StdChar(Sextet1(b[0], b[1])), StdChar(Sextet2(b[1], 0)), '=']
    else
      [StdChar(Sextet0(b[0])), StdChar(Sextet1(b[0], b[1])), StdChar(Sextet2(b[1], b[2])), StdChar(Sextet3(b[2]))]
      + ToBase64String(b[3..])
  }

  /** The four URL-safe characters of a full group of three bytes. */
  function UrlGroup(b0: Byte, b1: Byte, b2: Byte): (g: string)
    ensures |g| == 4
  {
    [UrlChar(Sextet0(b0)), UrlChar(Sextet1(b0, b1)), UrlChar(Sextet2(b1, b2)), UrlChar(Sextet3(b2))]
  }

  /** The reference: base64url without padding (RFC 4648 sections 3.2 and 5).
      A final group of one byte gives two characters, of two bytes three. */
  function Base64UrlNoPad(b: seq<Byte>): string
    decreases |b|
  {
    if |b| == 0 then ""
    else if |b| == 1 then
      [UrlChar(Sextet0(b[0])), UrlChar(Sextet1(b[0], 0))]
    else if |b| == 2 then
      [UrlChar(Sextet0(b[0])), UrlChar(Sextet1(b[0], b[1])), UrlChar(Sextet2(b[1], 0))]
    else
      UrlGroup(b[0], b[1], b[2]) + Base64UrlNoPad(b[3..])
  }

  /** Padded text is four characters per started group of three bytes. */
  lemma {:induction false} ToBase64StringLength(b: seq<Byte>)
    ensures |ToBase64String(b)| == 4 * ((|b| + 2) / 3)
    decreases |b|
  {
    if |b| >= 3 {
      ToBase64StringLength(b[3..]);
      assert |ToBase64String(b)| == 4 + |ToBase64String(b[3..])|;
      assert (|b| + 2) / 3 == (|b[3..]| + 2) / 3 + 1;
    }
  }

  /** Unpadded text is the ceiling of four thirds of the byte count, and
      every character is in the URL-safe alphabet. */
  lemma {:induction false} Base64UrlNoPadShape(b: seq<Byte>)
    ensures |Base64UrlNoPad(b)| == (4 * |b| + 2) / 3
    ensures forall i :: 0 <= i < |Base64UrlNoPad(b)| ==> IsUrlSafe(Base64UrlNoPad(b)[i])
    decreases |b|
  {
    if |b| >= 3 {
      Base64UrlNoPadShape(b[3..]);
      assert |Base64UrlNoPad(b)| == 4 + |Base64UrlNoPad(b[3..])|;
      assert (4 * |b| + 2) / 3 == (4 * |b[3..]| + 2) / 3 + 4;
    }
  }

  /** string.Replace(char, char): every occurrence replaced. */
  function ReplaceChar(s: string, from: char, to: char): (r: string)
    ensures |r| == |s|
    ensures forall i :: 0 <= i < |s| ==> r[i] == (if s[i] == from then to else s[i])
  {
    seq(|s|, i requires 0 <= i < |s| => if s[i] == from then to else s[i])
  }

  /** string.Replace(string, ""): every occurrence of a one-character string removed. */
  function RemoveChar(s: string, c: char): (r: string)
    ensures |r| <= |s|
    ensures forall i :: 0 <= i < |r| ==> r[i] != c
    decreases |s|
  {
    if s == [] then []
    else if s[0] == c then RemoveChar(s[1..], c)
    else [s[0]] + RemoveChar(s[1..], c)
  }

  /** Removing c drops every c and keeps every other character as often as it occurs. */
  lemma {:induction false} RemoveCharCounts(s: string, c: char)
    ensures multiset(RemoveChar(s, c)) == multiset(s)[c := 0]
    decreases |s|
  {
    if s != [] {
      assert s == [s[0]] + s[1..];
      RemoveCharCounts(s[1..], c);
    }
  }

  lemma {:induction false} RemoveCharAppend(a: string, b: string, c: char)
    ensures RemoveChar(a + b, c) == RemoveChar(a, c) + RemoveChar(b, c)
    decreases |a|
  {
    if a != [] {
      assert (a + b)[1..] == a[1..] + b;
      RemoveCharAppend(a[1..], b, c);
    } else {
      assert a + b == b;
    }
  }

  lemma RemoveCharAbsent(s: string, c: char)
    requires forall i :: 0 <= i < |s| ==> s[i] != c
    ensures RemoveChar(s, c) == s
    decreases |s|
  {
    if s != [] {
      RemoveCharAbsent(s[1..], c);
    }
  }

  /** The chain GenerateRefreshToken applies to the Base64 text:
      .Replace('+', '-').Replace('/', '_').Replace("=", ""). */
  function UrlSafeUnpadded(s: string): string {
    RemoveChar(ReplaceChar(ReplaceChar(s, '+', '-'), '/', '_'), '=')
  }

  lemma UrlSafeUnpaddedAppend(a: string, b: string)
    ensures UrlSafeUnpadded(a + b) == UrlSafeUnpadded(a) + UrlSafeUnpadded(b)
  {
    var ra := ReplaceChar(ReplaceChar(a, '+', '-'), '/', '_');
    var rb := ReplaceChar(ReplaceChar(b, '+', '-'), '/', '_');
    assert ReplaceChar(ReplaceChar(a + b, '+', '-'), '/', '_') == ra + rb;
    RemoveCharAppend(ra, rb, '=');
  }

  /** On one character of the standard alphabet the two replacements are the
      switch to the URL-safe alphabet. */
  lemma UrlSafeUnpaddedChar(i: int)
    requires 0 <= i < 64
    ensures UrlSafeUnpadded([StdChar(i)]) == [UrlChar(i)]
  {
    var r := ReplaceChar(ReplaceChar([StdChar(i)], '+', '-'), '/', '_');
    assert r == [UrlChar(i)];
    assert RemoveChar(r, '=') == [r[0]] + RemoveChar([], '=');
  }

  /** Padding is dropped. */
  lemma UrlSafeUnpaddedPad()
    ensures UrlSafeUnpadded(['=']) == []
  {
    var r := ReplaceChar(ReplaceChar(['='], '+', '-'), '/', '_');
    assert r == ['='];
    assert RemoveChar(r, '=') == RemoveChar([], '=');
  }

  /** The replacement chain turns Convert.ToBase64String's output into
      unpadded base64url: RFC 4648 section 5 without the optional padding. */
  lemma UrlSafeUnpaddedTwo(c0: char, c1: char)
    ensures UrlSafeUnpadded([c0, c1]) == UrlSafeUnpadded([c0]) + UrlSafeUnpadded([c1])
  {
    assert [c0, c1] == [c0] + [c1];
    UrlSafeUnpaddedAppend([c0], [c1]);
  }

  lemma UrlSafeUnpaddedFour(c0: char, c1: char, c2: char, c3: char)
    ensures UrlSafeUnpadded([c0, c1, c2, c3]) == UrlSafeUnpadded([c0, c1]) + UrlSafeUnpadded([c2, c3])
  {
    assert [c0, c1, c2, c3] == [c0, c1] + [c2, c3];
    UrlSafeUnpaddedAppend([c0, c1], [c2, c3]);
  }

  /** The last group of one byte: two characters and "==" become two URL-safe characters. */
  lemma UrlSafeUnpaddedOneByte(b0: Byte)
    ensures UrlSafeUnpadded(ToBase64String([b0])) == Base64UrlNoPad([b0])
  {
    var c0, c1 := StdChar(Sextet0(b0)), StdChar(Sextet1(b0, 0));
    UrlSafeUnpaddedFour(c0, c1, '=', '=');
    UrlSafeUnpaddedTwo(c0, c1);
    UrlSafeUnpaddedTwo('=', '=');
    UrlSafeUnpaddedChar(Sextet0(b0));
    UrlSafeUnpaddedChar(Sextet1(b0, 0));
    UrlSafeUnpaddedPad();
  }

  /** The last group of two bytes: three characters and "=" become three URL-safe characters. */
  lemma UrlSafeUnpaddedTwoBytes(b0: Byte, b1: Byte)
    ensures UrlSafeUnpadded(ToBase64String([b0, b1])) == Base64UrlNoPad([b0, b1])
  {
    var c0, c1, c2 := StdChar(Sextet0(b0)), StdChar(Sextet1(b0, b1)), StdChar(Sextet2(b1, 0));
    UrlSafeUnpaddedFour(c0, c1, c2, '=');
    UrlSafeUnpaddedTwo(c0, c1);
    UrlSafeUnpaddedTwo(c2, '=');
    UrlSafeUnpaddedChar(Sextet0(b0));
    UrlSafeUnpaddedChar(Sextet1(b0, b1));
    UrlSafeUnpaddedChar(Sextet2(b1, 0));
    UrlSafeUnpaddedPad();
  }

  /** A full group of three bytes: four characters, each switched to the URL-safe alphabet. */
  lemma UrlSafeUnpaddedFullGroup(b0: Byte, b1: Byte, b2: Byte)
    ensures UrlSafeUnpadded([StdChar(Sextet0(b0)), StdChar(Sextet1(b0, b1)), StdChar(Sextet2(b1, b2)), StdChar(Sextet3(b2))])
         == UrlGroup(b0, b1, b2)
  {
    var c0, c1 := StdChar(Sextet0(b0)), StdChar(Sextet1(b0, b1));
    var c2, c3 := StdChar(Sextet2(b1, b2)), StdChar(Sextet3(b2));
    UrlSafeUnpaddedFour(c0, c1, c2, c3);
    UrlSafeUnpaddedTwo(c0, c1);
    UrlSafeUnpaddedTwo(c2, c3);
    UrlSafeUnpaddedChar(Sextet0(b0));
    UrlSafeUnpaddedChar(Sextet1(b0, b1));
    UrlSafeUnpaddedChar(Sextet2(b1, b2));
    UrlSafeUnpaddedChar(Sextet3(b2));
  }

  /** The replacement chain turns Convert.ToBase64String's output into
      unpadded base64url: RFC 4648 section 5 without the optional padding. */
  lemma {:induction false} UrlSafeUnpaddedIsBase64Url(b: seq<Byte>)
    ensures UrlSafeUnpadded(ToBase64String(b)) == Base64UrlNoPad(b)
    decreases |b|
  {
    if |b| == 0 {
      assert UrlSafeUnpadded("") == "";
    } else if |b| == 1 {
      assert b == [b[0]];
      UrlSafeUnpaddedOneByte(b[0]);
    } else if |b| == 2 {
      assert b == [b[0], b[1]];
      UrlSafeUnpaddedTwoBytes(b[0], b[1]);
    } else {
      var group := [StdChar(Sextet0(b[0])), StdChar(Sextet1(b[0], b[1])), StdChar(Sextet2(b[1], b[2])), StdChar(Sextet3(b[2]))];
      assert ToBase64String(b) == group + ToBase64String(b[3..]);
      UrlSafeUnpaddedAppend(group, ToBase64String(b[3..]));
      UrlSafeUnpaddedFullGroup(b[0], b[1], b[2]);
      UrlSafeUnpaddedIsBase64Url(b[3..]);
    }
  }

  // Decoding (RFC 4648 section 5 without padding): four characters give
  // three bytes; a final two give one byte and a final three give two, and
  // the bits left over must be zero. A single trailing character is invalid.
  function DecodeGroup(s: string): (r: Option<seq<Byte>>)
    requires 2 <= |s| <= 4
    ensures r.Some? ==> |r.value| == |s| - 1
  {
    var i0, i1 := UrlIndex(s[0]), UrlIndex(s[1]);
    var i2 := if |s| > 2 then UrlIndex(s[2]) else Some(0);
    var i3 := if |s| > 3 then UrlIndex(s[3]) else Some(0);
    if i0.None? || i1.None? || i2.None? || i3.None? then None
    else JoinSextets(i0.value, i1.value, i2.value, i3.value, |s|)
  }

  /** The bytes of n sextets (n from 2 to 4, missing ones zero): the bits
      are laid end to end and cut into bytes; the bits past the last whole
      byte must be zero. */
  function JoinSextets(a: int, b: int, c: int, d: int, n: int): (r: Option<seq<Byte>>)
    requires 0 <= a < 64 && 0 <= b < 64 && 0 <= c < 64 && 0 <= d < 64 && 2 <= n <= 4
    ensures r.Some? ==> |r.value| == n - 1
  {
    var x0: Byte, x1: Byte, x2: Byte := a * 4 + b / 16, (b % 16) * 16 + c / 4, (c % 4) * 64 + d;
    if n == 2 then (if b % 16 != 0 then None else Some([x0]))
    else if n == 3 then (if c % 4 != 0 then None else Some([x0, x1]))
    else Some([x0, x1, x2])
  }

  function DecodeBase64UrlNoPad(s: string): Option<seq<Byte>>
    decreases |s|
  {
    if |s| == 0 then Some([])
    else if |s| == 1 then None
    else if |s| <= 4 then DecodeGroup(s)
    else
      match DecodeGroup(s[..4])
      case None => None
      case Some(head) =>
        match DecodeBase64UrlNoPad(s[4..])
        case None => None
        case Some(tail) => Some(head + tail)
  }

  lemma SextetsInRange(b0: Byte, b1: Byte)
    ensures 0 <= Sextet0(b0) < 64 && 0 <= Sextet1(b0, b1) < 64 && 0 <= Sextet2(b0, b1) < 64 && 0 <= Sextet3(b0) < 64
  {
  }

  lemma JoinFullGroup(b0: Byte, b1: Byte, b2: Byte)
    requires 0 <= Sextet0(b0) < 64 && 0 <= Sextet1(b0, b1) < 64 && 0 <= Sextet2(b1, b2) < 64 && 0 <= Sextet3(b2) < 64
    ensures JoinSextets(Sextet0(b0), Sextet1(b0, b1), Sextet2(b1, b2), Sextet3(b2), 4) == Some([b0, b1, b2])
  {
    assert Sextet0(b0) * 4 + Sextet1(b0, b1) / 16 == b0;
    assert (Sextet1(b0, b1) % 16) * 16 + Sextet2(b1, b2) / 4 == b1;
    assert (Sextet2(b1, b2) % 4) * 64 + Sextet3(b2) == b2;
  }

  lemma JoinTwoBytes(b0: Byte, b1: Byte)
    requires 0 <= Sextet0(b0) < 64 && 0 <= Sextet1(b0, b1) < 64 && 0 <= Sextet2(b1, 0) < 64
    ensures JoinSextets(Sextet0(b0), Sextet1(b0, b1), Sextet2(b1, 0), 0, 3) == Some([b0, b1])
  {
    assert Sextet0(b0) * 4 + Sextet1(b0, b1) / 16 == b0;
    assert (Sextet1(b0, b1) % 16) * 16 + Sextet2(b1, 0) / 4 == b1;
    assert Sextet2(b1, 0) % 4 == 0;
  }

  lemma JoinOneByte(b0: Byte)
    requires 0 <= Sextet0(b0) < 64 && 0 <= Sextet1(b0, 0) < 64
    ensures JoinSextets(Sextet0(b0), Sextet1(b0, 0), 0, 0, 2) == Some([b0])
  {
    assert Sextet0(b0) * 4 + Sextet1(b0, 0) / 16 == b0;
    assert Sextet1(b0, 0) % 16 == 0;
  }

  lemma DecodeFullGroup(b0: Byte, b1: Byte, b2: Byte)
    ensures DecodeGroup(UrlGroup(b0, b1, b2)) == Some([b0, b1, b2])
  {
    SextetsInRange(b0, b1);
    SextetsInRange(b1, b2);
    SextetsInRange(b2, 0);
    UrlIndexOfUrlChar(Sextet0(b0));
    UrlIndexOfUrlChar(Sextet1(b0, b1));
    UrlIndexOfUrlChar(Sextet2(b1, b2));
    UrlIndexOfUrlChar(Sextet3(b2));
    JoinFullGroup(b0, b1, b2);
  }

  lemma DecodeTwoByteGroup(b0: Byte, b1: Byte)
    ensures DecodeGroup([UrlChar(Sextet0(b0)), UrlChar(Sextet1(b0, b1)), UrlChar(Sextet2(b1, 0))]) == Some([b0, b1])
  {
    SextetsInRange(b0, b1);
    SextetsInRange(b1, 0);
    UrlIndexOfUrlChar(Sextet0(b0));
    UrlIndexOfUrlChar(Sextet1(b0, b1));
    UrlIndexOfUrlChar(Sextet2(b1, 0));
    JoinTwoBytes(b0, b1);
  }

  lemma DecodeOneByteGroup(b0: Byte)
    ensures DecodeGroup([UrlChar(Sextet0(b0)), UrlChar(Sextet1(b0, 0))]) == Some([b0])
  {
    SextetsInRange(b0, 0);
    UrlIndexOfUrlChar(Sextet0(b0));
    UrlIndexOfUrlChar(Sextet1(b0, 0));
    JoinOneByte(b0);
  }

  /** A full group in front of text that decodes: the two decodings joined. */
  lemma DecodeAfterGroup(g: string, t: string, head: seq<Byte>, tail: seq<Byte>)
    requires |g| == 4 && DecodeGroup(g) == Some(head) && DecodeBase64UrlNoPad(t) == Some(tail)
    ensures DecodeBase64UrlNoPad(g + t) == Some(head + tail)
  {
    if t == [] {
      assert g + t == g;
      assert head + tail == head;
    } else {
      assert (g + t)[..4] == g;
      assert (g + t)[4..] == t;
    }
  }

  lemma DecodeEncodeOne(b0: Byte)
    ensures DecodeBase64UrlNoPad(Base64UrlNoPad([b0])) == Some([b0])
  {
    DecodeOneByteGroup(b0);
  }

  lemma DecodeEncodeTwo(b0: Byte, b1: Byte)
    ensures DecodeBase64UrlNoPad(Base64UrlNoPad([b0, b1])) == Some([b0, b1])
  {
    DecodeTwoByteGroup(b0, b1);
  }

  /** Decoding recovers the bytes: the encoding loses nothing. */
  lemma {:induction false} DecodeEncode(b: seq<Byte>)
    ensures DecodeBase64UrlNoPad(Base64UrlNoPad(b)) == Some(b)
    decreases |b|
  {
    if |b| == 1 {
      assert b == [b[0]];
      DecodeEncodeOne(b[0]);
    } else if |b| == 2 {
      assert b == [b[0], b[1]];
      DecodeEncodeTwo(b[0], b[1]);
    } else if |b| >= 3 {
      assert b == [b[0], b[1], b[2]] + b[3..];
      DecodeEncode(b[3..]);
      DecodeEncodeGroup(b[0], b[1], b[2], b[3..], Base64UrlNoPad(b[3..]));
    }
  }

  /** One full group in front of text that decodes back to the rest of the bytes. */
  lemma DecodeEncodeGroup(b0: Byte, b1: Byte, b2: Byte, rest: seq<Byte>, t: string)
    requires t == Base64UrlNoPad(rest) && DecodeBase64UrlNoPad(t) == Some(rest)
    ensures DecodeBase64UrlNoPad(Base64UrlNoPad([b0, b1, b2] + rest)) == Some([b0, b1, b2] + rest)
  {
    var b := [b0, b1, b2] + rest;
    assert b[0] == b0 && b[1] == b1 && b[2] == b2 && b[3..] == rest;
    assert Base64UrlNoPad(b) == UrlGroup(b0, b1, b2) + t;
    DecodeFullGroup(b0, b1, b2);
    DecodeAfterGroup(UrlGroup(b0, b1, b2), t, [b0, b1, b2], rest);
  }

  /** Distinct byte strings never share an encoding. */
  lemma Base64UrlInjective(a: seq<Byte>, b: seq<Byte>)
    requires Base64UrlNoPad(a) == Base64UrlNoPad(b)
    ensures a == b
  {
    DecodeEncode(a);
    DecodeEncode(b);
  }
}
