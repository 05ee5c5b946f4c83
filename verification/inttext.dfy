/** Decimal text of 32-bit integers, as the token service writes claim values
    (int.ToString()) and as the refresh flow reads the player id back
    (int.TryParse with the default NumberStyles.Integer). */
module IntText {
  import opened Common

  predicate IsDigit(c: char) {
    '0' <= c <= '9'
  }

  predicate AllDigits(s: string) {
    forall i :: 0 <= i < |s| ==> IsDigit(s[i])
  }

  function DigitChar(d: int): (c: char)
    requires 0 <= d < 10
    ensures IsDigit(c)
  {
    ('0' as int + d) as char
  }

  function DigitValue(c: char): (d: int)
    requires IsDigit(c)
    ensures 0 <= d < 10
  {
    c as int - '0' as int
  }

  function NatToDigits(n: nat): (s: string)
    ensures |s| > 0 && AllDigits(s)
  {
    if n < 10 then [DigitChar(n)] else NatToDigits(n / 10) + [DigitChar(n % 10)]
  }

  /** int.ToString(): an optional minus sign followed by the decimal digits. */
  function IntToString(n: int): (s: string)
    ensures |s| > 0
    ensures n >= 0 ==> AllDigits(s)
    ensures n < 0 ==> s[0] == '-' && |s| > 1 && AllDigits(s[1..])
  {
    if n < 0 then "-" + NatToDigits(-n) else NatToDigits(n)
  }

  /** The value of a string of decimal digits, most significant first. */
  function DigitsValue(s: string): nat
    requires AllDigits(s)
  {
    if s == [] then 0 else DigitsValue(s[..|s| - 1]) * 10 + DigitValue(s[|s| - 1])
  }

  /** The white space NumberStyles.AllowLeadingWhite/AllowTrailingWhite skip:
      U+0009 to U+000D and U+0020. */
  predicate IsParseWhite(c: char) {
    c == ' ' || (0x09 <= c as int <= 0x0D)
  }

  /** The index of the first character at or after i that is not parse white space, or |s|. */
  function SkipParseWhite(s: string, i: nat): (k: nat)
    requires i <= |s|
    ensures i <= k <= |s|
    ensures forall j :: i <= j < k ==> IsParseWhite(s[j])
    ensures k < |s| ==> !IsParseWhite(s[k])
    decreases |s| - i
  {
    if i == |s| || !IsParseWhite(s[i]) then i else SkipParseWhite(s, i + 1)
  }

  /** Going back from e, not below lo: the index just after the last
      character that is not parse white space, or lo. */
  function BackParseWhite(s: string, lo: nat, e: nat): (k: nat)
    requires lo <= e <= |s|
    ensures lo <= k <= e
    ensures forall j :: k <= j < e ==> IsParseWhite(s[j])
    ensures k > lo ==> !IsParseWhite(s[k - 1])
    decreases e
  {
    if e == lo || !IsParseWhite(s[e - 1]) then e else BackParseWhite(s, lo, e - 1)
  }

  /** int.TryParse(string, out int): null fails; otherwise optional white
      space, an optional sign, one or more digits, optional white space, and
      the value must fit in 32 bits. */
  function TryParseInt32(s: Option<string>): (r: Option<int>)
    ensures r.Some? ==> IsInt32(r.value)
    ensures s.None? ==> r.None?
  {
    if s.None? then None
    else
      var t := s.value;
      var a := SkipParseWhite(t, 0);
      var c := BackParseWhite(t, a, |t|);
      var b := if a < c && (t[a] == '-' || t[a] == '+') then a + 1 else a;
      if c <= b || !AllDigits(t[b..c]) then None
      else
        var v: int := if b == a + 1 && t[a] == '-' then -(DigitsValue(t[b..c]) as int) else DigitsValue(t[b..c]);
        if IsInt32(v) then Some(v) else None
  }

  /** The text int.TryParse accepts, cut at a, b and c: white space before
      a, an optional sign from a to b, one or more digits from b to c, and
      white space from c to the end. */
  predicate IntegerTextAt(s: string, a: nat, b: nat, c: nat) {
    && a <= b < c <= |s| && b <= a + 1
    && (forall j :: 0 <= j < a ==> IsParseWhite(s[j]))
    && (b == a + 1 ==> s[a] == '-' || s[a] == '+')
    && AllDigits(s[b..c])
    && (forall j :: c <= j < |s| ==> IsParseWhite(s[j]))
  }

  /** The number such a text denotes: its digits, negated after a minus sign. */
  function TextValue(s: string, a: nat, b: nat, c: nat): int
    requires IntegerTextAt(s, a, b, c)
  {
    if b == a + 1 && s[a] == '-' then -(DigitsValue(s[b..c]) as int) else DigitsValue(s[b..c])
  }

  /** A text of the accepted shape has its sign and digits exactly between
      the ends of the white space. */
  lemma CutsAreWhiteEnds(s: string, a: nat, b: nat, c: nat)
    requires IntegerTextAt(s, a, b, c)
    ensures a == SkipParseWhite(s, 0) && c == BackParseWhite(s, a, |s|)
  {
    assert s[b..c][0] == s[b] && s[b..c][c - 1 - b] == s[c - 1];
    assert !IsParseWhite(s[a]) && !IsParseWhite(s[c - 1]);
  }

  /** What int.TryParse accepts has the shape, and its value is the result. */
  lemma TryParseInt32Sound(s: string, v: int)
    requires TryParseInt32(Some(s)) == Some(v)
    ensures IsInt32(v) && exists a, b, c :: IntegerTextAt(s, a, b, c) && TextValue(s, a, b, c) == v
  {
    var a := SkipParseWhite(s, 0);
    var c := BackParseWhite(s, a, |s|);
    var b := if a < c && (s[a] == '-' || s[a] == '+') then a + 1 else a;
    assert IntegerTextAt(s, a, b, c);
  }

  /** Every text of the shape whose value fits in 32 bits is accepted with that value. */
  lemma TryParseInt32Complete(s: string, a: nat, b: nat, c: nat)
    requires IntegerTextAt(s, a, b, c) && IsInt32(TextValue(s, a, b, c))
    ensures TryParseInt32(Some(s)) == Some(TextValue(s, a, b, c))
  {
    CutsAreWhiteEnds(s, a, b, c);
    assert s[b..c][0] == s[b];
  }

  /** int.TryParse succeeds with v exactly when the text is white space, an
      optional sign, one or more digits and white space, v is the number
      they denote, and v fits in 32 bits. */
  lemma TryParseInt32Accepts(s: string, v: int)
    ensures TryParseInt32(Some(s)) == Some(v) <==>
            IsInt32(v) && exists a, b, c :: IntegerTextAt(s, a, b, c) && TextValue(s, a, b, c) == v
  {
    if TryParseInt32(Some(s)) == Some(v) {
      TryParseInt32Sound(s, v);
    }
    if IsInt32(v) && exists a, b, c :: IntegerTextAt(s, a, b, c) && TextValue(s, a, b, c) == v {
      var a, b, c :| IntegerTextAt(s, a, b, c) && TextValue(s, a, b, c) == v;
      TryParseInt32Complete(s, a, b, c);
    }
  }

  lemma {:induction false} DigitsRoundTrip(n: nat)
    ensures DigitsValue(NatToDigits(n)) == n
  {
    if n >= 10 {
      var s := NatToDigits(n);
      assert s[..|s| - 1] == NatToDigits(n / 10);
      DigitsRoundTrip(n / 10);
    }
  }

  /** Parsing what int.ToString() wrote gives the number back, for every
      32-bit value: the id claim written at issuance is the id the refresh
      flow reads. */
  lemma IntTextRoundTrip(n: int)
    requires IsInt32(n)
    ensures TryParseInt32(Some(IntToString(n))) == Some(n)
  {
    var s := IntToString(n);
    if n < 0 {
      assert s[1..|s|] == NatToDigits(-n);
      DigitsRoundTrip(-n);
      assert IntegerTextAt(s, 0, 1, |s|);
      TryParseInt32Complete(s, 0, 1, |s|);
    } else {
      assert s[0..|s|] == s;
      DigitsRoundTrip(n);
      assert IntegerTextAt(s, 0, 0, |s|);
      TryParseInt32Complete(s, 0, 0, |s|);
    }
  }

  /** Decimal text determines the number: distinct 32-bit ids never share a claim value. */
  lemma IntToStringInjective(a: int, b: int)
    requires IsInt32(a) && IsInt32(b) && IntToString(a) == IntToString(b)
    ensures a == b
  {
    IntTextRoundTrip(a);
    IntTextRoundTrip(b);
  }
}
