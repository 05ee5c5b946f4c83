/** Shared vocabulary: nullable values, bytes, 32-bit bounds, time in seconds,
    and the .NET string helpers the services rely on (IsNullOrEmpty,
    IsNullOrWhiteSpace, Trim). */
module Common {

  /** A C# reference or nullable value: None stands for null. */
  datatype Option<+T> = None | Some(value: T)

  type Byte = x: int | 0 <= x < 0x100

  const Int32Min: int := -0x8000_0000
  const Int32Max: int := 0x7FFF_FFFF

  predicate IsInt32(n: int) {
    Int32Min <= n <= Int32Max
  }

  /** C# unchecked int arithmetic: the value modulo 2^32, read back as a
      signed 32-bit number. */
  function WrapInt32(n: int): (r: int)
    ensures IsInt32(r)
    ensures IsInt32(n) ==> r == n
    ensures (n - r) % 0x1_0000_0000 == 0
  {
    (n - Int32Min) % 0x1_0000_0000 + Int32Min
  }

  /** The length string.Length reports: UTF-16 code units, two for each
      character beyond U+FFFF. */
  function Utf16Length(s: string): (n: nat)
    ensures |s| <= n <= 2 * |s|
    ensures (forall i :: 0 <= i < |s| ==> s[i] as int <= 0xFFFF) ==> n == |s|
  {
    if s == [] then 0
    else Utf16Length(s[..|s| - 1]) + (if s[|s| - 1] as int > 0xFFFF then 2 else 1)
  }

  /** The units of one character: two beyond U+FFFF (a surrogate pair), one otherwise. */
  lemma Utf16LengthChar(c: char)
    ensures Utf16Length([c]) == if c as int > 0xFFFF then 2 else 1
  {
    assert [c][..0] == [];
  }

  /** Lengths add up under concatenation, so a text's length is the sum of
      its characters' units. */
  lemma {:induction false} Utf16LengthAppend(a: string, b: string)
    ensures Utf16Length(a + b) == Utf16Length(a) + Utf16Length(b)
    decreases |b|
  {
    if b == [] {
      assert a + b == a;
    } else {
      var b' := b[..|b| - 1];
      assert (a + b)[..|a + b| - 1] == a + b';
      assert (a + b)[|a + b| - 1] == b[|b| - 1];
      Utf16LengthAppend(a, b');
    }
  }

  // Instants are seconds on the UTC clock; DateTime arithmetic becomes addition.
  const SecondsPerHour: int := 3600
  const SecondsPerDay: int := 86400

  function AddDays(t: int, days: int): int {
    t + days * SecondsPerDay
  }

  function AddHours(t: int, hours: int): int {
    t + hours * SecondsPerHour
  }

  /** C# integer division, which truncates toward zero (Dafny's `/` is Euclidean). */
  function TruncDiv(a: int, b: int): (q: int)
    requires b > 0
    ensures a >= 0 ==> q == a / b
    ensures a < 0 ==> q == -((-a) / b)
    ensures q * b <= a < q * b + b || q * b - b < a <= q * b
  {
    if a >= 0 then a / b else -((-a) / b)
  }

  /** char.IsWhiteSpace: the Unicode White_Space characters. */
  predicate IsWhiteSpace(c: char) {
    var n := c as int;
    (0x09 <= n <= 0x0D) || n == 0x20 || n == 0x85 || n == 0xA0 || n == 0x1680
    || (0x2000 <= n <= 0x200A) || n == 0x2028 || n == 0x2029 || n == 0x202F
    || n == 0x205F || n == 0x3000
  }

  predicate IsNullOrEmpty(s: Option<string>) {
    s.None? || s.value == ""
  }

  predicate IsNullOrWhiteSpace(s: Option<string>) {
    s.None? || forall i :: 0 <= i < |s.value| ==> IsWhiteSpace(s.value[i])
  }

  /** The index of the first character at or after i that is not white space, or |s|. */
  function SkipWhiteSpace(s: string, i: nat): (k: nat)
    requires i <= |s|
    ensures i <= k <= |s|
    ensures forall j :: i <= j < k ==> IsWhiteSpace(s[j])
    ensures k < |s| ==> !IsWhiteSpace(s[k])
    decreases |s| - i
  {
    if i == |s| || !IsWhiteSpace(s[i]) then i else SkipWhiteSpace(s, i + 1)
  }

  /** The index just after the last character before e that is not white space, or 0. */
  function BackWhiteSpace(s: string, e: nat): (k: nat)
    requires e <= |s|
    ensures k <= e
    ensures forall j :: k <= j < e ==> IsWhiteSpace(s[j])
    ensures k > 0 ==> !IsWhiteSpace(s[k - 1])
  {
    if e == 0 || !IsWhiteSpace(s[e - 1]) then e else BackWhiteSpace(s, e - 1)
  }

  /** string.Trim(): strips white space at both ends. The result is the
      piece of the input between the first and the last character that is
      not white space, and it is empty when there is none. */
  function Trim(s: string): (r: string)
    ensures |r| <= |s|
    ensures r != [] ==> !IsWhiteSpace(r[0]) && !IsWhiteSpace(r[|r| - 1])
    ensures r == [] <==> forall i :: 0 <= i < |s| ==> IsWhiteSpace(s[i])
    ensures exists k, e :: 0 <= k <= e <= |s| && r == s[k..e]
              && (forall j :: 0 <= j < k ==> IsWhiteSpace(s[j]))
              && (forall j :: e <= j < |s| ==> IsWhiteSpace(s[j]))
  {
    var k := SkipWhiteSpace(s, 0);
    var e := BackWhiteSpace(s, |s|);
    if k == |s| then
      assert s[k..k] == "";
      ""
    else
      assert k < e;
      s[k..e]
  }

  /** Trimming twice changes nothing more. */
  lemma {:induction false} TrimIdempotent(s: string)
    ensures Trim(Trim(s)) == Trim(s)
  {
    var r := Trim(s);
    if r != [] {
      assert SkipWhiteSpace(r, 0) == 0;
      assert BackWhiteSpace(r, |r|) == |r|;
      assert r[0..|r|] == r;
    }
  }
}
