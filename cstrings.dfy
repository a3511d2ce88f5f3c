/**
 * C string routines the shell uses: its own myStrchr, and the two libc
 * routines its job-control code relies on (strchr and atoi), all on
 * sequences of characters.
 */
module CStrings {
  import opened Wrappers

  /** strlen of a C string held in a buffer: the index of its first NUL. */
  function CLength(p: seq<char>): (n: nat)
    requires '\0' in p
    ensures n < |p| && p[n] == '\0'
    ensures forall j :: 0 <= j < n ==> p[j] != '\0'
  {
    if p[0] == '\0' then 0
    else
      assert '\0' in p[1..] by { assert p == [p[0]] + p[1..]; }
      1 + CLength(p[1..])
  }

  /**
   * myStrchr: scan the C string in p for ch, stopping at the terminator.
   * The result is the smallest index holding ch, or -1 if ch does not occur
   * up to and including the terminator (so a NUL ch finds the terminator).
   */
  method MyStrchr(p: seq<char>, ch: char) returns (index: int)
    requires '\0' in p
    ensures -1 <= index <= CLength(p)
    ensures index >= 0 ==> p[index] == ch && forall j :: 0 <= j < index ==> p[j] != ch
    ensures index == -1 <==> forall j :: 0 <= j <= CLength(p) ==> p[j] != ch
  {
    index := 0;
    while ch != p[index] && p[index] != '\0'
      invariant 0 <= index <= CLength(p)
      invariant forall j :: 0 <= j < index ==> p[j] != ch
      decreases CLength(p) - index
    {
      index := index + 1;
    }
    if ch != p[index] {
      index := -1;
    }
  }

  /**
   * strchr(s + from, c) on the text of a C string (which holds no NUL), for a
   * non-NUL c: the index of the first c at or after from, None for NULL.
   */
  function StrChr(s: string, from: nat, c: char): (r: Option<nat>)
    requires from <= |s|
    ensures r.Some? ==> from <= r.value < |s| && s[r.value] == c
    ensures r.Some? ==> forall j :: from <= j < r.value ==> s[j] != c
    ensures r.None? ==> forall j :: from <= j < |s| ==> s[j] != c
    decreases |s| - from
  {
    if from == |s| then None
    else if s[from] == c then Some(from)
    else StrChr(s, from + 1, c)
  }

  /** An occurrence of c with none before it, from index `from` on, is what strchr finds. */
  lemma StrChrAt(s: string, from: nat, c: char, i: nat)
    requires from <= i < |s| && s[i] == c
    requires forall j :: from <= j < i ==> s[j] != c
    ensures StrChr(s, from, c) == Some(i)
  {
    var r := StrChr(s, from, c);
    assert r.Some? && r.value <= i;
    assert r.value >= i;
  }

  /** isspace in the C locale. */
  predicate IsSpace(c: char) {
    c == ' ' || c == '\t' || c == '\n' || c == '\U{B}' || c == '\U{C}' || c == '\r'
  }

  /** isdigit. */
  predicate IsDigit(c: char) {
    '0' <= c <= '9'
  }

  /** What atoi skips first: the leading white space of s. */
  function DropSpaces(s: string): (t: string)
    ensures |t| <= |s| && t == s[|s| - |t|..]
    ensures t == [] || !IsSpace(t[0])
    ensures forall i :: 0 <= i < |s| - |t| ==> IsSpace(s[i])
  {
    if |s| > 0 && IsSpace(s[0]) then DropSpaces(s[1..]) else s
  }

  /** The longest prefix of s made of decimal digits. */
  function DigitPrefix(s: string): (d: string)
    ensures |d| <= |s| && d == s[..|d|]
    ensures forall i :: 0 <= i < |d| ==> IsDigit(d[i])
    ensures |d| == |s| || !IsDigit(s[|d|])
  {
    if |s| > 0 && IsDigit(s[0]) then [s[0]] + DigitPrefix(s[1..]) else []
  }

  /** The value of a string of decimal digits, most significant first. */
  function DigitsValue(d: string): nat
    requires forall i :: 0 <= i < |d| ==> IsDigit(d[i])
  {
    if |d| == 0 then 0
    else
      assert IsDigit(d[|d| - 1]);
      DigitsValue(d[..|d| - 1]) * 10 + (d[|d| - 1] as int - '0' as int)
  }

  /**
   * atoi: leading white space, an optional sign, then the longest run of
   * digits; no digits gives 0. The int range of the C result is not modelled.
   */
  function Atoi(s: string): int {
    Signed(DropSpaces(s))
  }

  /** atoi after the white space: an optional sign, then the digits. */
  function Signed(t: string): int {
    if |t| > 0 && t[0] == '-' then -(DigitsValue(DigitPrefix(t[1..])) as int)
    else if |t| > 0 && t[0] == '+' then DigitsValue(DigitPrefix(t[1..]))
    else DigitsValue(DigitPrefix(t))
  }

  /** The decimal rendering of n, as printf's %d writes it. */
  function Decimal(n: nat): (d: string)
    ensures |d| > 0 && forall i :: 0 <= i < |d| ==> IsDigit(d[i])
  {
    var last := ('0' as int + n % 10) as char;
    if n < 10 then [last] else Decimal(n / 10) + [last]
  }

  lemma {:induction false} DecimalValue(n: nat)
    ensures DigitsValue(Decimal(n)) == n
  {
    var d := Decimal(n);
    if n >= 10 {
      assert d[..|d| - 1] == Decimal(n / 10);
      DecimalValue(n / 10);
    }
  }

  /** atoi reads back a number written in decimal, whatever non-digit follows it. */
  lemma AtoiDecimal(n: nat, rest: string)
    requires rest == [] || !IsDigit(rest[0])
    ensures Atoi(Decimal(n) + rest) == n
  {
    var d := Decimal(n);
    assert (d + rest)[0] == d[0];
    AtoiDigits(d + rest);
    DigitPrefixOf(d, rest);
    DecimalValue(n);
  }

  /** atoi of a string that opens with a digit reads its leading digits. */
  lemma AtoiDigits(s: string)
    requires |s| > 0 && IsDigit(s[0])
    ensures Atoi(s) == DigitsValue(DigitPrefix(s))
  {
    NoSpaces(s);
  }

  /** A string that opens with something other than white space loses nothing. */
  lemma NoSpaces(s: string)
    requires |s| > 0 && !IsSpace(s[0])
    ensures DropSpaces(s) == s
  {
  }

  lemma {:induction false} DigitPrefixOf(d: string, rest: string)
    requires forall i :: 0 <= i < |d| ==> IsDigit(d[i])
    requires rest == [] || !IsDigit(rest[0])
    ensures DigitPrefix(d + rest) == d
  {
    if |d| > 0 {
      assert (d + rest)[1..] == d[1..] + rest;
      DigitPrefixOf(d[1..], rest);
    }
  }
}
