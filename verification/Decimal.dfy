/** Decimal numbers in text: std::stoi and its relatives, and the printers. */
module Decimal {
  import opened Results

  const INT_MIN := -0x8000_0000
  const INT_MAX := 0x7fff_ffff

  predicate IsDigit(c: char) {
    '0' <= c <= '9'
  }

  ghost predicate AllDigits(s: string) {
    forall k :: 0 <= k < |s| ==> IsDigit(s[k])
  }

  function DigitChar(d: int): (c: char)
    requires 0 <= d < 10
    ensures IsDigit(c) && c as int - '0' as int == d
  {
    (d + '0' as int) as char
  }

  // The number a run of digits denotes.
  function DigitsValue(s: string): (n: nat)
    requires AllDigits(s)
  {
    if s == "" then 0
    else 10 * DigitsValue(s[..|s| - 1]) + (s[|s| - 1] as int - '0' as int)
  }

  // Length of the longest run of digits at the front.
  function DigitRun(s: string): (k: nat)
    ensures k <= |s| && AllDigits(s[..k])
    ensures k < |s| ==> !IsDigit(s[k])
  {
    if s != "" && IsDigit(s[0]) then
      var k := DigitRun(s[1..]);
      assert s[..k + 1] == [s[0]] + s[1..][..k];
      k + 1
    else 0
  }

  predicate IsSpace(c: char) {
    c == ' ' || '\t' as int <= c as int <= '\r' as int
  }

  function SkipSpace(s: string): string {
    if s != "" && IsSpace(s[0]) then SkipSpace(s[1..]) else s
  }

  /** The std::sto* family: leading white space, an optional sign, then as many
      digits as there are; what follows them is ignored. */
  function ReadNumber(s: string, lo: int, hi: int): Result<int> {
    var t := SkipSpace(s);
    var signed := t != "" && (t[0] == '-' || t[0] == '+');
    var u := if signed then t[1..] else t;
    var k := DigitRun(u);
    if k == 0 then Err(InvalidArgument)
    else
      var n: int := DigitsValue(u[..k]);
      var v := if signed && t[0] == '-' then -n else n;
      if lo <= v <= hi then Ok(v) else Err(OutOfRange)
  }

  /** std::stoi. */
  function Stoi(s: string): Result<int> {
    ReadNumber(s, INT_MIN, INT_MAX)
  }

  lemma DigitRunIs(d: string, tail: string)
    requires AllDigits(d) && (tail == "" || !IsDigit(tail[0]))
    ensures DigitRun(d + tail) == |d| && (d + tail)[..|d|] == d
  {
  }

  /** A run of digits reads as its value, whatever non-digit follows. */
  lemma ReadDigits(d: string, tail: string, lo: int, hi: int)
    requires d != "" && AllDigits(d) && (tail == "" || !IsDigit(tail[0]))
    ensures ReadNumber(d + tail, lo, hi)
         == if lo <= DigitsValue(d) <= hi then Ok(DigitsValue(d)) else Err(OutOfRange)
  {
    assert (d + tail)[0] == d[0];
    DigitRunIs(d, tail);
  }

  lemma {:induction false} SpacesAreSkipped(spaces: string, s: string)
    requires forall c :: c in spaces ==> c in " \t\r\n"
    requires s == "" || !IsSpace(s[0])
    ensures SkipSpace(spaces + s) == s
  {
    if spaces == "" {
      assert spaces + s == s;
    } else {
      assert spaces[0] in spaces && (spaces + s)[1..] == spaces[1..] + s;
      SpacesAreSkipped(spaces[1..], s);
    }
  }

  /** Blanks in front are skipped and either sign is read; what follows the digits is
      ignored, and a number outside the bounds throws. */
  lemma SignedNumberReads(spaces: string, sign: string, d: string, tail: string, lo: int, hi: int)
    requires forall c :: c in spaces ==> c in " \t\r\n"
    requires sign == "" || sign == "+" || sign == "-"
    requires d != "" && AllDigits(d) && (tail == "" || !IsDigit(tail[0]))
    ensures var v: int := DigitsValue(d);
            var n := if sign == "-" then -v else v;
            ReadNumber(spaces + (sign + (d + tail)), lo, hi) == if lo <= n <= hi then Ok(n) else Err(OutOfRange)
  {
    hide DigitsValue, DigitRun;
    var u := d + tail;
    var t := sign + u;
    assert u[0] == d[0] && IsDigit(d[0]);
    assert sign == "" ==> t == u;
    assert sign != "" ==> t[0] == sign[0] && t[1..] == u;
    SpacesAreSkipped(spaces, t);
    DigitRunIs(d, tail);
  }

  /** Without a digit where the number should start there is none. */
  lemma NoDigitNoNumber(spaces: string, sign: string, rest: string, lo: int, hi: int)
    requires forall c :: c in spaces ==> c in " \t\r\n"
    requires sign == "+" || sign == "-" || (sign == "" && (rest == "" || !(IsSpace(rest[0]) || rest[0] in "+-")))
    requires rest == "" || !IsDigit(rest[0])
    ensures ReadNumber(spaces + (sign + rest), lo, hi) == Err(InvalidArgument)
  {
    var t := sign + rest;
    assert sign == "" ==> t == rest;
    assert sign != "" ==> t[0] == sign[0] && t[1..] == rest;
    SpacesAreSkipped(spaces, t);
  }

  lemma {:induction false} FewDigitsAreSmall(d: string)
    requires AllDigits(d)
    ensures DigitsValue(d) < Power10(|d|)
  {
    if d != "" {
      FewDigitsAreSmall(d[..|d| - 1]);
    }
  }

  lemma {:induction false} SkipSpaceIsShorter(s: string)
    ensures |SkipSpace(s)| <= |s|
  {
    if s != "" && IsSpace(s[0]) {
      SkipSpaceIsShorter(s[1..]);
    }
  }

  // A number read from two characters.
  lemma PairIsSmall(s: string)
    requires |s| == 2
    ensures Stoi(s).Ok? ==> -10 < Stoi(s).value < 100
  {
    hide DigitsValue, SkipSpace;
    SkipSpaceIsShorter(s);
    var t := SkipSpace(s);
    var u := if t != "" && (t[0] == '-' || t[0] == '+') then t[1..] else t;
    var k := DigitRun(u);
    FewDigitsAreSmall(u[..k]);
    assert Power10(0) == 1 && Power10(1) == 10 && Power10(2) == 100;
    assert k == 0 || k == 1 || k == 2;
  }

  lemma DigitsAreNatural(d: string)
    requires d != "" && AllDigits(d)
    ensures Stoi(d).Ok? ==> Stoi(d).value >= 0
  {
  }

  // n in at least one digit, without leading zeros.
  function Print(n: nat): (s: string)
    ensures s != "" && AllDigits(s) && DigitsValue(s) == n
  {
    if n < 10 then [DigitChar(n)]
    else
      var p := Print(n / 10);
      var s := p + [DigitChar(n % 10)];
      assert s[..|s| - 1] == p;
      s
  }

  function PrintInt(n: int): string {
    if n < 0 then "-" + Print(-n) else Print(n)
  }

  lemma ReadPrinted(n: int, lo: int, hi: int)
    requires lo <= n <= hi
    ensures ReadNumber(PrintInt(n), lo, hi) == Ok(n)
  {
    if n < 0 {
      var t := PrintInt(n);
      var d := Print(-n);
      assert t[1..] == d && d + "" == d;
      DigitRunIs(d, "");
    } else {
      assert Print(n) + "" == Print(n);
      ReadDigits(Print(n), "", lo, hi);
    }
  }

  function Power10(w: nat): (p: nat)
    ensures p >= 1
  {
    if w == 0 then 1 else 10 * Power10(w - 1)
  }

  // The last w digits of n.
  function Pad(n: nat, w: nat): (s: string)
    ensures |s| == w && AllDigits(s)
    ensures n < Power10(w) ==> DigitsValue(s) == n
    decreases w
  {
    if w == 0 then ""
    else
      var p := Pad(n / 10, w - 1);
      var s := p + [DigitChar(n % 10)];
      assert s[..|s| - 1] == p;
      s
  }

  /** A padded field reads back as its number. */
  lemma StoiPad(n: nat, w: nat)
    requires 0 < w && n < Power10(w) && n <= INT_MAX
    ensures Stoi(Pad(n, w)) == Ok(n)
  {
    assert Pad(n, w) + "" == Pad(n, w);
    ReadDigits(Pad(n, w), "", INT_MIN, INT_MAX);
  }

  /** Printing is padding to the number's own width. */
  lemma {:induction false} PrintIsPad(n: nat, w: nat)
    requires w >= 1 && n < Power10(w) && (w == 1 || Power10(w - 1) <= n)
    ensures Print(n) == Pad(n, w)
    decreases w
  {
    if w == 1 {
      assert Pad(n / 10, 0) == "";
    } else {
      assert Power10(w - 1) >= 10 by { assert w >= 2 && Power10(w - 2) >= 1; }
      PrintIsPad(n / 10, w - 1);
    }
  }
}
