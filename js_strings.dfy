/**
 * The few JavaScript string primitives the registration form relies on:
 * the `\s` character class, `String.prototype.trim`, `replace(/\s/g, '')`
 * and the global `parseInt` with no radix argument.
 */
module JsStrings {
  import opened Wrappers

  /** ECMAScript WhiteSpace or LineTerminator (the Zs category as of Unicode 15).
      This is the set `\s` matches and `trim` removes. */
  predicate IsSpace(c: char) {
    || c == '\t' || c == '\n' || c == '\U{B}' || c == '\U{C}' || c == '\r' || c == ' '
    || c == '\U{A0}' || c == '\U{1680}' || ('\U{2000}' <= c <= '\U{200A}')
    || c == '\U{2028}' || c == '\U{2029}' || c == '\U{202F}' || c == '\U{205F}'
    || c == '\U{3000}' || c == '\U{FEFF}'
  }

  /** `\d` without the `u` flag. */
  predicate IsDigit(c: char) {
    '0' <= c <= '9'
  }

  predicate Blank(s: string) {
    forall i | 0 <= i < |s| :: IsSpace(s[i])
  }

  predicate NoSpace(s: string) {
    forall i | 0 <= i < |s| :: !IsSpace(s[i])
  }

  /** Drops leading whitespace: the result is the suffix of `s` that starts at
      its first non-space character. */
  function TrimStart(s: string): (r: string)
    ensures |r| <= |s| && r == s[|s| - |r|..]
    ensures Blank(s[..|s| - |r|])
    ensures r == [] || !IsSpace(r[0])
  {
    if s != [] && IsSpace(s[0]) then TrimStart(s[1..]) else s
  }

  /** Drops trailing whitespace: the result is the prefix of `s` that ends at
      its last non-space character. */
  function TrimEnd(s: string): (r: string)
    ensures |r| <= |s| && r == s[..|r|]
    ensures Blank(s[|r|..])
    ensures r == [] || !IsSpace(r[|r| - 1])
  {
    if s != [] && IsSpace(s[|s| - 1]) then TrimEnd(s[..|s| - 1]) else s
  }

  /** `s.trim()` */
  function Trim(s: string): string {
    TrimEnd(TrimStart(s))
  }

  /** A string is falsy after `trim()` exactly when it holds only whitespace. */
  lemma TrimEmptyIffBlank(s: string)
    ensures Trim(s) == [] <==> Blank(s)
  {
    var t := TrimStart(s);
    if Trim(s) == [] {
      assert s[..|s|] == s;
    } else {
      var r := Trim(s);
      assert r[0] == t[0] == s[|s| - |t|];
    }
  }

  /** `s.replace(/\s/g, '')`: keeps the non-space characters of `s`, in order. */
  function StripSpaces(s: string): (r: string)
    ensures |r| <= |s|
    ensures NoSpace(r)
  {
    if s == [] then [] else (if IsSpace(s[0]) then [] else [s[0]]) + StripSpaces(s[1..])
  }

  /** Every non-space character is kept as often as it occurs. */
  lemma {:induction false} StripSpacesKeeps(s: string)
    ensures forall c | !IsSpace(c) :: multiset(StripSpaces(s))[c] == multiset(s)[c]
  {
    if s != [] {
      StripSpacesKeeps(s[1..]);
      assert s == [s[0]] + s[1..];
    }
  }

  /** Stripping distributes over concatenation, so the order of the kept
      characters is the order in `s`. */
  lemma {:induction false} StripSpacesAppend(a: string, b: string)
    ensures StripSpaces(a + b) == StripSpaces(a) + StripSpaces(b)
  {
    if a == [] {
      assert a + b == b;
    } else {
      var head := if IsSpace(a[0]) then [] else [a[0]];
      assert (a + b)[0] == a[0];
      assert (a + b)[1..] == a[1..] + b;
      StripSpacesAppend(a[1..], b);
      calc {
        StripSpaces(a + b);
        head + StripSpaces(a[1..] + b);
        head + (StripSpaces(a[1..]) + StripSpaces(b));
        (head + StripSpaces(a[1..])) + StripSpaces(b);
      }
    }
  }

  /** A string without whitespace is left as it is. */
  lemma {:induction false} StripSpacesNoSpace(s: string)
    requires NoSpace(s)
    ensures StripSpaces(s) == s
  {
    if s != [] {
      StripSpacesNoSpace(s[1..]);
    }
  }

  /** The value of a character as a digit in radix 10 (`hex` false) or 16 (`hex` true). */
  function DigitValue(c: char, hex: bool): (v: Option<nat>)
    ensures v.Some? ==> v.value < Radix(hex)
    ensures !hex ==> (v.Some? <==> IsDigit(c))
  {
    if '0' <= c <= '9' then Some(c as int - '0' as int)
    else if hex && 'a' <= c <= 'f' then Some(c as int - 'a' as int + 10)
    else if hex && 'A' <= c <= 'F' then Some(c as int - 'A' as int + 10)
    else None
  }

  function Radix(hex: bool): nat {
    if hex then 16 else 10
  }

  predicate AllDigitsIn(s: string, hex: bool) {
    forall i | 0 <= i < |s| :: DigitValue(s[i], hex).Some?
  }

  /** Reads the longest run of radix digits at the head of `s`, most
      significant first, on top of the value `acc` read so far. */
  function DigitRun(s: string, hex: bool, acc: nat): nat {
    if s == [] then acc
    else
      match DigitValue(s[0], hex)
      case None => acc
      case Some(v) => DigitRun(s[1..], hex, acc * Radix(hex) + v)
  }

  /** `parseInt(s)` with no radix argument; `None` is `NaN`.
      Leading whitespace is skipped, one sign is read, a `0x`/`0X` prefix
      switches to radix 16, and the longest run of digits is converted; anything
      after it is ignored. A negative zero is the integer 0. */
  function ParseInt(s: string): Option<int> {
    var t := TrimStart(s);
    var negative := |t| > 0 && t[0] == '-';
    var u := if |t| > 0 && (t[0] == '-' || t[0] == '+') then t[1..] else t;
    var hex := |u| >= 2 && u[0] == '0' && (u[1] == 'x' || u[1] == 'X');
    var body := if hex then u[2..] else u;
    if body == [] || DigitValue(body[0], hex).None? then None
    else
      var m: int := DigitRun(body, hex, 0);
      Some(if negative then -m else m)
  }

  /** `n.toString()` for a non-negative integer. */
  function DecimalString(n: nat): (r: string)
    ensures |r| > 0 && forall i | 0 <= i < |r| :: IsDigit(r[i])
    ensures r[0] == '0' ==> n == 0 && |r| == 1
  {
    var last := ['0' + (n % 10) as char];
    if n < 10 then last else DecimalString(n / 10) + last
  }

  /** A run of digits followed by more text is read in two steps. */
  lemma {:induction false} DigitRunAppend(x: string, y: string, hex: bool, acc: nat)
    requires AllDigitsIn(x, hex)
    ensures DigitRun(x + y, hex, acc) == DigitRun(y, hex, DigitRun(x, hex, acc))
  {
    if x != [] {
      assert (x + y)[0] == x[0];
      assert (x + y)[1..] == x[1..] + y;
      DigitRunAppend(x[1..], y, hex, acc * Radix(hex) + DigitValue(x[0], hex).value);
    } else {
      assert x + y == y;
    }
  }

  lemma {:induction false} DigitRunDecimal(n: nat)
    ensures AllDigitsIn(DecimalString(n), false)
    ensures DigitRun(DecimalString(n), false, 0) == n
  {
    var r := DecimalString(n);
    var last := ['0' + (n % 10) as char];
    if n >= 10 {
      DigitRunDecimal(n / 10);
      DigitRunAppend(DecimalString(n / 10), last, false, 0);
      assert last[1..] == [];
    }
  }

  /** A plain decimal numeral without a leading zero parses to the value of its digits. */
  lemma ParseIntOfNumeral(r: string)
    requires |r| > 0 && forall i | 0 <= i < |r| :: IsDigit(r[i])
    requires r[0] == '0' ==> |r| == 1
    ensures ParseInt(r) == Some(DigitRun(r, false, 0))
  {
    assert !IsSpace(r[0]);
    assert TrimStart(r) == r;
  }

  /** `parseInt` reads back what `toString` writes: the two are inverse on the naturals. */
  lemma ParseIntDecimal(n: nat)
    ensures ParseInt(DecimalString(n)) == Some(n)
  {
    DigitRunDecimal(n);
    ParseIntOfNumeral(DecimalString(n));
  }
}
