/** Base-10 integer formatting and parsing as Go's strconv package does it:
    FormatInt/Itoa/`%d`, ParseUint, ParseInt(s, 10, 64) and Atoi, including the
    order in which ParseUint reports a syntax error or an overflow. */
module Decimal {
  import opened Wrappers
  import opened GoInt

  predicate IsDigit(c: char) {
    '0' <= c <= '9'
  }

  predicate AllDigits(s: string) {
    forall i :: 0 <= i < |s| ==> IsDigit(s[i])
  }

  function DigitValue(c: char): (d: nat)
    requires IsDigit(c)
    ensures d < 10
  {
    c as int - '0' as int
  }

  function DigitChar(d: nat): (c: char)
    requires d < 10
    ensures IsDigit(c) && DigitValue(c) == d
  {
    ('0' as int + d) as char
  }

  /** Horner evaluation of a digit string, continuing from an accumulated value. */
  function Horner(s: string, acc: int): int
    requires AllDigits(s)
    decreases |s|
  {
    if s == [] then acc else Horner(s[1..], acc * 10 + DigitValue(s[0]))
  }

  /** The value of a string of decimal digits. */
  function DigitsValue(s: string): int
    requires AllDigits(s)
  {
    Horner(s, 0)
  }

  lemma {:induction false} HornerAppend(s: string, c: char, acc: int)
    requires AllDigits(s) && IsDigit(c)
    ensures AllDigits(s + [c])
    ensures Horner(s + [c], acc) == Horner(s, acc) * 10 + DigitValue(c)
  {
    if s != [] {
      assert (s + [c])[1..] == s[1..] + [c];
      HornerAppend(s[1..], c, acc * 10 + DigitValue(s[0]));
    }
  }

  lemma {:induction false} HornerGrows(s: string, acc: int)
    requires AllDigits(s) && acc >= 0
    ensures Horner(s, acc) >= acc
    ensures s != [] ==> Horner(s, acc) >= acc * 10 + DigitValue(s[0])
  {
    if s != [] {
      HornerGrows(s[1..], acc * 10 + DigitValue(s[0]));
    }
  }

  /** The shortest decimal spelling of a natural number. */
  function NatDigits(n: nat): (s: string)
    ensures |s| >= 1 && IsDigit(s[0])
    decreases n
  {
    if n < 10 then [DigitChar(n)] else NatDigits(n / 10) + [DigitChar(n % 10)]
  }

  /** The spelling is digits only, it reads back as the number, and it has no
      leading zero. */
  lemma {:induction false} NatDigitsValue(n: nat)
    ensures AllDigits(NatDigits(n)) && DigitsValue(NatDigits(n)) == n
    ensures NatDigits(n)[0] == '0' ==> n == 0 && NatDigits(n) == "0"
    decreases n
  {
    var s := NatDigits(n);
    if n < 10 {
      assert s == [DigitChar(n)];
      assert s[1..] == [];
      assert Horner(s, 0) == Horner([], n);
    } else {
      var prefix := NatDigits(n / 10);
      NatDigitsValue(n / 10);
      HornerAppend(prefix, DigitChar(n % 10), 0);
      assert s == prefix + [DigitChar(n % 10)];
      assert s[0] == prefix[0];
    }
  }

  /** Go's strconv.Itoa, strconv.FormatInt(n, 10) and fmt's `%d`. */
  function FormatInt(n: int): (s: string)
    ensures |s| >= 1 && (s[0] == '-' <==> n < 0)
  {
    if n < 0 then "-" + NatDigits(-n) else NatDigits(n)
  }

  /** The decimal spelling is an optional minus sign followed by digits: it ends in a
      digit and holds no other character. */
  lemma FormatIntChars(n: int)
    ensures |FormatInt(n)| >= 1 && IsDigit(FormatInt(n)[|FormatInt(n)| - 1])
    ensures forall i :: 0 <= i < |FormatInt(n)| ==> FormatInt(n)[i] == '-' || IsDigit(FormatInt(n)[i])
  {
    var digits := NatDigits(if n < 0 then -n else n);
    NatDigitsValue(if n < 0 then -n else n);
    if n < 0 {
      assert FormatInt(n) == "-" + digits;
      forall i | 0 < i < |FormatInt(n)|
        ensures IsDigit(FormatInt(n)[i])
      {
        assert FormatInt(n)[i] == digits[i - 1];
      }
    }
  }

  datatype NumErrKind = ErrSyntax | ErrRange

  /** Go's (value, error) result of a strconv integer parse; the value is meaningful
      even on error (0 for a syntax error, the clamped bound for an overflow). */
  datatype ParsedInt = ParsedInt(value: int, err: Option<NumErrKind>)

  /** The digit loop of strconv.ParseUint for base 10 and 64 bits: scanning left to
      right, the first non-digit is a syntax error, the first overflow a range error. */
  function ScanUint(s: string, acc: nat): (r: ParsedInt)
    requires acc <= MAX_UINT64
    ensures r.err.None? ==> AllDigits(s) && 0 <= r.value <= MAX_UINT64
    ensures r.err.Some? ==> r == ParsedInt(0, Some(ErrSyntax)) || r == ParsedInt(MAX_UINT64, Some(ErrRange))
    decreases |s|
  {
    if s == [] then ParsedInt(acc, None)
    else if !IsDigit(s[0]) then ParsedInt(0, Some(ErrSyntax))
    else if acc >= MAX_UINT64 / 10 + 1 then ParsedInt(MAX_UINT64, Some(ErrRange))
    else
      var next := acc * 10 + DigitValue(s[0]);
      if next > MAX_UINT64 then ParsedInt(MAX_UINT64, Some(ErrRange))
      else ScanUint(s[1..], next)
  }

  /** strconv.ParseUint(s, 10, 64). */
  function ParseUint(s: string): ParsedInt {
    if s == "" then ParsedInt(0, Some(ErrSyntax)) else ScanUint(s, 0)
  }

  /** strconv.ParseInt(s, 10, 64): an optional sign, then ParseUint, then the int64 range check. */
  function ParseInt(s: string): (r: ParsedInt)
    ensures IsInt64(r.value)
    ensures r.err == Some(ErrSyntax) ==> r.value == 0
    ensures r.err == Some(ErrRange) ==> r.value == MAX_INT64 || r.value == MIN_INT64
  {
    if s == "" then ParsedInt(0, Some(ErrSyntax))
    else
      var neg := s[0] == '-';
      var body := if s[0] == '+' || s[0] == '-' then s[1..] else s;
      var un := ParseUint(body);
      if un.err == Some(ErrSyntax) then ParsedInt(0, Some(ErrSyntax))
      else if !neg && un.value >= 0x8000_0000_0000_0000 then ParsedInt(MAX_INT64, Some(ErrRange))
      else if neg && un.value > 0x8000_0000_0000_0000 then ParsedInt(MIN_INT64, Some(ErrRange))
      else ParsedInt(if neg then -un.value else un.value, None)
  }

  /** strconv.Atoi on a 64-bit platform; its short-input fast path gives the same results as ParseInt. */
  function Atoi(s: string): ParsedInt {
    ParseInt(s)
  }

  /** The text of a strconv error: NumError.Error() quotes the input with strconv.Quote. */
  function NumErrorText(fn: string, input: string, kind: NumErrKind): string {
    "strconv." + fn + ": parsing " + Quote(input) + ": " +
    (if kind == ErrSyntax then "invalid syntax" else "value out of range")
  }

  /** A character strconv.Quote writes as itself: printable ASCII other than the
      quote and the backslash, and any character beyond ASCII. */
  predicate QuotedAsItself(c: char) {
    (' ' <= c <= '~' && c != '"' && c != '\\') || c as int >= 0x80
  }

  /** A digit of strconv's lower-case hexadecimal alphabet "0123456789abcdef". */
  function HexDigit(d: nat): (c: char)
    requires d < 16
  {
    if d < 10 then ('0' as int + d) as char else ('a' as int + d - 10) as char
  }

  /** One character as strconv.Quote writes it between the quotes: the quote and the
      backslash behind a backslash, the seven C escapes by their letter, any other
      ASCII control character as `\xhh`, and everything else as itself. */
  function QuoteChar(c: char): (e: string)
    ensures 1 <= |e| <= 4
    ensures QuotedAsItself(c) <==> e == [c]
  {
    if c == '"' || c == '\\' then ['\\', c]
    else if QuotedAsItself(c) then [c]
    else if c as int == 7 then "\\a"
    else if c as int == 8 then "\\b"
    else if c as int == 12 then "\\f"
    else if c == '\n' then "\\n"
    else if c == '\r' then "\\r"
    else if c == '\t' then "\\t"
    else if c as int == 11 then "\\v"
    else ['\\', 'x', HexDigit(c as int / 16), HexDigit(c as int % 16)]
  }

  function QuoteBody(s: string): string {
    if s == [] then [] else QuoteChar(s[0]) + QuoteBody(s[1..])
  }

  /** strconv.Quote: the text between double quotes with every character escaped as
      QuoteChar says. */
  function Quote(s: string): string {
    "\"" + QuoteBody(s) + "\""
  }

  /** The value of a hexadecimal digit, in either case. */
  function HexValue(c: char): Option<nat> {
    if '0' <= c <= '9' then Some(c as int - '0' as int)
    else if 'a' <= c <= 'f' then Some(c as int - 'a' as int + 10)
    else if 'A' <= c <= 'F' then Some(c as int - 'A' as int + 10)
    else None
  }

  /** The character a one-letter escape `\e` stands for inside a double-quoted Go string. */
  function EscapeValue(e: char): Option<char> {
    match e
    case 'a' => Some(7 as char)
    case 'b' => Some(8 as char)
    case 'f' => Some(12 as char)
    case 'n' => Some('\n')
    case 'r' => Some('\r')
    case 't' => Some('\t')
    case 'v' => Some(11 as char)
    case '\\' => Some('\\')
    case '"' => Some('"')
    case _ => None
  }

  function Prepend(c: char, rest: Option<string>): Option<string> {
    if rest.Some? then Some([c] + rest.value) else None
  }

  /** Reading back the inside of a double-quoted string as strconv.Unquote does, for
      the escapes Quote writes: a bare quote or a dangling or unknown escape fails. */
  function UnquoteBody(t: string): Option<string>
    decreases |t|
  {
    if t == [] then Some([])
    else if t[0] == '"' then None
    else if t[0] != '\\' then Prepend(t[0], UnquoteBody(t[1..]))
    else if |t| < 2 then None
    else if t[1] == 'x' then
      if |t| < 4 || HexValue(t[2]).None? || HexValue(t[3]).None? then None
      else Prepend((HexValue(t[2]).value * 16 + HexValue(t[3]).value) as char, UnquoteBody(t[4..]))
    else match EscapeValue(t[1]) {
      case None => None
      case Some(c) => Prepend(c, UnquoteBody(t[2..]))
    }
  }

  /** strconv.Unquote for a double-quoted string. */
  function Unquote(q: string): Option<string> {
    if |q| < 2 || q[0] != '"' || q[|q| - 1] != '"' then None else UnquoteBody(q[1..|q| - 1])
  }

  lemma HexRoundTrip(d: nat)
    requires d < 16
    ensures HexValue(HexDigit(d)) == Some(d)
  {
  }

  /** Reading back one quoted character gives that character, whatever follows. */
  lemma UnquoteQuoteChar(c: char, rest: string)
    ensures UnquoteBody(QuoteChar(c) + rest) == Prepend(c, UnquoteBody(rest))
  {
    var t := QuoteChar(c) + rest;
    if QuotedAsItself(c) {
      assert t[1..] == rest;
    } else if t[1] == 'x' {
      var n := c as int;
      HexRoundTrip(n / 16);
      HexRoundTrip(n % 16);
      assert t[4..] == rest;
    } else {
      assert t[2..] == rest;
    }
  }

  /** Round trip: Unquote reads every quoted string back to the original text, so the
      quoted input in an error message names the input exactly. */
  lemma {:induction false} UnquoteQuote(s: string)
    ensures UnquoteBody(QuoteBody(s)) == Some(s)
    ensures Unquote(Quote(s)) == Some(s)
  {
    if s != [] {
      UnquoteQuote(s[1..]);
      UnquoteQuoteChar(s[0], QuoteBody(s[1..]));
      assert [s[0]] + s[1..] == s;
    }
    var q := Quote(s);
    assert q[1..|q| - 1] == QuoteBody(s);
  }

  /** Text made of characters Quote writes as themselves comes out between plain quotes. */
  lemma {:induction false} QuotePlain(s: string)
    requires forall i :: 0 <= i < |s| ==> QuotedAsItself(s[i])
    ensures Quote(s) == "\"" + s + "\""
    ensures QuoteBody(s) == s
  {
    if s != [] {
      QuotePlain(s[1..]);
      assert [s[0]] + s[1..] == s;
    }
  }

  /** The scan yields the Horner value whenever that value fits in 64 bits, and
      reports an overflow otherwise. */
  lemma {:induction false} ScanUintDigits(s: string, acc: nat)
    requires AllDigits(s) && acc <= MAX_UINT64
    ensures Horner(s, acc) <= MAX_UINT64 ==> ScanUint(s, acc) == ParsedInt(Horner(s, acc), None)
    ensures Horner(s, acc) > MAX_UINT64 ==> ScanUint(s, acc) == ParsedInt(MAX_UINT64, Some(ErrRange))
    decreases |s|
  {
    if s != [] {
      var next := acc * 10 + DigitValue(s[0]);
      HornerGrows(s, acc);
      if acc >= MAX_UINT64 / 10 + 1 {
      } else if next > MAX_UINT64 {
      } else {
        ScanUintDigits(s[1..], next);
      }
    }
  }

  /** ParseInt on a non-empty digit string is its value, clamped to int64 with a range error. */
  lemma ParseIntDigits(s: string)
    requires s != [] && AllDigits(s)
    ensures DigitsValue(s) <= MAX_INT64 ==> ParseInt(s) == ParsedInt(DigitsValue(s), None)
    ensures DigitsValue(s) > MAX_INT64 ==> ParseInt(s) == ParsedInt(MAX_INT64, Some(ErrRange))
  {
    ScanUintDigits(s, 0);
    HornerGrows(s, 0);
  }

  /** Round trip: parsing the decimal spelling of any int64 gives that int64 back. */
  lemma ParseIntFormatInt(n: int)
    requires IsInt64(n)
    ensures ParseInt(FormatInt(n)) == ParsedInt(n, None)
  {
    if n < 0 {
      var digits := NatDigits(-n);
      assert FormatInt(n)[1..] == digits;
      NatDigitsValue(-n);
      ScanUintDigits(digits, 0);
    } else {
      NatDigitsValue(n);
      ScanUintDigits(NatDigits(n), 0);
    }
  }

  /** s is an optional sign followed by digits whose value is an int64. */
  ghost predicate SignedInt64(s: string, sign: string, digits: string) {
    s == sign + digits && (sign == "" || sign == "+" || sign == "-") && digits != "" && AllDigits(digits) &&
    IsInt64(if sign == "-" then -DigitsValue(digits) else DigitsValue(digits))
  }

  /** The sign ParseInt strips: the first character when it is '+' or '-'. */
  function SignOf(s: string): (sign: string)
    ensures |sign| <= |s| && s == sign + s[|sign|..]
    ensures sign == "" || sign == "+" || sign == "-"
  {
    if s != "" && (s[0] == '+' || s[0] == '-') then s[..1] else ""
  }

  /** A digit string has no sign, so the split into sign and digits is unique. */
  lemma SignedInt64Split(s: string, sign: string, digits: string)
    requires SignedInt64(s, sign, digits)
    ensures sign == SignOf(s) && digits == s[|sign|..]
  {
    if sign == "" {
      assert s[0] == digits[0];
    } else {
      assert s[0] == sign[0];
    }
  }

  /** When ParseInt succeeds, its input splits into a sign and the digits of an int64. */
  lemma ParseIntAccepts(s: string)
    requires ParseInt(s).err.None?
    ensures SignedInt64(s, SignOf(s), s[|SignOf(s)|..])
  {
    var sign := SignOf(s);
    var body := s[|sign|..];
    assert body == if s[0] == '+' || s[0] == '-' then s[1..] else s;
    ScanUintDigits(body, 0);
  }

  /** ParseInt succeeds on a sign followed by the digits of an int64. */
  lemma ParseIntSigned(s: string, sign: string, digits: string)
    requires SignedInt64(s, sign, digits)
    ensures ParseInt(s).err.None?
  {
    SignedInt64Split(s, sign, digits);
    assert digits == if s[0] == '+' || s[0] == '-' then s[1..] else s;
    ScanUintDigits(digits, 0);
  }

  /** ParseInt succeeds exactly on an optional sign followed by digits whose value is an int64. */
  lemma ParseIntSucceeds(s: string)
    ensures ParseInt(s).err.None? <==> exists sign: string, digits: string :: SignedInt64(s, sign, digits)
  {
    if ParseInt(s).err.None? {
      ParseIntAccepts(s);
    } else if exists sign: string, digits: string :: SignedInt64(s, sign, digits) {
      var sign, digits :| SignedInt64(s, sign, digits);
      ParseIntSigned(s, sign, digits);
    }
  }
}
