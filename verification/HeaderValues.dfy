/** Which value the parser takes from a header line, against the value that section 3.2 of RFC 7230 means: texts with
    optional white space around them, and lengths in decimal. */
module HeaderValues {
  import opened Common
  import opened HttpParser
  import opened HttpMessages

  // ------------------------------------------------------------------ optional white space

  /** The white space of section 3.2.3 of RFC 7230. */
  predicate IsBlank(c: char) { c == ' ' || c == '\t' }

  function TrimLeft(s: string): (t: string)
    ensures |t| <= |s| && t == s[|s| - |t|..] && (t != "" ==> !IsBlank(t[0]))
  {
    if s != "" && IsBlank(s[0]) then TrimLeft(s[1..]) else s
  }

  function TrimRight(s: string): (t: string)
    ensures |t| <= |s| && t == s[..|t|] && (t != "" ==> !IsBlank(t[|t| - 1]))
  {
    if s != "" && IsBlank(s[|s| - 1]) then TrimRight(s[..|s| - 1]) else s
  }

  /** The value that section 3.2 of RFC 7230 means: what stands behind the colon, without the blanks around it. */
  function Trim(s: string): string { TrimRight(TrimLeft(s)) }

  lemma {:induction false} ShiftIsConstant(s: string, k: nat)
    requires k < |s| && s[1..] == s[..|s| - 1]
    ensures s[k] == s[0]
  {
    if k > 0 {
      ShiftIsConstant(s, k - 1);
      assert s[1..][k - 1] == s[..|s| - 1][k - 1];
    }
  }

  /** Exactly when the parser takes the value that is meant: there is one blank behind the colon and the rest has none
      around it.  `spill` is never empty: it starts with the line feed. */
  lemma TakenIsTrimmedIff(rest: string, spill: string)
    requires spill != "" && spill[0] == LF
    ensures Taken(rest, spill) == Trim(rest) <==> rest != "" && IsBlank(rest[0]) && Trim(rest[1..]) == rest[1..]
  {
    if rest != "" && !IsBlank(rest[0]) && rest[1..] == Trim(rest) {
      assert rest[1..] == TrimRight(rest) == rest[..|rest| - 1];
      ShiftIsConstant(rest, |rest| - 1);
    }
  }

  /** The text field that get_header fills for a header name in lower case. */
  function TextField(f: Fields, name: string): Option<string> {
    if name == "accept" then f.reqAccept
    else if name == "from" then f.reqFrom
    else if name == "host" then f.reqHost
    else if name == "content-type" then f.reqContentType
    else None
  }

  /** The line `name:rest` of a message stands at lo, behind its start line, and its line feed at nl. */
  predicate FieldLine(b: seq<char>, lo: nat, nl: nat, name: string, rest: string) {
    && Terminated(b) && 0 < lo && nl == lo + |name| + |rest| + 2 < |b| - 1
    && Clean(name) && Without(name, ':') && Clean(rest) && At(b, lo, HeaderText(Field(name, rest)) + CRLF)
  }

  /** Any such text in the buffer is such a line. */
  lemma FieldLineFits(b: seq<char>, lo: nat, name: string, rest: string)
    requires Terminated(b) && 0 < lo && Clean(name) && Without(name, ':') && Clean(rest)
    requires At(b, lo, HeaderText(Field(name, rest)) + CRLF)
    ensures FieldLine(b, lo, lo + |name| + |rest| + 2, name, rest)
  {
    hide At, Clean, Without;
    EndedLine(b, lo, HeaderText(Field(name, rest)));
  }

  lemma FieldLineEffect(b: seq<char>, lo: nat, nl: nat, name: string, rest: string, f: Fields, kind: Kind)
    requires FieldLine(b, lo, nl, name, rest)
    ensures CString(b, nl) != "" && CString(b, nl)[0] == LF
    ensures var r := Line(b, nl, lo, f, kind);
            && (r.status, r.fields) == SetHeader(f, Lower(name), Taken(rest, CString(b, nl)))
            && r.buffer[nl + 1..] == b[nl + 1..]
  {
    hide At, Clean, Without, Terminated, Line, StrEnd, Lower, SetHeader, CString;
    ValidField(name, rest);
    HeaderLineEffect(b, lo, Field(name, rest), f, kind);
    LineFeedFirst(b, lo, HeaderText(Field(name, rest)));
  }

  /** One line `name:rest` of a message, with any bytes behind the colon: the parse goes on behind the line undisturbed,
      and a text field holds the value that is meant if and only if exactly one blank follows the colon and none ends
      the line.  Without any byte behind the colon it holds the text from the line's own line feed on. */
  lemma ValueIsTrimmedIff(b: seq<char>, lo: nat, nl: nat, name: string, rest: string, f: Fields, kind: Kind)
    requires FieldLine(b, lo, nl, name, rest) && Lower(name) in {"accept", "from", "host", "content-type"}
    ensures var r := Line(b, nl, lo, f, kind);
            && r.status == OK && r.buffer[nl + 1..] == b[nl + 1..]
            && (TextField(r.fields, Lower(name)) == Some(Trim(rest)) <==>
                  rest != "" && IsBlank(rest[0]) && Trim(rest[1..]) == rest[1..])
            && (rest == "" ==> TextField(r.fields, Lower(name)) == Some(CString(b, nl)) && CString(b, nl)[..1] == [LF])
  {
    hide At, Clean, Without, Line, CString, Lower, Trim, HeaderText;
    FieldLineEffect(b, lo, nl, name, rest, f, kind);
    TakenIsTrimmedIff(rest, CString(b, nl));
  }

  lemma LineFeedFirst(b: seq<char>, lo: nat, line: string)
    requires Terminated(b) && At(b, lo, line + CRLF)
    ensures var nl := lo + |line| + 1; nl + 1 < |b| && CString(b, nl) != "" && CString(b, nl)[0] == LF
  {
    hide At;
    EndedLine(b, lo, line);
    AtSplit(b, lo, line, CRLF);
    AtIndex(b, lo + |line|, CRLF, 1);
  }

  // ------------------------------------------------------------------ canonical decimals

  function Digit(d: nat): char
    requires d < 16
  {
    if d < 10 then '0' + d as char else 'a' + (d - 10) as char
  }

  /** A number in a base from 2 to 16, without leading zeros. */
  function Digits(n: nat, base: nat): (s: string)
    requires 2 <= base <= 16
  {
    if n < base then [Digit(n)] else Digits(n / base, base) + [Digit(n % base)]
  }

  function Decimal(n: nat): string { Digits(n, 10) }

  lemma DigitIs(d: nat)
    requires d < 16
    ensures var c := Digit(d);
            && DigitValue(c) == d && (c == '0' <==> d == 0) && (d < 10 ==> '0' <= c <= '9')
            && c !in {'-', '+', 'x', 'X'} && !IsSpace(c)
  {
  }

  lemma ValueAppend(s: string, c: char, base: nat)
    ensures Value(s + [c], base) == Value(s, base) * base + DigitValue(c)
  {
    assert (s + [c])[..|s|] == s;
  }

  predicate DigitsOf(s: string, base: nat) {
    forall k :: 0 <= k < |s| ==> DigitValue(s[k]) < base && s[k] !in {'-', '+', 'x', 'X'} && !IsSpace(s[k])
  }

  /** The digits of a number are worth that number. */
  lemma {:induction false} DigitsValue(n: nat, base: nat)
    requires 2 <= base <= 16
    ensures var s := Digits(n, base);
            && s != "" && Value(s, base) == n && (n > 0 ==> s[0] != '0') && (n == 0 ==> s == "0") && DigitsOf(s, base)
  {
    hide Value, DigitValue, Digit, IsSpace, Digits;
    if n >= base {
      Quotient(n, base);
      var q, r := n / base, n % base;
      DigitsValue(q, base);
      DigitIs(r);
      ValueAppend(Digits(q, base), Digit(r), base);
      DigitsUnfold(n, base);
    } else {
      DigitsUnfold(n, base);
      DigitIs(n);
      OneDigit(Digit(n), base);
    }
  }

  lemma DigitsUnfold(n: nat, base: nat)
    requires 2 <= base <= 16
    ensures n < base ==> Digits(n, base) == [Digit(n)]
    ensures n >= base ==> n / base >= 0 && Digits(n, base) == Digits(n / base, base) + [Digit(n % base)]
  {
    hide Digit;
  }

  lemma OneDigit(c: char, base: nat)
    ensures Value([c], base) == DigitValue(c)
  {
    assert [c][..0] == "";
  }

  lemma Quotient(n: nat, base: nat)
    requires 2 <= base <= n
    ensures 0 < n / base < n && 0 <= n % base < base && (n / base) * base + n % base == n
  {
  }

  lemma DecimalValue(n: nat)
    ensures var s := Decimal(n);
            && s != "" && Value(s, 10) == n && (n > 0 ==> s[0] != '0') && (n == 0 ==> s == "0")
            && forall k :: 0 <= k < |s| ==> '0' <= s[k] <= '9'
  {
    hide Digits, Value;
    DigitsValue(n, 10);
  }

  /** Decimal digits that do not start with an octal zero: strtol reads all of them in base 10. */
  lemma DecimalLong(s: string, v: nat)
    requires s != "" && (forall k :: 0 <= k < |s| ==> '0' <= s[k] <= '9') && s[0] != '0' && Value(s, 10) == v
    ensures StrToL(s) == if v <= LONG_MAX then Long(v, |s|, false) else Long(LONG_MAX, |s|, true)
  {
    hide Value;
    assert DigitsEnd(s, 0, 10) == |s| && s[0..|s|] == s;
  }

  lemma ZeroLong()
    ensures StrToL("0") == Long(0, 1, false)
  {
    var s := "0";
    assert s[..0] == "" && s[0..1] == s;
    assert Value(s, 8) == 0;
    assert DigitsEnd(s, 0, 8) == 1;
  }

  /** str_to_int recovers a canonical decimal exactly when it fits an int: beyond that it wraps around, and beyond
      the long of strtol it fails. */
  lemma DecimalRecoveredIff(n: nat)
    ensures StrToInt(Decimal(n)) == (OK, n) <==> n < 0x8000_0000
    ensures StrToInt(Decimal(n)).0 == OK <==> n < 0x8000_0000_0000_0000
  {
    hide StrToL, Value, Decimal;
    DecimalValue(n);
    if n == 0 {
      ZeroLong();
    } else {
      DecimalLong(Decimal(n), n);
    }
  }

  // ------------------------------------------------------------------ all that strtol reads

  /** How the base of a number is announced. */
  function Prefix(base: nat): string { if base == 16 then "0x" else if base == 8 then "0" else "" }

  /** A number as strtol reads it: white space, a sign, the base, the digits. */
  function Numeral(blanks: string, sign: string, n: nat, base: nat): string
    requires 2 <= base <= 16
  {
    blanks + (sign + (Prefix(base) + Digits(n, base)))
  }

  predicate Spaces(s: string) { forall k :: 0 <= k < |s| ==> IsSpace(s[k]) }

  /** What follows a numeral without belonging to it. */
  predicate StopsDigits(rest: string, n: nat, base: nat) {
    rest != "" ==> DigitValue(rest[0]) >= base && (base == 10 && n == 0 ==> rest[0] != 'x' && rest[0] != 'X')
  }

  lemma Signed(s: string, i: nat, sign: string, t: string)
    requires i <= |s| && s[i..] == sign + t && sign in {"", "+", "-"}
    requires t != "" ==> t[0] !in {'+', '-'}
    ensures var j := if i < |s| && (s[i] == '-' || s[i] == '+') then i + 1 else i;
            j == i + |sign| && s[j..] == t
    ensures t != "" ==> i < |s| && (s[i] == '-' <==> sign == "-")
  {
    assert |s| == i + |sign| + |t|;
    assert sign + t != "" ==> s[i] == s[i..][0] == (sign + t)[0];
    assert s[i + |sign|..] == s[i..][|sign|..] == t;
  }

  /** Where strtol starts, with which sign, and what is left. */
  lemma NumeralStart(blanks: string, sign: string, t: string)
    requires Spaces(blanks) && sign in {"", "+", "-"} && t != "" && !IsSpace(t[0]) && t[0] !in {'+', '-'}
    ensures var s, i := blanks + (sign + t), |blanks|;
            && SpaceEnd(s, 0) == i < |s| && (s[i] == '-' <==> sign == "-")
            && s[if s[i] == '-' || s[i] == '+' then i + 1 else i..] == t
            && (if s[i] == '-' || s[i] == '+' then i + 1 else i) == i + |sign|
  {
    hide SpaceEnd;
    var s, i := blanks + (sign + t), |blanks|;
    assert s[i..] == sign + t;
    Signed(s, i, sign, t);
    assert s[i] == (sign + t)[0];
    SpacesEnd(s, i);
  }

  lemma SpacesEnd(s: string, i: nat)
    requires i < |s| && (forall k :: 0 <= k < i ==> IsSpace(s[k])) && !IsSpace(s[i])
    ensures SpaceEnd(s, 0) == i
  {
  }

  /** The digits of a numeral, its base announced in front of them. */
  lemma BaseAndDigits(t: string, n: nat, base: nat, rest: string)
    requires base in {8, 10, 16} && StopsDigits(rest, n, base) && t == Prefix(base) + (Digits(n, base) + rest)
    ensures |t| > 0 && !IsSpace(t[0]) && t[0] !in {'+', '-'}
    ensures Hexadecimal(t, 0) <==> base == 16
    ensures base == 8 ==> t[0] == '0'
    ensures base == 10 ==> (t[0] == '0' <==> n == 0)
  {
    hide Digits, Value;
    DigitsValue(n, base);
    var d := Digits(n, base);
    assert forall k :: 0 <= k < |d| ==> t[|Prefix(base)| + k] == d[k];
    assert |rest| > 0 ==> t[|Prefix(base)| + |d|] == rest[0];
  }

  /** The digits in s from `first` on. */
  lemma ReadDigits(s: string, first: nat, d: string, rest: string, base: nat)
    requires first <= |s| && s[first..] == d + rest && (forall k :: 0 <= k < |d| ==> DigitValue(d[k]) < base)
    requires rest != "" ==> DigitValue(rest[0]) >= base
    ensures DigitsEnd(s, first, base) == first + |d| && s[first..first + |d|] == d
  {
    var e := DigitsEnd(s, first, base);
    assert forall k :: first <= k < |s| ==> s[k] == s[first..][k - first];
    assert forall k :: first <= k < first + |d| ==> s[k] == d[k - first];
    assert rest != "" ==> s[first + |d|] == rest[0];
    assert s[first..first + |d|] == s[first..][..|d|] == d;
  }

  function SignedValue(sign: string, n: nat): int { if sign == "-" then 0 - n else n }

  function Saturated(v: int): int { if v < LONG_MIN then LONG_MIN else if v > LONG_MAX then LONG_MAX else v }

  lemma LeadingZero(d: string, base: nat)
    requires base >= 1
    ensures Value("0" + d, base) == Value(d, base)
    decreases |d|
  {
    var s := "0" + d;
    if d == "" {
      assert s[..0] == "";
    } else {
      assert s[..|s| - 1] == "0" + d[..|d| - 1];
      LeadingZero(d[..|d| - 1], base);
    }
  }

  predicate Hexadecimal(s: string, j: nat) {
    j + 2 < |s| && s[j] == '0' && (s[j + 1] == 'x' || s[j + 1] == 'X') && DigitValue(s[j + 2]) < 16
  }

  /** Where a number starts in s, in which base, and where it ends. */
  predicate NumberAt(s: string, j: nat, first: nat, base: nat, e: nat, n: nat) {
    && j < |s| && first < e <= |s|
    && (if Hexadecimal(s, j) then base == 16 && first == j + 2
        else first == j && base == if s[j] == '0' then 8 else 10)
    && DigitsEnd(s, first, base) == e && Value(s[first..e], base) == n
  }

  lemma LongIs(s: string, i: nat, first: nat, base: nat, e: nat, n: nat)
    requires SpaceEnd(s, 0) == i < |s|
    requires NumberAt(s, if s[i] == '-' || s[i] == '+' then i + 1 else i, first, base, e, n)
    ensures var v := if s[i] == '-' then 0 - n else n; StrToL(s) == Long(Saturated(v), e, v != Saturated(v))
  {
    hide SpaceEnd, DigitsEnd, Value, DigitValue;
  }

  lemma HexShift(s: string, j: nat)
    requires j <= |s|
    ensures Hexadecimal(s, j) == Hexadecimal(s[j..], 0) && (j < |s| ==> s[j] == s[j..][0])
  {
  }

  lemma HexAt(s: string, j: nat, n: nat, rest: string)
    requires StopsDigits(rest, n, 16) && j <= |s| && s[j..] == "0x" + (Digits(n, 16) + rest)
    ensures NumberAt(s, j, j + 2, 16, j + 2 + |Digits(n, 16)|, n)
  {
    hide DigitsEnd, Digits, Value, DigitValue, Hexadecimal;
    BaseAndDigits(s[j..], n, 16, rest);
    DigitsValue(n, 16);
    HexShift(s, j);
    assert s[j + 2..] == s[j..][2..] == Digits(n, 16) + rest;
    ReadDigits(s, j + 2, Digits(n, 16), rest, 16);
  }

  lemma OctalAt(s: string, j: nat, n: nat, rest: string)
    requires StopsDigits(rest, n, 8) && j <= |s| && s[j..] == "0" + (Digits(n, 8) + rest)
    ensures NumberAt(s, j, j, 8, j + 1 + |Digits(n, 8)|, n)
  {
    hide DigitsEnd, Digits, Value, DigitValue, Hexadecimal;
    var d := Digits(n, 8);
    BaseAndDigits(s[j..], n, 8, rest);
    DigitsValue(n, 8);
    HexShift(s, j);
    assert s[j..] == ("0" + d) + rest;
    LeadingZero(d, 8);
    ZeroIsDigit(d);
    ReadDigits(s, j, "0" + d, rest, 8);
  }

  lemma DecimalAt(s: string, j: nat, n: nat, rest: string)
    requires StopsDigits(rest, n, 10) && j <= |s| && s[j..] == Digits(n, 10) + rest
    ensures NumberAt(s, j, j, if n == 0 then 8 else 10, j + |Digits(n, 10)|, n)
  {
    hide DigitsEnd, Digits, Value, DigitValue, Hexadecimal;
    var d := Digits(n, 10);
    assert s[j..] == Prefix(10) + (d + rest);
    BaseAndDigits(s[j..], n, 10, rest);
    DigitsValue(n, 10);
    HexShift(s, j);
    if n == 0 {
      ZeroValue(d);
      ZeroIsDigit("");
      assert "0" + "" == d;
      ReadDigits(s, j, d, rest, 8);
    } else {
      ReadDigits(s, j, d, rest, 10);
    }
  }

  /** The digits of a numeral in base 16, 8 and 10. */
  lemma NumeralDigits(s: string, j: nat, n: nat, base: nat, rest: string) returns (first: nat, b: nat)
    requires base in {8, 10, 16} && StopsDigits(rest, n, base)
    requires j <= |s| && s[j..] == Prefix(base) + (Digits(n, base) + rest)
    ensures NumberAt(s, j, first, b, j + |Prefix(base)| + |Digits(n, base)|, n)
  {
    hide NumberAt, Digits, StopsDigits;
    if base == 16 {
      first, b := j + 2, 16;
      HexAt(s, j, n, rest);
    } else if base == 8 {
      first, b := j, 8;
      OctalAt(s, j, n, rest);
    } else {
      first, b := j, if n == 0 then 8 else 10;
      assert Prefix(base) + (Digits(n, base) + rest) == Digits(n, base) + rest;
      DecimalAt(s, j, n, rest);
    }
  }

  lemma ZeroIsDigit(d: string)
    requires forall k :: 0 <= k < |d| ==> DigitValue(d[k]) < 8
    ensures forall k :: 0 <= k < |"0" + d| ==> DigitValue(("0" + d)[k]) < 8
  {
  }

  lemma NumeralJoins(blanks: string, sign: string, n: nat, base: nat, rest: string)
    requires base in {8, 10, 16}
    ensures Numeral(blanks, sign, n, base) + rest == blanks + (sign + (Prefix(base) + (Digits(n, base) + rest)))
    ensures |Numeral(blanks, sign, n, base)| == |blanks| + |sign| + |Prefix(base)| + |Digits(n, base)|
  {
    hide Digits;
  }

  /** strtol reads every numeral: decimal, octal after 0 and hexadecimal after 0x, behind any white space and any sign;
      it saturates at the bounds of a long and tells so, and it stops where the digits do. */
  lemma NumeralIsRead(blanks: string, sign: string, n: nat, base: nat, rest: string)
    requires Spaces(blanks) && sign in {"", "+", "-"} && base in {8, 10, 16} && StopsDigits(rest, n, base)
    ensures var l, v := StrToL(Numeral(blanks, sign, n, base) + rest), SignedValue(sign, n);
            l == Long(Saturated(v), |Numeral(blanks, sign, n, base)|, v != Saturated(v))
  {
    hide StrToL, SpaceEnd, NumberAt, Digits, Value, Spaces, StopsDigits, Saturated, Numeral, Hexadecimal;
    var t := Prefix(base) + (Digits(n, base) + rest);
    var s := blanks + (sign + t);
    NumeralJoins(blanks, sign, n, base, rest);
    BaseAndDigits(t, n, base, rest);
    NumeralStart(blanks, sign, t);
    var j := |blanks| + |sign|;
    var first, b := NumeralDigits(s, j, n, base, rest);
    LongIs(s, |blanks|, first, b, j + |Prefix(base)| + |Digits(n, base)|, n);
  }

  /** r is what an int holds of the long v: the number in its range that differs from v by a multiple of 2^32. */
  predicate IntOfLong(r: int, v: int) { -0x8000_0000 <= r < 0x8000_0000 && (r - v) % 0x1_0000_0000 == 0 }

  lemma ToInt32Iff(r: int, v: int)
    ensures IntOfLong(r, v) <==> r == ToInt32(v)
  {
  }

  /** str_to_int accepts a numeral exactly when nothing follows it and it fits a long; it stores what an int holds of
      it, or of the bound it has passed; and it recovers it exactly when it is accepted and fits an int. */
  lemma NumeralRecoveredIff(blanks: string, sign: string, n: nat, base: nat, rest: string)
    requires Spaces(blanks) && sign in {"", "+", "-"} && base in {8, 10, 16} && StopsDigits(rest, n, base)
    ensures var r, v := StrToInt(Numeral(blanks, sign, n, base) + rest), SignedValue(sign, n);
            && (r.0 == OK <==> rest == "" && LONG_MIN <= v <= LONG_MAX) && IntOfLong(r.1, Saturated(v))
            && (r == (OK, v) <==> rest == "" && -0x8000_0000 <= v < 0x8000_0000)
  {
    hide StrToL, Digits, Value, ToInt32;
    DigitsValue(n, base);
    NumeralIsRead(blanks, sign, n, base, rest);
    var v := SignedValue(sign, n);
    ToInt32Iff(ToInt32(Saturated(v)), Saturated(v));
    if -0x8000_0000 <= v < 0x8000_0000 {
      ToInt32Iff(v, v);
    }
  }

  /** Where no digit follows white space and sign there is no number. */
  lemma NoNumeral(blanks: string, sign: string, rest: string)
    requires Spaces(blanks) && sign in {"", "+", "-"} && (rest != "" ==> DigitValue(rest[0]) >= 10)
    requires sign == "" && rest != "" ==> !IsSpace(rest[0]) && rest[0] !in {'+', '-'}
    ensures StrToInt(blanks + (sign + rest)) == (ERROR, 0)
  {
    hide DigitsEnd, Value, DigitValue, IsSpace;
    var s, i := blanks + (sign + rest), |blanks|;
    assert |s| == i + |sign| + |rest| && s[i..] == sign + rest;
    if sign + rest == "" {
      assert SpaceEnd(s, 0) == |s|;
    } else {
      assert s[i] == (sign + rest)[0];
      SignIsNoSpace();
      SpacesEnd(s, i);
      var j := i + |sign|;
      assert rest != "" ==> s[j] == rest[0];
      NoDigits(s, j);
    }
  }

  lemma SignIsNoSpace()
    ensures !IsSpace('+') && !IsSpace('-')
  {
  }

  lemma NoDigits(s: string, j: nat)
    requires j <= |s| && (j < |s| ==> DigitValue(s[j]) >= 10)
    ensures DigitsEnd(s, j, 10) == j && (j < |s| ==> s[j] != '0')
  {
  }

  // ------------------------------------------------------------------ lengths with white space around them

  predicate BlankIn(s: string, lo: nat, hi: nat) { hi <= |s| && forall k :: lo <= k < hi ==> IsBlank(s[k]) }

  predicate DecimalIn(s: string, lo: nat, hi: nat) { hi <= |s| && forall k :: lo <= k < hi ==> '0' <= s[k] <= '9' }

  lemma {:induction false} TrimLeftBlanks(s: string)
    ensures BlankIn(s, 0, |s| - |TrimLeft(s)|)
  {
    if s != "" && IsBlank(s[0]) {
      TrimLeftBlanks(s[1..]);
      assert forall k :: 0 < k < |s| ==> s[k] == s[1..][k - 1];
    }
  }

  lemma {:induction false} TrimRightBlanks(s: string)
    ensures BlankIn(s, |TrimRight(s)|, |s|)
  {
    if s != "" && IsBlank(s[|s| - 1]) {
      TrimRightBlanks(s[..|s| - 1]);
    }
  }

  /** The blanks on either side of a trimmed text. */
  lemma TrimBounds(s: string) returns (i: nat, e: nat)
    ensures i <= e <= |s| && Trim(s) == s[i..e] && BlankIn(s, 0, i) && BlankIn(s, e, |s|)
  {
    var t := TrimLeft(s);
    TrimLeftBlanks(s);
    TrimRightBlanks(t);
    i := |s| - |t|;
    e := i + |TrimRight(t)|;
    assert forall k :: e <= k < |s| ==> s[k] == t[k - i];
    assert s[i..][..e - i] == s[i..e];
  }

  /** The base in which strtol reads digits that start no hexadecimal number. */
  function BaseOf(c: char): nat { if c == '0' then 8 else 10 }

  /** strtol behind white space on a digit that starts no hexadecimal number. */
  lemma DigitsLong(s: string, i: nat)
    requires SpaceEnd(s, 0) == i < |s| && '0' <= s[i] <= '9'
    requires i + 1 < |s| ==> s[i + 1] != 'x' && s[i + 1] != 'X'
    ensures var e := DigitsEnd(s, i, BaseOf(s[i]));
            var v := Value(s[i..e], BaseOf(s[i]));
            && StrToL(s) == (if v <= LONG_MAX then Long(v, e, false) else Long(LONG_MAX, e, true)) && e > i
  {
    hide SpaceEnd, Value;
  }

  lemma SpaceEnds(s: string, i: nat)
    requires i < |s| && BlankIn(s, 0, i) && !IsSpace(s[i])
    ensures SpaceEnd(s, 0) == i
  {
    SpacesEnd(s, i);
  }

  lemma DigitsStop(s: string, i: nat, e: nat, base: nat)
    requires i <= e && BlankIn(s, e, |s|) && e <= |s| && base <= 16
    ensures DigitsEnd(s, i, base) <= e
  {
    assert e < |s| ==> DigitValue(s[e]) == 16;
  }

  lemma DigitsReach(s: string, i: nat, e: nat, base: nat)
    requires i <= e <= |s| && forall k :: i <= k < e ==> DigitValue(s[k]) < base
    ensures DigitsEnd(s, i, base) >= e
  {
  }

  /** Where strtol starts and stops on digits between blanks. */
  lemma DigitsBetweenBlanks(s: string, i: nat, e: nat)
    requires i < e && BlankIn(s, 0, i) && DecimalIn(s, i, e) && BlankIn(s, e, |s|)
    ensures SpaceEnd(s, 0) == i && '0' <= s[i] <= '9' && (i + 1 < |s| ==> s[i + 1] != 'x' && s[i + 1] != 'X')
    ensures DigitsEnd(s, i, BaseOf(s[i])) <= e
    ensures s[i] != '0' || e == i + 1 ==> DigitsEnd(s, i, BaseOf(s[i])) == e
  {
    hide SpaceEnd, DigitsEnd;
    SpaceEnds(s, i);
    DigitsStop(s, i, e, BaseOf(s[i]));
    if s[i] != '0' || e == i + 1 {
      DigitsReach(s, i, e, BaseOf(s[i]));
    }
  }

  /** The text behind its first byte. */
  lemma Shifted(s: string, i: nat, e: nat)
    requires s != "" && BlankIn(s, 0, i) && i < e && DecimalIn(s, i, e) && BlankIn(s, e, |s|)
    ensures var t := s[1..];
            && |t| == |s| - 1 && BlankIn(t, e - 1, |t|)
            && (i > 0 ==>
                  && BlankIn(t, 0, i - 1) && DecimalIn(t, i - 1, e - 1)
                  && t[i - 1..e - 1] == s[i..e] && t[i - 1] == s[i])
            && (i == 0 ==> DecimalIn(t, 0, e - 1) && t[0..e - 1] == s[0..e][1..])
  {
    var t := s[1..];
    assert forall k :: 0 <= k < |t| ==> t[k] == s[k + 1];
  }

  lemma IntOf(v: nat)
    ensures ToInt32(v) == v <==> v < 0x8000_0000
  {
  }

  /** Without the first digit of a number that does not start with 0 a smaller number is left, in whatever base. */
  lemma {:induction false} DropsFirstDigit(s: string, base: nat)
    requires s != "" && DecimalIn(s, 0, |s|) && s[0] != '0' && base <= 10
    ensures Value(s[1..], base) < Value(s, 10)
    decreases |s|
  {
    var init, last := s[..|s| - 1], s[|s| - 1];
    if |s| > 1 {
      DropsFirstDigit(init, base);
      assert s[1..][..|s| - 2] == init[1..];
      Times(Value(init[1..], base), Value(init, 10), base);
    } else {
      assert init == "" && Value(s, 10) == DigitValue(last);
    }
  }

  lemma Times(a: nat, b: nat, base: nat)
    requires a < b && base <= 10
    ensures a * base + 10 <= b * 10
  {
    assert a * base <= a * 10;
  }

  /** The length is stated so that the parser reads it: at least one blank in front of it, none behind it. */
  predicate ReadsInFull(rest: string) { rest != "" && IsBlank(rest[0]) && !IsBlank(rest[|rest| - 1]) }

  /** Exactly when Content-Length is read as the length that is meant, for any decimal between any blanks: at least one
      blank follows the colon, none ends the line, and the number fits an int.  Otherwise it is rejected, or, if it
      would fit, silently read as a smaller length. */
  lemma LengthIsMeantIff(rest: string, spill: string, n: nat)
    requires Trim(rest) == Decimal(n)
    ensures StrToInt(Taken(rest, spill)) == (OK, n) <==> n < 0x8000_0000 && ReadsInFull(rest)
    ensures n < 0x8000_0000 && !ReadsInFull(rest) ==>
              var (status, v) := StrToInt(Taken(rest, spill)); status == ERROR || 0 <= v < n
  {
    hide StrToInt, Decimal, Trim, BlankIn, DecimalIn, ReadsInFull, Value;
    var i, e := TrimBounds(rest);
    DecimalBounds(rest, i, e, n);
    InFull(rest, i, e);
    if i == 0 {
      TightLength(rest, e, n);
    } else {
      BlankedLength(rest, i, e, n);
    }
  }

  lemma DecimalBounds(s: string, i: nat, e: nat, n: nat)
    requires i <= e <= |s| && s[i..e] == Decimal(n)
    ensures i < e && DecimalIn(s, i, e) && Value(s[i..e], 10) == n && (s[i] == '0' ==> e == i + 1 && n == 0)
  {
    hide Value, Decimal;
    DecimalValue(n);
    assert forall k :: i <= k < e ==> s[k] == s[i..e][k - i];
  }

  lemma InFull(rest: string, i: nat, e: nat)
    requires i < e && BlankIn(rest, 0, i) && DecimalIn(rest, i, e) && BlankIn(rest, e, |rest|)
    ensures ReadsInFull(rest) <==> i > 0 && e == |rest|
  {
  }

  lemma ZeroValue(s: string)
    requires s == "0"
    ensures Value(s, 8) == 0
  {
    assert s[..0] == "";
  }

  /** A blank behind the colon. */
  lemma BlankedLength(rest: string, i: nat, e: nat, n: nat)
    requires 0 < i < e <= |rest| && BlankIn(rest, 0, i) && DecimalIn(rest, i, e) && BlankIn(rest, e, |rest|)
    requires Value(rest[i..e], 10) == n && (rest[i] == '0' ==> e == i + 1 && n == 0)
    ensures var r := StrToInt(rest[1..]);
            (r == (OK, n) <==> n < 0x8000_0000 && e == |rest|) && (e != |rest| ==> r.0 == ERROR)
  {
    hide StrToL, Value, SpaceEnd, DigitsEnd, BlankIn, DecimalIn, ToInt32;
    var s := rest[1..];
    Shifted(rest, i, e);
    DigitsBetweenBlanks(s, i - 1, e - 1);
    DigitsLong(s, i - 1);
    IntOf(n);
    if rest[i] == '0' {
      ZeroValue(rest[i..e]);
    }
  }

  /** No blank behind the colon: the first digit is lost, and what is left may be read in octal. */
  lemma TightLength(rest: string, e: nat, n: nat)
    requires 0 < e && DecimalIn(rest, 0, e) && BlankIn(rest, e, |rest|)
    requires Value(rest[0..e], 10) == n && (rest[0] == '0' ==> e == 1 && n == 0)
    ensures var (status, v) := StrToInt(rest[1..]);
            (status, v) != (OK, n) && (n < 0x8000_0000 ==> status == ERROR || 0 <= v < n)
  {
    hide StrToL, Value, SpaceEnd, DigitsEnd;
    var s := rest[1..];
    Shifted(rest, 0, e);
    if e == 1 {
      OnlyBlanks(s);
    } else {
      DigitsBetweenBlanks(s, 0, e - 1);
      DigitsLong(s, 0);
      var digits := rest[0..e];
      DropsFirstDigit(digits, BaseOf(s[0]));
    }
  }

  lemma OnlyBlanks(s: string)
    requires BlankIn(s, 0, |s|)
    ensures StrToL(s) == Long(0, 0, false)
  {
    assert SpaceEnd(s, 0) == |s|;
  }

  /** Content-Length as the parser sees it, for any digits and blanks behind the colon: one line of a message stores the
      length that is meant, and goes on, under exactly that condition. */
  lemma LineLengthIff(b: seq<char>, lo: nat, nl: nat, name: string, rest: string, n: nat, f: Fields, kind: Kind)
    requires FieldLine(b, lo, nl, name, rest) && Lower(name) == "content-length" && Trim(rest) == Decimal(n)
    ensures var r := Line(b, nl, lo, f, kind);
            && r.buffer[nl + 1..] == b[nl + 1..] && r.status in {OK, ERROR}
            && (r.status == OK && r.fields == f.(reqContentLen := n) <==> n < 0x8000_0000 && ReadsInFull(rest))
            && (n < 0x8000_0000 && !ReadsInFull(rest) ==> r.status == ERROR || 0 <= r.fields.reqContentLen < n)
  {
    hide At, Clean, Without, Line, CString, Lower, Trim, StrToInt, Decimal, ReadsInFull, HeaderText;
    FieldLineEffect(b, lo, nl, name, rest, f, kind);
    LengthIsMeantIff(rest, CString(b, nl), n);
    assert f.(reqContentLen := n).reqContentLen == n;
  }

  /** How a length gets smaller: without a blank the first digit is lost, so that 15 is accepted as 5. */
  lemma TightLengthIsCut(digits: string, spill: string)
    requires DecimalIn(digits, 0, |digits|) && |digits| > 1 && digits[0] != '0' && digits[1] != '0'
    requires Value(digits, 10) < 0x8000_0000
    ensures var v := Value(digits[1..], 10); StrToInt(Taken(digits, spill)) == (OK, v) && v < Value(digits, 10)
  {
    hide StrToL, Value;
    DropsFirstDigit(digits, 10);
    DecimalLong(digits[1..], Value(digits[1..], 10));
  }
}
