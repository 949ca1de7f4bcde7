/** The header parser of http_request.c: it cuts a private copy of the message into C strings by writing NULs
    into it, line by line, and sets the fields of an HTTPRequest.  Functions on sequences say what each
    routine does to the buffer; the methods do it in place on an array. */
module HttpParser {
  import opened Common

  const NUL := '\0'
  const CR := '\r'
  const LF := '\n'

  // ------------------------------------------------------------------ C strings

  predicate Terminated(b: seq<char>) { |b| > 0 && b[|b| - 1] == NUL }

  /** The index of the first NUL from i on. */
  function StrEnd(b: seq<char>, i: nat): (e: nat)
    requires Terminated(b) && i < |b|
    ensures i <= e < |b| && b[e] == NUL
    ensures forall k :: i <= k < e ==> b[k] != NUL
    decreases |b| - i
  {
    if b[i] == NUL then i else StrEnd(b, i + 1)
  }

  function CString(b: seq<char>, i: nat): string
    requires Terminated(b) && i < |b|
  {
    b[i..StrEnd(b, i)]
  }

  /** The first position from i on, before hi, that holds c; hi if there is none. */
  function Find(b: seq<char>, c: char, i: nat, hi: nat): (p: nat)
    requires i <= hi <= |b|
    ensures i <= p <= hi && (p < hi ==> b[p] == c)
    ensures forall k :: i <= k < p ==> b[k] != c
    decreases hi - i
  {
    if i == hi || b[i] == c then i else Find(b, c, i + 1, hi)
  }

  function LowerChar(c: char): char { if 'A' <= c <= 'Z' then c - 'A' + 'a' else c }

  function Lower(s: string): (t: string)
    ensures |t| == |s| && forall k :: 0 <= k < |s| ==> t[k] == LowerChar(s[k])
  {
    seq(|s|, k requires 0 <= k < |s| => LowerChar(s[k]))
  }

  // ------------------------------------------------------------------ str_to_int

  function DigitValue(c: char): nat {
    if '0' <= c <= '9' then (c - '0') as nat
    else if 'a' <= c <= 'f' then 10 + (c - 'a') as nat
    else if 'A' <= c <= 'F' then 10 + (c - 'A') as nat
    else 16
  }

  function Value(s: string, base: nat): nat {
    if s == "" then 0 else Value(s[..|s| - 1], base) * base + DigitValue(s[|s| - 1])
  }

  predicate IsSpace(c: char) { c == ' ' || '\t' <= c <= '\r' }

  /** The first position from i on that holds no white space. */
  function SpaceEnd(s: string, i: nat): (e: nat)
    requires i <= |s|
    ensures i <= e <= |s| && (e < |s| ==> !IsSpace(s[e]))
    ensures forall k :: i <= k < e ==> IsSpace(s[k])
    decreases |s| - i
  {
    if i == |s| || !IsSpace(s[i]) then i else SpaceEnd(s, i + 1)
  }

  /** The first position from i on that holds no digit of the base. */
  function DigitsEnd(s: string, i: nat, base: nat): (e: nat)
    requires i <= |s|
    ensures i <= e <= |s| && (e < |s| ==> DigitValue(s[e]) >= base)
    ensures forall k :: i <= k < e ==> DigitValue(s[k]) < base
    decreases |s| - i
  {
    if i == |s| || DigitValue(s[i]) >= base then i else DigitsEnd(s, i + 1, base)
  }

  const LONG_MAX := 0x7FFF_FFFF_FFFF_FFFF
  const LONG_MIN := -0x8000_0000_0000_0000

  /** The result of strtol: the number, where reading stopped, and whether it was out of range. */
  datatype Long = Long(value: int, end: nat, range: bool)

  /** strtol with base 0: white space, a sign, hexadecimal digits after 0x, octal ones after 0, decimal ones
      otherwise. */
  function StrToL(s: string): (l: Long)
    ensures l.end <= |s| && LONG_MIN <= l.value <= LONG_MAX
  {
    var i := SpaceEnd(s, 0);
    var j := if i < |s| && (s[i] == '-' || s[i] == '+') then i + 1 else i;
    var hex := j + 2 < |s| && s[j] == '0' && (s[j + 1] == 'x' || s[j + 1] == 'X') && DigitValue(s[j + 2]) < 16;
    var base := if hex then 16 else if j < |s| && s[j] == '0' then 8 else 10;
    var first := if hex then j + 2 else j;
    var e := DigitsEnd(s, first, base);
    if e == first then Long(0, 0, false)
    else
      var m := Value(s[first..e], base);
      var v: int := if s[i] == '-' then 0 - m else m;
      if v < LONG_MIN then Long(LONG_MIN, e, true)
      else if v > LONG_MAX then Long(LONG_MAX, e, true)
      else Long(v, e, false)
  }

  /** The conversion from long to int: two's complement of 32 bits. */
  function ToInt32(v: int): int {
    var w := v % 0x1_0000_0000;
    if w >= 0x8000_0000 then w - 0x1_0000_0000 else w
  }

  /** str_to_int: the number is stored in any case; it is an error if it was out of range, if there was none, or if
      something follows it. */
  function StrToInt(s: string): (r: (Ending, int))
    ensures r.0 in {OK, ERROR}
  {
    var l := StrToL(s);
    (if l.range || l.end == 0 || l.end < |s| then ERROR else OK, ToInt32(l.value))
  }

  // ------------------------------------------------------------------ the fields

  datatype Fields = Fields(
    reqType: Option<string>, reqResource: Option<string>, reqProtocol: Option<string>,
    respCode: Option<string>, respMsg: Option<string>,
    reqAccept: Option<string>, reqFrom: Option<string>, reqHost: Option<string>,
    reqContentType: Option<string>, reqContentLen: int)

  function NewFields(): Fields { Fields(None, None, None, None, None, None, None, None, None, -1) }

  datatype Kind = RQST | RESP

  function SetFirst(f: Fields, kind: Kind, s: string): Fields {
    if kind.RQST? then f.(reqType := Some(s)) else f.(reqProtocol := Some(s))
  }

  function SetSecondAndThird(f: Fields, kind: Kind, s: string, t: string): Fields {
    if kind.RQST? then f.(reqResource := Some(s), reqProtocol := Some(t))
    else f.(respCode := Some(s), respMsg := Some(t))
  }

  /** The effect of one header whose name is already in lower case. */
  function SetHeader(f: Fields, name: string, value: string): (Ending, Fields) {
    if name == "accept" then (OK, f.(reqAccept := Some(value)))
    else if name == "from" then (OK, f.(reqFrom := Some(value)))
    else if name == "host" then (OK, f.(reqHost := Some(value)))
    else if name == "content-type" then (OK, f.(reqContentType := Some(value)))
    else if name == "content-length" then (StrToInt(value).0, f.(reqContentLen := StrToInt(value).1))
    else (OK, f)
  }

  // ------------------------------------------------------------------ the routines on sequences

  datatype Parse = Parse(status: Ending, fields: Fields, buffer: seq<char>)

  /** get_request and get_response on the first len bytes: the first two blanks become NULs. */
  function StartLine(b: seq<char>, len: nat, f: Fields, kind: Kind): (r: Parse)
    requires Terminated(b) && len < |b|
    ensures Terminated(r.buffer) && |r.buffer| == |b| && r.buffer[len..] == b[len..]
  {
    var p := Find(b, ' ', 0, len);
    if p == len then Parse(OK, f, b)
    else
      var b1 := b[p := NUL];
      var f1 := SetFirst(f, kind, CString(b1, 0));
      var q := Find(b1, ' ', p + 1, len);
      if q == len then Parse(OK, f1, b1)
      else
        var b2 := b1[q := NUL];
        Parse(OK, SetSecondAndThird(f1, kind, CString(b2, p + 1), CString(b2, q + 1)), b2)
  }

  lemma FindStep(b: seq<char>, c: char, i: nat, hi: nat)
    requires i <= hi <= |b|
    ensures Find(b, c, i, hi) == if i == hi || b[i] == c then i else Find(b, c, i + 1, hi)
  {
  }

  lemma StartLineCases(b: seq<char>, len: nat, f: Fields, kind: Kind)
    requires Terminated(b) && len < |b|
    ensures var p := Find(b, ' ', 0, len);
            if p == len then StartLine(b, len, f, kind) == Parse(OK, f, b)
            else
              var b1 := b[p := NUL];
              var f1, q := SetFirst(f, kind, CString(b1, 0)), Find(b1, ' ', p + 1, len);
              if q == len then StartLine(b, len, f, kind) == Parse(OK, f1, b1)
              else
                var b2 := b1[q := NUL];
                StartLine(b, len, f, kind)
                == Parse(OK, SetSecondAndThird(f1, kind, CString(b2, p + 1), CString(b2, q + 1)), b2)
  {
  }

  /** The buffer with the bytes from lo to hi in lower case. */
  function LowerBetween(b: seq<char>, lo: nat, hi: nat): (r: seq<char>)
    requires lo <= hi <= |b|
    ensures |r| == |b| && forall k :: 0 <= k < |b| ==> r[k] == if lo <= k < hi then LowerChar(b[k]) else b[k]
  {
    b[..lo] + Lower(b[lo..hi]) + b[hi..]
  }

  lemma LowerBetweenStep(b: seq<char>, lo: nat, hi: nat)
    requires lo <= hi < |b|
    ensures LowerBetween(b, lo, hi)[hi := LowerChar(b[hi])] == LowerBetween(b, lo, hi + 1)
  {
  }

  /** str_to_lower on the C string at lo. */
  function LowerAt(b: seq<char>, lo: nat): (r: seq<char>)
    requires Terminated(b) && lo < |b|
    ensures Terminated(r) && |r| == |b| && r[StrEnd(b, lo)..] == b[StrEnd(b, lo)..]
  {
    var e := StrEnd(b, lo);
    var r := LowerBetween(b, lo, e);
    assert r[e..] == b[e..];
    r
  }

  /** get_header on the C string at lo: its first colon becomes a NUL, the name is lowered, the value starts two
      bytes after the colon. */
  function Header(b: seq<char>, lo: nat, f: Fields): (r: Parse)
    requires Terminated(b) && lo < |b|
    ensures Terminated(r.buffer) && |r.buffer| == |b| && r.buffer[StrEnd(b, lo)..] == b[StrEnd(b, lo)..]
  {
    var e := StrEnd(b, lo);
    var c := Find(b, ':', lo, e);
    if c == e then Parse(NULL_DEREFERENCE, f, b)
    else
      var b1 := b[c := NUL];
      ColonEnds(b, lo, c);
      var b2 := LowerAt(b1, lo);
      assert b2[e..] == b2[c..][e - c..] == b[e..];
      if c + 2 >= |b| then Parse(OUT_OF_BUFFER, f, b2)
      else
        var (status, f1) := SetHeader(f, Lower(b[lo..c]), CString(b2, c + 2));
        Parse(status, f1, b2)
  }

  lemma HeaderCases(b: seq<char>, lo: nat, f: Fields)
    requires Terminated(b) && lo < |b|
    ensures var c := Find(b, ':', lo, StrEnd(b, lo));
            if c == StrEnd(b, lo) then Header(b, lo, f) == Parse(NULL_DEREFERENCE, f, b)
            else
              && Terminated(b[c := NUL])
              && var b2 := LowerAt(b[c := NUL], lo);
                 if c + 2 >= |b| then Header(b, lo, f) == Parse(OUT_OF_BUFFER, f, b2)
                 else
                   var outcome := SetHeader(f, Lower(b[lo..c]), CString(b2, c + 2));
                   Header(b, lo, f) == Parse(outcome.0, outcome.1, b2)
  {
    hide StrEnd, LowerAt, SetHeader, CString, Lower, Find;
    var c := Find(b, ':', lo, StrEnd(b, lo));
    if c != StrEnd(b, lo) {
      ColonEnds(b, lo, c);
    }
  }

  /** A line must have a colon: without one get_header returns no throwable and the caller reads through NULL,
      whatever else the line holds; nothing has been stored then. */
  lemma NeedsColonIff(b: seq<char>, lo: nat, f: Fields)
    requires Terminated(b) && lo < |b|
    ensures Header(b, lo, f).status == NULL_DEREFERENCE <==> ':' !in CString(b, lo)
    ensures Header(b, lo, f).status == NULL_DEREFERENCE ==> Header(b, lo, f).fields == f
  {
    hide LowerAt, SetHeader, Header;
    var e := StrEnd(b, lo);
    var c := Find(b, ':', lo, e);
    HeaderCases(b, lo, f);
    assert c < e ==> CString(b, lo)[c - lo] == ':';
    if c < e && c + 2 < |b| {
      StoresOrRejects(f, Lower(b[lo..c]), CString(LowerAt(b[c := NUL], lo), c + 2));
    }
  }

  lemma StoresOrRejects(f: Fields, name: string, value: string)
    ensures SetHeader(f, name, value).0 in {OK, ERROR}
  {
  }

  lemma StrEndIs(b: seq<char>, i: nat, e: nat)
    requires Terminated(b) && i <= e < |b| && b[e] == NUL
    requires forall k :: i <= k < e ==> b[k] != NUL
    ensures StrEnd(b, i) == e
  {
    assert StrEnd(b, i) <= e;
  }

  lemma ColonEnds(b: seq<char>, lo: nat, c: nat)
    requires Terminated(b) && lo < |b| && lo <= c < StrEnd(b, lo)
    ensures Terminated(b[c := NUL]) && StrEnd(b[c := NUL], lo) == c
  {
    var b1 := b[c := NUL];
    assert b1[|b| - 1] == NUL && b1[c] == NUL;
    forall k | lo <= k < c
      ensures b1[k] != NUL
    {
      assert b1[k] == b[k];
    }
    StrEndIs(b1, lo, c);
  }

  /** The line that ends with the line feed at i: its last byte becomes a NUL, then it is taken as the start line
      or as a header. */
  function Line(b: seq<char>, i: nat, start: nat, f: Fields, kind: Kind): (r: Parse)
    requires Terminated(b) && start <= i < |b| - 1 && i > 0
    ensures Terminated(r.buffer) && |r.buffer| == |b|
  {
    if start == 0 then StartLine(b[i - 1 := NUL], i, f, kind) else Header(b[i - 1 := NUL], start, f)
  }

  /** A line that holds nothing but its CRLF starts at i. */
  predicate BlankLineAt(b: seq<char>, i: nat)
    requires Terminated(b) && i < |b|
  {
    b[i] == CR && b[i + 1] == LF
  }

  /** The loop of read_headers at index i, with the current line starting at `start`. */
  function Run(b: seq<char>, i: nat, start: nat, f: Fields, kind: Kind): (r: Parse)
    requires Terminated(b) && start <= i < |b|
    decreases |b| - i
  {
    if i == |b| - 1 then Parse(OK, f, b)
    else if b[i] != LF then Run(b, i + 1, start, f, kind)
    else if i == 0 then Parse(OUT_OF_BUFFER, f, b)
    else
      var r := Line(b, i, start, f, kind);
      if !r.status.OK? then r
      else if BlankLineAt(r.buffer, i + 1) then r
      else Run(r.buffer, i + 1, i + 1, r.fields, kind)
  }

  /** read_headers on a C string. */
  function ReadFields(text: string, f: Fields, kind: Kind): (Ending, Fields) {
    var b := CString(text + [NUL], 0) + [NUL];
    var r := Run(b, 0, 0, f, kind);
    (r.status, r.fields)
  }

  // ------------------------------------------------------------------ the routines in place

  /** str_to_lower. */
  method StrToLower(buffer: array<char>, lo: nat)
    requires Terminated(buffer[..]) && lo < buffer.Length
    modifies buffer
    ensures buffer[..] == LowerAt(old(buffer[..]), lo)
  {
    hide LowerBetween, LowerChar;
    ghost var b := buffer[..];
    ghost var e := StrEnd(b, lo);
    var i := lo;
    assert buffer[..] == LowerBetween(b, lo, lo);
    while buffer[i] != NUL
      invariant lo <= i <= e && buffer[..] == LowerBetween(b, lo, i)
      decreases e - i
    {
      assert buffer[i] == b[i];
      LowerBetweenStep(b, lo, i);
      ghost var before := buffer[..];
      buffer[i] := LowerChar(buffer[i]);
      assert buffer[..] == before[i := LowerChar(b[i])];
      i := i + 1;
    }
    assert buffer[i] == b[i];
  }

  class HttpRequest {
    var reqType: Option<string>
    var reqResource: Option<string>
    var reqProtocol: Option<string>
    var respCode: Option<string>
    var respMsg: Option<string>
    var reqAccept: Option<string>
    var reqFrom: Option<string>
    var reqHost: Option<string>
    var reqContentType: Option<string>
    var reqContentLen: int

    function Snapshot(): Fields
      reads this
    {
      Fields(reqType, reqResource, reqProtocol, respCode, respMsg,
             reqAccept, reqFrom, reqHost, reqContentType, reqContentLen)
    }

    constructor ()
      ensures Snapshot() == NewFields()
    {
      reqType, reqResource, reqProtocol, respCode, respMsg := None, None, None, None, None;
      reqAccept, reqFrom, reqHost, reqContentType, reqContentLen := None, None, None, None, -1;
    }

    method PutFirst(kind: Kind, s: string)
      modifies this
      ensures Snapshot() == SetFirst(old(Snapshot()), kind, s)
    {
      if kind.RQST? {
        reqType := Some(s);
      } else {
        reqProtocol := Some(s);
      }
    }

    method PutSecondAndThird(kind: Kind, s: string, t: string)
      modifies this
      ensures Snapshot() == SetSecondAndThird(old(Snapshot()), kind, s, t)
    {
      if kind.RQST? {
        reqResource := Some(s);
        reqProtocol := Some(t);
      } else {
        respCode := Some(s);
        respMsg := Some(t);
      }
    }

    /** get_request for RQST, get_response for RESP: the two differ only in the fields they set. */
    method GetStartLine(buffer: array<char>, len: nat, kind: Kind)
      requires Terminated(buffer[..]) && len < buffer.Length
      modifies this, buffer
      ensures Parse(OK, Snapshot(), buffer[..]) == StartLine(old(buffer[..]), len, old(Snapshot()), kind)
    {
      hide Snapshot, SetFirst, SetSecondAndThird, Find, CString, StartLine;
      ghost var b, f := buffer[..], Snapshot();
      var counter, start := 1, 0;
      var i := 0;
      while i < len
        invariant 0 <= i <= len && Terminated(buffer[..])
        invariant counter == 1 ==>
                    start == 0 && buffer[..] == b && Snapshot() == f && Find(b, ' ', 0, len) == Find(b, ' ', i, len)
        invariant counter != 1 ==>
                    var p := Find(b, ' ', 0, len);
                    && counter == 2 && p < len && start == p + 1 <= i && buffer[..] == b[p := NUL]
                    && Snapshot() == SetFirst(f, kind, CString(b[p := NUL], 0))
                    && Find(b[p := NUL], ' ', p + 1, len) == Find(b[p := NUL], ' ', i, len)
      {
        ghost var now := buffer[..];
        FindStep(now, ' ', i, len);
        if buffer[i] == ' ' {
          buffer[i] := NUL;
          assert buffer[..] == now[i := NUL];
          if counter == 1 {
            PutFirst(kind, CString(buffer[..], start));
            start := i + 1;
            counter := 2;
          } else {
            var s := CString(buffer[..], start);
            start := i + 1;
            PutSecondAndThird(kind, s, CString(buffer[..], start));
            StartLineCases(b, len, f, kind);
            return;
          }
        }
        i := i + 1;
      }
      FindStep(b, ' ', len, len);
      FindStep(buffer[..], ' ', len, len);
      StartLineCases(b, len, f, kind);
    }

    /** get_header. */
    method GetHeader(buffer: array<char>, lo: nat) returns (status: Ending)
      requires Terminated(buffer[..]) && lo < buffer.Length
      modifies this, buffer
      ensures Parse(status, Snapshot(), buffer[..]) == Header(old(buffer[..]), lo, old(Snapshot()))
    {
      hide Find, StrEnd, LowerAt, Lower, CString, Header, SetHeader, Snapshot;
      ghost var b, f := buffer[..], Snapshot();
      ghost var c := Find(b, ':', lo, StrEnd(b, lo));
      HeaderCases(b, lo, f);
      var i := lo;
      FindStep(b, ':', lo, StrEnd(b, lo));
      while i < StrEnd(buffer[..], lo) && buffer[i] != ':'
        invariant lo <= i <= StrEnd(b, lo) && buffer[..] == b && Snapshot() == f
        invariant c == Find(b, ':', i, StrEnd(b, lo))
        decreases buffer.Length - i
      {
        FindStep(b, ':', i, StrEnd(b, lo));
        i := i + 1;
      }
      FindStep(b, ':', i, StrEnd(b, lo));
      if i == StrEnd(buffer[..], lo) {
        return NULL_DEREFERENCE;
      }
      assert c == i;
      buffer[i] := NUL;
      assert buffer[..] == b[c := NUL];
      StrToLower(buffer, lo);
      var name := CString(buffer[..], lo);
      LoweredName(b, lo, c);
      if i + 2 >= buffer.Length {
        return OUT_OF_BUFFER;
      }
      var value := CString(buffer[..], i + 2);
      status := Assign(name, value);
    }

    /** The comparisons of get_header with the header names it knows. */
    method Assign(name: string, value: string) returns (status: Ending)
      modifies this
      ensures (status, Snapshot()) == SetHeader(old(Snapshot()), name, value)
    {
      status := OK;
      if name == "accept" {
        reqAccept := Some(value);
      } else if name == "from" {
        reqFrom := Some(value);
      } else if name == "host" {
        reqHost := Some(value);
      } else if name == "content-type" {
        reqContentType := Some(value);
      } else if name == "content-length" {
        var (ending, n) := StrToInt(value);
        reqContentLen := n;
        status := ending;
      }
    }

    method ReadLine(buffer: array<char>, i: nat, start: nat, kind: Kind) returns (status: Ending)
      requires Terminated(buffer[..]) && start <= i < buffer.Length - 1 && i > 0
      modifies this, buffer
      ensures Parse(status, Snapshot(), buffer[..]) == Line(old(buffer[..]), i, start, old(Snapshot()), kind)
    {
      hide Snapshot, Header;
      ghost var b := buffer[..];
      buffer[i - 1] := NUL;
      assert buffer[..] == b[i - 1 := NUL];
      if start == 0 {
        GetStartLine(buffer, i, kind);
        status := OK;
      } else {
        status := GetHeader(buffer, start);
      }
    }

    /** read_headers. */
    method ReadHeaders(text: string, kind: Kind) returns (status: Ending)
      modifies this
      ensures (status, Snapshot()) == ReadFields(text, old(Snapshot()), kind)
    {
      hide Snapshot, Line;
      var copy := CString(text + [NUL], 0) + [NUL];
      var buffer := new char[|copy|](k requires 0 <= k < |copy| => copy[k]);
      assert buffer[..] == copy;
      ghost var whole := Run(copy, 0, 0, Snapshot(), kind);
      var start := 0;
      var i := 0;
      var length := buffer.Length - 1;
      while i < length
        invariant 0 <= start <= i <= length && Terminated(buffer[..])
        invariant whole == Run(buffer[..], i, start, Snapshot(), kind)
      {
        if buffer[i] == LF {
          if i == 0 {
            return OUT_OF_BUFFER;
          }
          status := ReadLine(buffer, i, start, kind);
          if status != OK {
            return;
          }
          start := i + 1;
          if buffer[i + 1] == CR && buffer[i + 2] == LF {
            return OK;
          }
        }
        i := i + 1;
      }
      status := OK;
    }
  }

  lemma LoweredName(b: seq<char>, lo: nat, c: nat)
    requires Terminated(b) && lo < |b| && lo <= c < StrEnd(b, lo)
    ensures Terminated(b[c := NUL]) && CString(LowerAt(b[c := NUL], lo), lo) == Lower(b[lo..c])
  {
    hide LowerBetween, LowerChar, StrEnd;
    ColonEnds(b, lo, c);
    LowerAtIs(b[c := NUL], lo);
    var b2 := LowerAt(b[c := NUL], lo);
    assert b2[lo..c] == Lower(b[lo..c]);
    forall k | lo <= k < c
      ensures b2[k] != NUL
    {
      LowerIsNotNul(b[k]);
    }
    StrEndIs(b2, lo, c);
  }

  lemma LowerIsNotNul(c: char)
    ensures LowerChar(c) == NUL <==> c == NUL
  {
  }

  lemma LowerAtIs(b: seq<char>, lo: nat)
    requires Terminated(b) && lo < |b|
    ensures LowerAt(b, lo) == LowerBetween(b, lo, StrEnd(b, lo))
  {
  }
}
