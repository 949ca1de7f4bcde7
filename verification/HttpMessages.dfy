/** Messages as they are laid out on the wire (sections 3, 3.1 and 3.2 of RFC 7230), and what the parser makes of
    them. */
module HttpMessages {
  import opened Common
  import opened HttpParser

  const CRLF := [CR, LF]

  /** A header line, split at its first colon if it has one. */
  datatype HeaderLine = Field(name: string, rest: string) | Bare(text: string)

  /** Three start-line fields and the header lines, in order. */
  datatype Message = Message(first: string, second: string, third: string, headers: seq<HeaderLine>)

  predicate Clean(s: string) { forall k :: 0 <= k < |s| ==> s[k] != CR && s[k] != LF && s[k] != NUL }

  predicate Without(s: string, c: char) { forall k :: 0 <= k < |s| ==> s[k] != c }

  predicate ValidHeader(h: HeaderLine) {
    match h
    case Field(name, rest) => Clean(name) && Without(name, ':') && Clean(rest)
    case Bare(text) => text != "" && Clean(text) && Without(text, ':')
  }

  /** No line holds a line end or a NUL; blanks separate the first two start-line fields. */
  predicate Valid(m: Message) {
    && Clean(m.first) && Without(m.first, ' ') && Clean(m.second) && Without(m.second, ' ') && Clean(m.third)
    && ValidHeaders(m.headers)
  }

  predicate ValidHeaders(hs: seq<HeaderLine>) { forall k :: 0 <= k < |hs| ==> ValidHeader(hs[k]) }

  function StartText(m: Message): string { m.first + (" " + (m.second + (" " + m.third))) }

  function HeaderText(h: HeaderLine): string {
    match h
    case Field(name, rest) => name + (":" + rest)
    case Bare(text) => text
  }

  /** Every line that is not empty and holds no line end is a header line in this sense. */
  lemma EveryLineIsAHeader(line: string) returns (h: HeaderLine)
    requires Clean(line) && line != ""
    ensures ValidHeader(h) && HeaderText(h) == line
  {
    var c := Find(line, ':', 0, |line|);
    if c == |line| {
      h := Bare(line);
    } else {
      h := Field(line[..c], line[c + 1..]);
      assert line == line[..c] + ([line[c]] + line[c + 1..]);
    }
  }

  function RenderHeaders(hs: seq<HeaderLine>): string {
    if hs == [] then "" else HeaderText(hs[0]) + CRLF + RenderHeaders(hs[1..])
  }

  /** What may stand behind the header lines: a blank line and whatever follows it, or a last line that is cut off. */
  predicate Ends(end: string) { Without(end, NUL) && (CRLF <= end || Without(end, LF)) }

  /** What follows a line: the header lines behind it and the end of the text. */
  function Following(hs: seq<HeaderLine>, end: string): string { RenderHeaders(hs) + end }

  /** The text from the line feed of a line on. */
  function Spill(hs: seq<HeaderLine>, end: string): string { [LF] + Following(hs, end) }

  function Render(m: Message): string { StartText(m) + CRLF + Following(m.headers, CRLF) }

  /** What the parser takes for the value: it skips the byte after the colon without looking at it, and when there is
      none it has left the line and reads on from the line feed. */
  function Taken(rest: string, spill: string): string { if rest != "" then rest[1..] else spill }

  /** The effect of one header line; `spill` is the text from its line feed on. */
  function Effect(h: HeaderLine, spill: string, f: Fields): (Ending, Fields) {
    match h
    case Field(name, rest) => SetHeader(f, Lower(name), Taken(rest, spill))
    case Bare(_) => (NULL_DEREFERENCE, f)
  }

  /** What the header lines mean, in order, up to the first one that ends the parse. */
  function Interpret(hs: seq<HeaderLine>, end: string, f: Fields): (Ending, Fields) {
    if hs == [] then (OK, f)
    else
      var (status, f1) := Effect(hs[0], Spill(hs[1..], end), f);
      if status.OK? then Interpret(hs[1..], end, f1) else (status, f1)
  }

  /** The fields that the two blanks of a start line cut out of it; with one blank there is only the first field,
      without a blank none. */
  function Started(line: string, f: Fields, kind: Kind): Fields {
    var p := Find(line, ' ', 0, |line|);
    if p == |line| then f
    else
      var q := Find(line, ' ', p + 1, |line|);
      if q == |line| then SetFirst(f, kind, line[..p])
      else SetSecondAndThird(SetFirst(f, kind, line[..p]), kind, line[p + 1..q], line[q + 1..])
  }

  function Meaning(m: Message, f: Fields, kind: Kind): (Ending, Fields) {
    Interpret(m.headers, CRLF, Started(StartText(m), f, kind))
  }

  /** The fields by name: which of them a start line sets, for both kinds and any number of blanks. */
  lemma StartedIs(first: string, second: string, third: string, f: Fields, kind: Kind)
    requires Without(first, ' ')
    ensures Started(first, f, kind) == f
    ensures Without(second, ' ') ==>
              Started(first + (" " + second), f, kind)
              == match kind
                 case RQST => f.(reqType := Some(first))
                 case RESP => f.(reqProtocol := Some(first))
    ensures Without(second, ' ') ==>
              Started(first + (" " + (second + (" " + third))), f, kind)
              == match kind
                 case RQST => f.(reqType := Some(first), reqResource := Some(second), reqProtocol := Some(third))
                 case RESP => f.(reqProtocol := Some(first), respCode := Some(second), respMsg := Some(third))
  {
    hide Find;
    FindWhole(first, ' ');
    if Without(second, ' ') {
      var short, long := first + (" " + second), first + (" " + (second + (" " + third)));
      FindIs(short, ' ', 0, |first|, |short|);
      FindIs(short, ' ', |first| + 1, |short|, |short|);
      FindIs(long, ' ', 0, |first|, |long|);
      FindIs(long, ' ', |first| + 1, |first| + 1 + |second|, |long|);
      assert short[..|first|] == first;
      assert long[..|first|] == first && long[|first| + 1..|first| + 1 + |second|] == second;
      assert long[|first| + 1 + |second| + 1..] == third;
    }
  }

  lemma FindWhole(s: string, c: char)
    requires Without(s, c)
    ensures Find(s, c, 0, |s|) == |s|
  {
  }

  // ------------------------------------------------------------------ positions in the buffer

  /** The text s stands at position lo of the buffer. */
  predicate At(b: seq<char>, lo: nat, s: string) { lo + |s| <= |b| && b[lo..lo + |s|] == s }

  lemma AtIndex(b: seq<char>, lo: nat, s: string, k: nat)
    requires At(b, lo, s) && k < |s|
    ensures b[lo + k] == s[k]
  {
    assert b[lo..lo + |s|][k] == s[k];
  }

  lemma AtSplit(b: seq<char>, lo: nat, s: string, t: string)
    requires At(b, lo, s + t)
    ensures At(b, lo, s) && At(b, lo + |s|, t)
  {
    assert b[lo..lo + |s|] == b[lo..lo + |s + t|][..|s|] == s;
    assert b[lo + |s|..lo + |s + t|] == b[lo..lo + |s + t|][|s|..] == t;
  }

  lemma AtKept(b: seq<char>, b': seq<char>, from: nat, lo: nat, s: string)
    requires At(b, lo, s) && from <= lo && from <= |b| == |b'| && b'[from..] == b[from..]
    ensures At(b', lo, s)
  {
    forall k | 0 <= k < |s|
      ensures b'[lo + k] == s[k]
    {
      AtIndex(b, lo, s, k);
      assert b'[from..][lo + k - from] == b[from..][lo + k - from];
    }
    assert b'[lo..lo + |s|] == s;
  }

  lemma CleanEnd(b: seq<char>, lo: nat, s: string)
    requires Terminated(b) && At(b, lo, s) && Clean(s) && lo + |s| < |b| && b[lo + |s|] == NUL
    ensures StrEnd(b, lo) == lo + |s| && CString(b, lo) == s
  {
    forall k | lo <= k < lo + |s|
      ensures b[k] != NUL
    {
      AtIndex(b, lo, s, k - lo);
    }
    StrEndIs(b, lo, lo + |s|);
  }

  lemma FindIs(b: seq<char>, c: char, lo: nat, p: nat, hi: nat)
    requires lo <= p <= hi <= |b| && (p < hi ==> b[p] == c)
    requires forall k :: lo <= k < p ==> b[k] != c
    ensures Find(b, c, lo, hi) == p
  {
  }

  lemma FindAfter(b: seq<char>, c: char, lo: nat, s: string, hi: nat)
    requires At(b, lo, s) && Without(s, c) && lo + |s| <= hi <= |b| && (lo + |s| < hi ==> b[lo + |s|] == c)
    ensures Find(b, c, lo, hi) == lo + |s|
  {
    forall k | lo <= k < lo + |s|
      ensures b[k] != c
    {
      AtIndex(b, lo, s, k - lo);
    }
    FindIs(b, c, lo, lo + |s|, hi);
  }

  lemma AtUpdate(b: seq<char>, lo: nat, s: string, i: nat, c: char)
    requires At(b, lo, s) && i < |b| && (i < lo || lo + |s| <= i)
    ensures At(b[i := c], lo, s)
  {
  }

  /** Strings that run to the same NUL are the same. */
  lemma CStringOfSuffix(b: seq<char>, b': seq<char>, k: nat)
    requires Terminated(b) && Terminated(b') && k < |b| == |b'| && b[k..] == b'[k..]
    ensures CString(b, k) == CString(b', k)
  {
    var e := StrEnd(b, k);
    forall j | k <= j < |b|
      ensures b'[j] == b[j]
    {
      assert b'[k..][j - k] == b[k..][j - k];
    }
    StrEndIs(b', k, e);
    assert b[k..e] == b'[k..e];
  }

  // ------------------------------------------------------------------ one header line

  lemma HeaderTextIsClean(h: HeaderLine)
    requires ValidHeader(h)
    ensures Clean(HeaderText(h)) && HeaderText(h) != "" && HeaderText(h)[0] != CR
  {
  }

  lemma ByteBetween(b: seq<char>, lo: nat, s: string, c: char, t: string)
    requires At(b, lo, s + ([c] + t))
    ensures At(b, lo, s) && lo + |s| < |b| && b[lo + |s|] == c && At(b, lo + |s| + 1, t)
  {
    hide At;
    AtSplit(b, lo, s, [c] + t);
    AtSplit(b, lo + |s|, [c], t);
    AtIndex(b, lo + |s|, [c], 0);
    AtFits(b, lo + |s|, [c]);
  }

  /** Where the colon of a line stands, and what follows it. */
  lemma FieldLayout(b: seq<char>, lo: nat, name: string, rest: string)
    requires Terminated(b) && Clean(name) && Without(name, ':') && Clean(rest) && At(b, lo, name + (":" + rest))
    requires lo + |name| + 1 + |rest| < |b| && b[lo + |name| + 1 + |rest|] == NUL
    ensures StrEnd(b, lo) == lo + |name| + 1 + |rest|
    ensures Find(b, ':', lo, StrEnd(b, lo)) == lo + |name|
    ensures b[lo..lo + |name|] == name && At(b, lo + |name| + 1, rest)
  {
    hide At, Clean, Without, Find, StrEnd, HeaderText, Terminated;
    FieldIsClean(name, rest);
    CleanEnd(b, lo, name + (":" + rest));
    ByteBetween(b, lo, name, ':', rest);
    FindAfter(b, ':', lo, name, StrEnd(b, lo));
    AtIs(b, lo, name);
  }

  lemma ValidField(name: string, rest: string)
    ensures ValidHeader(Field(name, rest)) <==> Clean(name) && Without(name, ':') && Clean(rest)
  {
  }

  lemma FieldIsClean(name: string, rest: string)
    requires Clean(name) && Clean(rest)
    ensures Clean(name + (":" + rest))
  {
  }

  lemma AtIs(b: seq<char>, lo: nat, s: string)
    requires At(b, lo, s)
    ensures lo + |s| <= |b| && b[lo..lo + |s|] == s
  {
  }

  /** The value of a field after its name has been ended by a NUL and lowered. */
  lemma FieldValue(b: seq<char>, lo: nat, name: string, rest: string)
    requires Terminated(b) && Clean(name) && Without(name, ':') && Clean(rest) && At(b, lo, name + (":" + rest))
    requires lo + |name| + 2 + |rest| < |b| && b[lo + |name| + 1 + |rest|] == NUL
    ensures var c := lo + |name|;
            && Terminated(b[c := NUL])
            && CString(LowerAt(b[c := NUL], lo), c + 2) == Taken(rest, CString(b, c + 2 + |rest|))
  {
    hide At, Clean, Without, Find, LowerAt, CString, StrEnd;
    var e, c := lo + |name| + 1 + |rest|, lo + |name|;
    FieldLayout(b, lo, name, rest);
    ColonEnds(b, lo, c);
    var b1 := b[c := NUL];
    var b2 := LowerAt(b1, lo);
    assert StrEnd(b1, lo) == c && b2[c..] == b1[c..];
    if rest == "" {
      assert b2[c + 2..] == b2[c..][2..] == b1[c..][2..] == b[c + 2..];
      CStringOfSuffix(b, b2, c + 2);
    } else {
      assert rest == [rest[0]] + rest[1..];
      AtSplit(b, c + 1, [rest[0]], rest[1..]);
      AtUpdate(b, c + 2, rest[1..], c, NUL);
      AtKept(b1, b2, c, c + 2, rest[1..]);
      assert b2[e] == NUL by {
        assert b2[c..][e - c] == b1[c..][e - c] == b[e];
      }
      CleanTail(rest);
      CleanEnd(b2, c + 2, rest[1..]);
    }
  }

  lemma CleanTail(s: string)
    requires Clean(s) && s != ""
    ensures Clean(s[1..])
  {
  }

  lemma BareLayout(b: seq<char>, lo: nat, text: string)
    requires Terminated(b) && Clean(text) && Without(text, ':') && At(b, lo, text)
    requires lo + |text| < |b| && b[lo + |text|] == NUL
    ensures StrEnd(b, lo) == lo + |text| == Find(b, ':', lo, StrEnd(b, lo))
  {
    hide At, Clean, Without, Find, StrEnd;
    CleanEnd(b, lo, text);
    FindAfter(b, ':', lo, text, StrEnd(b, lo));
  }

  /** get_header on a line that already ends in a NUL. */
  lemma HeaderEffect(b: seq<char>, lo: nat, h: HeaderLine, f: Fields)
    requires Terminated(b) && ValidHeader(h) && At(b, lo, HeaderText(h))
    requires lo + |HeaderText(h)| + 1 < |b| && b[lo + |HeaderText(h)|] == NUL
    ensures StrEnd(b, lo) == lo + |HeaderText(h)|
    ensures (Header(b, lo, f).status, Header(b, lo, f).fields) == Effect(h, CString(b, lo + |HeaderText(h)| + 1), f)
  {
    hide At, Clean, Without, Find, Lower, SetHeader, StrEnd, LowerAt, CString, Header, Terminated;
    match h
    case Field(name, rest) => FieldEffect(b, lo, name, rest, f);
    case Bare(text) =>
      BareLayout(b, lo, text);
      HeaderCases(b, lo, f);
  }

  lemma FieldEffect(b: seq<char>, lo: nat, name: string, rest: string, f: Fields)
    requires Terminated(b) && Clean(name) && Without(name, ':') && Clean(rest) && At(b, lo, name + (":" + rest))
    requires lo + |name| + 2 + |rest| < |b| && b[lo + |name| + 1 + |rest|] == NUL
    ensures StrEnd(b, lo) == lo + |name| + 1 + |rest|
    ensures (Header(b, lo, f).status, Header(b, lo, f).fields)
         == SetHeader(f, Lower(name), Taken(rest, CString(b, lo + |name| + 2 + |rest|)))
  {
    hide At, Clean, Without, Find, Lower, SetHeader, StrEnd, LowerAt, CString, Header, Terminated, Taken;
    HeaderCases(b, lo, f);
    FieldLayout(b, lo, name, rest);
    FieldValue(b, lo, name, rest);
  }

  lemma StartParts(m: Message)
    requires Valid(m)
    ensures Clean(m.first) && Without(m.first, ' ') && Clean(m.second) && Without(m.second, ' ') && Clean(m.third)
  {
  }

  /** Where the blanks of a well-formed start line stand. */
  lemma StartLayout(b: seq<char>, m: Message)
    requires Valid(m) && At(b, 0, StartText(m)) && |StartText(m)| + 1 < |b|
    ensures var p, q, len := |m.first|, |m.first| + 1 + |m.second|, |StartText(m)| + 1;
            && q + 1 + |m.third| + 1 == len
            && At(b, 0, m.first) && At(b, p + 1, m.second) && At(b, q + 1, m.third)
            && b[p] == ' ' && b[q] == ' '
            && Find(b, ' ', 0, len) == p && Find(b, ' ', p + 1, len) == q
  {
    hide At, Clean, Without, Find, Valid;
    StartParts(m);
    var len := |StartText(m)| + 1;
    var p, q := |m.first|, |m.first| + 1 + |m.second|;
    ByteBetween(b, 0, m.first, ' ', m.second + (" " + m.third));
    ByteBetween(b, p + 1, m.second, ' ', m.third);
    FindAfter(b, ' ', 0, m.first, len);
    FindAfter(b, ' ', p + 1, m.second, len);
  }

  /** The start line once its first blank has become a NUL. */
  lemma FirstCut(b: seq<char>, m: Message)
    requires Terminated(b) && Valid(m) && At(b, 0, StartText(m)) && |StartText(m)| + 1 < |b|
    ensures var p, q, len := |m.first|, |m.first| + 1 + |m.second|, |StartText(m)| + 1;
            && q + 2 + |m.third| == len && Find(b, ' ', 0, len) == p
            && var b1 := b[p := NUL];
               && Terminated(b1) && CString(b1, 0) == m.first && Find(b1, ' ', p + 1, len) == q
               && At(b1, p + 1, m.second) && At(b1, q + 1, m.third)
  {
    hide At, Clean, Without, Find, CString, StrEnd, StartText, Valid;
    var len, p, q := |StartText(m)| + 1, |m.first|, |m.first| + 1 + |m.second|;
    StartLayout(b, m);
    StartParts(m);
    var b1 := b[p := NUL];
    AtUpdate(b, 0, m.first, p, NUL);
    AtUpdate(b, p + 1, m.second, p, NUL);
    AtUpdate(b, q + 1, m.third, p, NUL);
    FindAfter(b1, ' ', p + 1, m.second, len);
    CleanEnd(b1, 0, m.first);
  }

  /** The rest of the line once its second blank has become a NUL too. */
  lemma SecondCut(b: seq<char>, at: nat, second: string, third: string)
    requires Terminated(b) && Clean(second) && Clean(third)
    requires At(b, at, second) && At(b, at + |second| + 1, third)
    requires at + |second| + 1 + |third| < |b| && b[at + |second| + 1 + |third|] == NUL
    ensures var b2 := b[at + |second| := NUL];
            && Terminated(b2) && CString(b2, at) == second && CString(b2, at + |second| + 1) == third
  {
    hide At, Clean, CString, StrEnd;
    var q := at + |second|;
    AtUpdate(b, at, second, q, NUL);
    AtUpdate(b, q + 1, third, q, NUL);
    CleanEnd(b[q := NUL], at, second);
    CleanEnd(b[q := NUL], q + 1, third);
  }

  /** get_request or get_response on a well-formed start line that already ends in a NUL. */
  lemma StartEffect(b: seq<char>, m: Message, f: Fields, kind: Kind)
    requires Terminated(b) && Valid(m) && At(b, 0, StartText(m))
    requires |StartText(m)| + 1 < |b| && b[|StartText(m)|] == NUL
    ensures var r := StartLine(b, |StartText(m)| + 1, f, kind);
            r.status == OK && r.fields == SetSecondAndThird(SetFirst(f, kind, m.first), kind, m.second, m.third)
  {
    hide At, Clean, Without, Find, CString, StrEnd, StartText, StartLine, Valid, SetFirst, SetSecondAndThird;
    hide Terminated;
    StartParts(m);
    FirstCut(b, m);
    SecondCut(b[|m.first| := NUL], |m.first| + 1, m.second, m.third);
    StartLineCases(b, |StartText(m)| + 1, f, kind);
  }

  /** The same for a start line with one blank, or none. */
  lemma ShortStartEffect(b: seq<char>, line: string, f: Fields, kind: Kind)
    requires Terminated(b) && Clean(line) && At(b, 0, line) && |line| + 1 < |b| && b[|line|] == NUL
    requires var p := Find(line, ' ', 0, |line|); p < |line| ==> Find(line, ' ', p + 1, |line|) == |line|
    ensures var r := StartLine(b, |line| + 1, f, kind); r.status == OK && r.fields == Started(line, f, kind)
  {
    hide Find, CString, StrEnd, StartLine, SetFirst, SetSecondAndThird, Clean;
    var p, len := Find(line, ' ', 0, |line|), |line| + 1;
    assert forall k :: 0 <= k < |line| ==> b[k] == b[0..|line|][k] == line[k];
    FindIs(b, ' ', 0, if p == |line| then len else p, len);
    if p < |line| {
      var b1 := b[p := NUL];
      FindIs(b1, ' ', p + 1, len, len);
      assert At(b1, 0, line[..p]) by { assert b1[0..p] == line[..p]; }
      CleanPart(line, p);
      CleanEnd(b1, 0, line[..p]);
    }
    StartLineCases(b, len, f, kind);
  }

  lemma CleanPart(line: string, p: nat)
    requires Clean(line) && p <= |line|
    ensures Clean(line[..p])
  {
  }

  /** A start line with two blanks or more is the start line of a message. */
  function MessageOf(line: string, p: nat, q: nat): Message
    requires p < q < |line|
  {
    Message(line[..p], line[p + 1..q], line[q + 1..], [])
  }

  lemma MessageOfLine(line: string)
    requires Clean(line)
    requires var p := Find(line, ' ', 0, |line|); p < |line| && Find(line, ' ', p + 1, |line|) < |line|
    ensures var p := Find(line, ' ', 0, |line|);
            var m := MessageOf(line, p, Find(line, ' ', p + 1, |line|));
            Valid(m) && StartText(m) == line
  {
    hide StartText, Find, Clean, Without;
    var p := Find(line, ' ', 0, |line|);
    var q := Find(line, ' ', p + 1, |line|);
    StartTextOf(line, p, q);
    SliceKeeps(line, 0, p, ' ');
    SliceKeeps(line, p + 1, q, ' ');
    SliceKeeps(line, q + 1, |line|, ' ');
    assert line[..p] == line[0..p] && line[q + 1..] == line[q + 1..|line|];
  }

  lemma SliceKeeps(s: string, lo: nat, hi: nat, c: char)
    requires lo <= hi <= |s| && Clean(s)
    ensures Clean(s[lo..hi]) && ((forall k :: lo <= k < hi ==> s[k] != c) ==> Without(s[lo..hi], c))
  {
    assert forall k :: 0 <= k < hi - lo ==> s[lo..hi][k] == s[lo + k];
  }

  lemma StartTextOf(line: string, p: nat, q: nat)
    requires p < q < |line| && line[p] == line[q] == ' '
    ensures StartText(MessageOf(line, p, q)) == line
  {
    SliceOfTail(line, p, q);
    JoinAt(line, p, ' ');
    JoinAt(line[p + 1..], q - p - 1, ' ');
  }

  lemma SliceOfTail(line: string, p: nat, q: nat)
    requires p < q < |line|
    ensures var rest := line[p + 1..];
            |rest| == |line| - p - 1 && rest[q - p - 1] == line[q]
            && rest[..q - p - 1] == line[p + 1..q] && rest[q - p - 1 + 1..] == line[q + 1..]
  {
  }

  lemma JoinAt(s: string, k: nat, c: char)
    requires k < |s| && s[k] == c
    ensures s == s[..k] + ([c] + s[k + 1..])
  {
  }

  lemma AnyStartEffect(b: seq<char>, line: string, f: Fields, kind: Kind)
    requires Terminated(b) && Clean(line) && At(b, 0, line) && |line| + 1 < |b| && b[|line|] == NUL
    ensures var r := StartLine(b, |line| + 1, f, kind); r.status == OK && r.fields == Started(line, f, kind)
  {
    hide At, Clean, Find, StartLine, SetFirst, SetSecondAndThird, Valid, StartText, Terminated;
    var p := Find(line, ' ', 0, |line|);
    if p < |line| && Find(line, ' ', p + 1, |line|) < |line| {
      MessageOfLine(line);
      StartEffect(b, MessageOf(line, p, Find(line, ' ', p + 1, |line|)), f, kind);
    } else {
      ShortStartEffect(b, line, f, kind);
    }
  }

  // ------------------------------------------------------------------ parse of print

  lemma {:induction false} RunSkips(b: seq<char>, i: nat, j: nat, start: nat, f: Fields, kind: Kind)
    requires Terminated(b) && start <= i <= j < |b|
    requires forall k :: i <= k < j ==> b[k] != LF
    ensures Run(b, i, start, f, kind) == Run(b, j, start, f, kind)
    decreases j - i
  {
    if i < j {
      RunSkips(b, i + 1, j, start, f, kind);
    }
  }

  /** What the loop returns once the line that ends at nl has been taken. */
  function Continued(r: Parse, nl: nat, kind: Kind): Parse
    requires Terminated(r.buffer) && nl + 1 < |r.buffer|
  {
    if !r.status.OK? || BlankLineAt(r.buffer, nl + 1) then r
    else Run(r.buffer, nl + 1, nl + 1, r.fields, kind)
  }

  /** The loop up to the first line feed, and what follows the line that ends there. */
  lemma RunLine(b: seq<char>, lo: nat, nl: nat, f: Fields, kind: Kind)
    requires Terminated(b) && lo < nl < |b| - 1 && b[nl] == LF
    requires forall k :: lo <= k < nl ==> b[k] != LF
    ensures Run(b, lo, lo, f, kind) == Continued(Line(b, nl, lo, f, kind), nl, kind)
  {
    hide Line;
    RunSkips(b, lo, nl, lo, f, kind);
  }

  /** The first line feed of a line of text followed by CRLF is its last byte. */
  lemma LineEnds(b: seq<char>, lo: nat, line: string)
    requires Terminated(b) && Clean(line) && At(b, lo, line + CRLF)
    ensures lo + |line| + 2 < |b| && b[lo + |line| + 1] == LF
    ensures forall k :: lo <= k <= lo + |line| ==> b[k] != LF
  {
    AtSplit(b, lo, line, CRLF);
    AtIndex(b, lo + |line|, CRLF, 0);
    AtIndex(b, lo + |line|, CRLF, 1);
    forall k | lo <= k < lo + |line|
      ensures b[k] != LF
    {
      AtIndex(b, lo, line, k - lo);
    }
  }

  /** A line of text followed by CRLF, once its carriage return has become a NUL. */
  lemma EndedLine(b: seq<char>, lo: nat, line: string)
    requires Terminated(b) && At(b, lo, line + CRLF)
    ensures lo + |line| + 2 < |b|
    ensures var b' := b[lo + |line| := NUL];
            && Terminated(b') && At(b', lo, line) && b'[lo + |line|] == NUL
            && forall k :: lo + |line| < k < |b| ==> b'[k] == b[k]
  {
    hide At;
    AtSplit(b, lo, line, CRLF);
    assert lo + |line| + 2 <= |b| by {
      assert At(b, lo, line + CRLF) ==> lo + |line + CRLF| <= |b| by { AtFits(b, lo, line + CRLF); }
    }
    AtIndex(b, lo + |line|, CRLF, 1);
    assert b[|b| - 1] == NUL && b[lo + |line| + 1] == LF;
    AtUpdate(b, lo, line, lo + |line|, NUL);
  }

  lemma AtFits(b: seq<char>, lo: nat, s: string)
    requires At(b, lo, s)
    ensures lo + |s| <= |b|
  {
  }

  lemma SameSuffix(r: seq<char>, b': seq<char>, b: seq<char>, k: nat, from: nat)
    requires k < from <= |b| == |b'| == |r| && r[k..] == b'[k..]
    requires forall j :: from <= j < |b| ==> b'[j] == b[j]
    ensures r[from..] == b[from..]
  {
    assert r[from..] == r[k..][from - k..] == b'[k..][from - k..] == b'[from..];
  }

  /** What a header line with its CRLF does, and that what follows it is untouched. */
  lemma HeaderLineEffect(b: seq<char>, lo: nat, h: HeaderLine, f: Fields, kind: Kind)
    requires Terminated(b) && lo > 0 && ValidHeader(h) && At(b, lo, HeaderText(h) + CRLF)
    ensures lo + |HeaderText(h)| + 2 < |b|
    ensures var nl := lo + |HeaderText(h)| + 1;
            var r := Line(b, nl, lo, f, kind);
            (r.status, r.fields) == Effect(h, CString(b, nl), f) && r.buffer[nl + 1..] == b[nl + 1..]
  {
    hide At, HeaderText, ValidHeader, Header, StrEnd, Effect, CString, Terminated;
    var nl := lo + |HeaderText(h)| + 1;
    EndedLine(b, lo, HeaderText(h));
    var b' := b[nl - 1 := NUL];
    HeaderEffect(b', lo, h, f);
    assert b'[nl..] == b[nl..];
    CStringOfSuffix(b, b', nl);
    var r := Header(b', lo, f);
    assert r.buffer[nl - 1..] == b'[nl - 1..];
    SameSuffix(r.buffer, b', b, nl - 1, nl + 1);
  }

  /** The text that follows the start line: header lines, the end of the text, the terminator. */
  function Rest(hs: seq<HeaderLine>, end: string): seq<char> { Following(hs, end) + [NUL] }

  lemma ValidParts(hs: seq<HeaderLine>)
    requires ValidHeaders(hs) && hs != []
    ensures ValidHeader(hs[0]) && ValidHeaders(hs[1..])
  {
  }

  lemma RestUnfolds(hs: seq<HeaderLine>, end: string)
    ensures hs == [] ==> Rest(hs, end) == end + [NUL]
    ensures hs != [] ==> Rest(hs, end) == HeaderText(hs[0]) + CRLF + Rest(hs[1..], end)
  {
  }

  /** The header lines are over, and a blank line follows. */
  predicate Over(hs: seq<HeaderLine>, end: string) { hs == [] && CRLF <= end }

  /** A line end is followed by a CRLF exactly when the headers are over. */
  lemma RestStarts(hs: seq<HeaderLine>, end: string)
    requires ValidHeaders(hs) && Ends(end)
    ensures var t := Rest(hs, end);
            |t| >= 1 && (t[0] == CR ==> |t| >= 2) && (t[0] == CR && t[1] == LF <==> Over(hs, end))
  {
    RestUnfolds(hs, end);
    if hs != [] {
      HeaderTextIsClean(hs[0]);
    }
  }

  lemma SuffixIndex(b: seq<char>, lo: nat, s: seq<char>)
    requires lo <= |b| && b[lo..] == s
    ensures forall k :: 0 <= k < |s| ==> b[lo..][k] == s[k]
    ensures |b| == lo + |s|
    ensures |s| > 0 ==> b[lo] == s[0]
    ensures |s| > 1 ==> b[lo + 1] == s[1]
  {
    assert |s| > 0 ==> b[lo] == b[lo..][0];
    assert |s| > 1 ==> b[lo + 1] == b[lo..][1];
  }

  /** Nothing but the text s is left from position lo on. */
  predicate Tail(b: seq<char>, lo: nat, s: seq<char>) { lo <= |b| && b[lo..] == s }

  lemma TailSplit(b: seq<char>, lo: nat, line: string, tail: seq<char>)
    requires Tail(b, lo, line + tail)
    ensures At(b, lo, line) && Tail(b, lo + |line|, tail)
  {
    assert b[lo..lo + |line|] == b[lo..][..|line|] == line;
    assert b[lo + |line|..] == b[lo..][|line|..] == tail;
  }

  /** The loop over one line in front of the headers hs: it stops there on an error or when no header is left. */
  lemma RunLineBefore(b: seq<char>, lo: nat, line: string, hs: seq<HeaderLine>, end: string, f: Fields, kind: Kind)
    requires Terminated(b) && Clean(line) && ValidHeaders(hs) && Ends(end)
    requires At(b, lo, line + CRLF) && lo + |line| + 2 < |b| && Tail(b, lo + |line| + 2, Rest(hs, end))
    requires var nl := lo + |line| + 1; Line(b, nl, lo, f, kind).buffer[nl + 1..] == b[nl + 1..]
    ensures var nl := lo + |line| + 1;
            var r := Line(b, nl, lo, f, kind);
            && Tail(r.buffer, nl + 1, Rest(hs, end))
            && Run(b, lo, lo, f, kind) ==
               if !r.status.OK? || Over(hs, end) then r else Run(r.buffer, nl + 1, nl + 1, r.fields, kind)
  {
    hide At, Clean, ValidHeaders, Rest, Run, Line, Terminated, Ends, Over;
    RestStarts(hs, end);
    var nl := lo + |line| + 1;
    LineEnds(b, lo, line);
    RunLine(b, lo, nl, f, kind);
    var r := Line(b, nl, lo, f, kind);
    SuffixIndex(r.buffer, nl + 1, Rest(hs, end));
  }

  /** The loop over a last line that is cut off: nothing is taken from it. */
  lemma RunTail(b: seq<char>, lo: nat, end: string, f: Fields, kind: Kind)
    requires Terminated(b) && lo < |b| && Tail(b, lo, end + [NUL]) && Without(end, LF)
    ensures Run(b, lo, lo, f, kind) == Parse(OK, f, b)
  {
    forall k | lo <= k < |b| - 1
      ensures b[k] != LF
    {
      assert b[k] == b[lo..][k - lo] == (end + [NUL])[k - lo];
    }
    RunSkips(b, lo, |b| - 1, lo, f, kind);
  }

  /** From the line feed of the first header on, the buffer is one C string. */
  lemma SpillIs(b: seq<char>, lo: nat, hs: seq<HeaderLine>, end: string)
    requires Terminated(b) && hs != [] && ValidHeaders(hs) && Ends(end) && Tail(b, lo, Rest(hs, end))
    ensures var nl := lo + |HeaderText(hs[0])| + 1;
            nl < |b| && CString(b, nl) == Spill(hs[1..], end)
  {
    hide Terminated, StrEnd, CString, HeaderText, ValidHeader, Rest, Spill, Tail, Following, RenderHeaders;
    var nl := lo + |HeaderText(hs[0])| + 1;
    ValidParts(hs);
    SpillHasNoNul(hs[1..], end);
    RestFromSpill(hs, end);
    TailSplit(b, lo, HeaderText(hs[0]) + [CR], Spill(hs[1..], end) + [NUL]);
    NulAtEnd(b, nl, Spill(hs[1..], end));
  }

  lemma SpillHasNoNul(hs: seq<HeaderLine>, end: string)
    requires ValidHeaders(hs) && Ends(end)
    ensures Without(Spill(hs, end), NUL)
  {
    hide ValidHeaders;
    HeadersHaveNoNul(hs, end);
  }

  lemma RestFromSpill(hs: seq<HeaderLine>, end: string)
    requires hs != []
    ensures Rest(hs, end) == (HeaderText(hs[0]) + [CR]) + (Spill(hs[1..], end) + [NUL])
  {
    hide HeaderText;
  }

  lemma NulAtEnd(b: seq<char>, k: nat, s: string)
    requires Terminated(b) && Tail(b, k, s + [NUL]) && Without(s, NUL)
    ensures k < |b| && CString(b, k) == s
  {
    forall j | k <= j < k + |s|
      ensures b[j] == s[j - k]
    {
      assert b[k..][j - k] == (s + [NUL])[j - k];
    }
    StrEndIs(b, k, k + |s|);
    assert b[k..k + |s|] == s;
  }

  /** The loop over the first of the headers hs. */
  lemma RunFirstHeader(b: seq<char>, lo: nat, hs: seq<HeaderLine>, end: string, f: Fields, kind: Kind)
    requires Terminated(b) && lo > 0 && hs != [] && ValidHeaders(hs) && Ends(end) && Tail(b, lo, Rest(hs, end))
    ensures lo + |HeaderText(hs[0])| + 2 < |b|
    ensures var nl := lo + |HeaderText(hs[0])| + 1;
            var r := Line(b, nl, lo, f, kind);
            && (r.status, r.fields) == Effect(hs[0], Spill(hs[1..], end), f)
            && Tail(r.buffer, nl + 1, Rest(hs[1..], end))
            && Run(b, lo, lo, f, kind) ==
               if !r.status.OK? || Over(hs[1..], end) then r else Run(r.buffer, nl + 1, nl + 1, r.fields, kind)
  {
    hide At, Tail, Clean, HeaderText, ValidHeader, ValidHeaders, Rest, Spill, Effect, Run, Line, CString;
    hide Terminated, Ends, Over;
    var text := HeaderText(hs[0]);
    ValidParts(hs);
    HeaderTextIsClean(hs[0]);
    RestUnfolds(hs, end);
    TailSplit(b, lo, text + CRLF, Rest(hs[1..], end));
    SpillIs(b, lo, hs, end);
    HeaderLineEffect(b, lo, hs[0], f, kind);
    RunLineBefore(b, lo, text, hs[1..], end, f, kind);
  }

  lemma {:induction false} RunHeaders(b: seq<char>, lo: nat, hs: seq<HeaderLine>, end: string, f: Fields, kind: Kind)
    requires Terminated(b) && 0 < lo < |b| && !Over(hs, end) && ValidHeaders(hs) && Ends(end)
    requires Tail(b, lo, Rest(hs, end))
    ensures (Run(b, lo, lo, f, kind).status, Run(b, lo, lo, f, kind).fields) == Interpret(hs, end, f)
    decreases |hs|
  {
    hide At, Tail, Clean, HeaderText, ValidHeader, ValidHeaders, Rest, Spill, Effect, Run, Line, Terminated, Without;
    if hs == [] {
      RestUnfolds(hs, end);
      RunTail(b, lo, end, f, kind);
    } else {
      ValidParts(hs);
      var nl := lo + |HeaderText(hs[0])| + 1;
      RunFirstHeader(b, lo, hs, end, f, kind);
      var r := Line(b, nl, lo, f, kind);
      if r.status.OK? && !Over(hs[1..], end) {
        RunHeaders(r.buffer, nl + 1, hs[1..], end, r.fields, kind);
      }
    }
  }

  lemma StartLineEffect(b: seq<char>, line: string, f: Fields, kind: Kind)
    requires Terminated(b) && Clean(line) && At(b, 0, line + CRLF)
    ensures |line| + 2 < |b|
    ensures var nl := |line| + 1;
            var r := Line(b, nl, 0, f, kind);
            && r.status == OK && r.buffer[nl + 1..] == b[nl + 1..] && r.fields == Started(line, f, kind)
  {
    hide At, Clean, StartLine, Started, Terminated;
    var nl := |line| + 1;
    EndedLine(b, 0, line);
    var b' := b[nl - 1 := NUL];
    AnyStartEffect(b', line, f, kind);
    var r := StartLine(b', nl, f, kind);
    SameSuffix(r.buffer, b', b, nl, nl + 1);
  }

  /** Whatever byte stands in front of a line feed is taken for the end of the line and lost. */
  lemma LastByteIsLost(b: seq<char>, nl: nat, lo: nat, c: char, f: Fields, kind: Kind)
    requires Terminated(b) && lo <= nl < |b| - 1 && nl > 0
    ensures Terminated(b[nl - 1 := c]) && Line(b[nl - 1 := c], nl, lo, f, kind) == Line(b, nl, lo, f, kind)
  {
    assert b[nl - 1 := c][nl - 1 := NUL] == b[nl - 1 := NUL];
  }

  lemma {:induction false} HeadersHaveNoNul(hs: seq<HeaderLine>, end: string)
    requires ValidHeaders(hs) && Without(end, NUL)
    ensures Without(RenderHeaders(hs), NUL) && Without(Following(hs, end), NUL)
  {
    if hs != [] {
      HeaderTextIsClean(hs[0]);
      HeadersHaveNoNul(hs[1..], end);
    }
  }

  /** A text without a NUL is a C string of its own. */
  lemma WholeText(text: string)
    requires Without(text, NUL)
    ensures Terminated(text + [NUL]) && CString(text + [NUL], 0) == text
  {
    StrEndIs(text + [NUL], 0, |text|);
  }

  lemma RenderIsClean(m: Message)
    requires Valid(m)
    ensures Clean(StartText(m)) && StartText(m) != "" && ValidHeaders(m.headers) && Without(Render(m), NUL)
    ensures CString(Render(m) + [NUL], 0) == Render(m)
  {
    HeadersHaveNoNul(m.headers, CRLF);
    assert Clean(StartText(m));
    assert Without(Render(m), NUL);
    WholeText(Render(m));
  }

  /** Lines as they are laid out: a start line, header lines, and the end of the text. */
  function Lines(line: string, hs: seq<HeaderLine>, end: string): string { line + CRLF + Following(hs, end) }

  lemma LinesLayout(line: string, hs: seq<HeaderLine>, end: string)
    requires Clean(line) && ValidHeaders(hs) && Ends(end)
    ensures Without(Lines(line, hs, end), NUL)
    ensures Tail(Lines(line, hs, end) + [NUL], 0, (line + CRLF) + Rest(hs, end))
  {
    HeadersHaveNoNul(hs, end);
    assert Lines(line, hs, end) + [NUL] == (line + CRLF) + Rest(hs, end);
  }

  /** The parse of lines: read_headers recovers the fields of the start line, however many blanks it has, and header by
      header exactly what Interpret says.  It succeeds as well on a text that breaks off behind a line end, or in the
      middle of a line, of which nothing is taken. */
  lemma ParseOfLines(line: string, hs: seq<HeaderLine>, end: string, f: Fields, kind: Kind)
    requires Clean(line) && ValidHeaders(hs) && Ends(end)
    ensures ReadFields(Lines(line, hs, end), f, kind) == Interpret(hs, end, Started(line, f, kind))
  {
    hide At, Tail, Clean, Rest, ValidHeaders, Run, Line, Terminated, CString, Started, Without, Lines, Over, Ends;
    LinesLayout(line, hs, end);
    WholeText(Lines(line, hs, end));
    var b := Lines(line, hs, end) + [NUL];
    TailSplit(b, 0, line + CRLF, Rest(hs, end));
    StartLineEffect(b, line, f, kind);
    RunLineBefore(b, 0, line, hs, end, f, kind);
    var nl := |line| + 1;
    var r := Line(b, nl, 0, f, kind);
    if Over(hs, end) {
      OverMeans(hs, end, r.fields);
    } else {
      RunHeaders(r.buffer, nl + 1, hs, end, r.fields, kind);
    }
  }

  lemma OverMeans(hs: seq<HeaderLine>, end: string, f: Fields)
    requires Over(hs, end)
    ensures Interpret(hs, end, f) == (OK, f)
  {
  }

  /** A text without any line feed succeeds and sets nothing; one that starts with a line feed makes the parser write in
      front of its buffer. */
  lemma NoLine(text: string, f: Fields, kind: Kind)
    requires Without(text, NUL)
    ensures Without(text, LF) ==> ReadFields(text, f, kind) == (OK, f)
    ensures text != "" && text[0] == LF ==> ReadFields(text, f, kind).0 == OUT_OF_BUFFER
  {
    hide CString;
    WholeText(text);
    var b := text + [NUL];
    if Without(text, LF) {
      assert b[0..] == b;
      RunTail(b, 0, text, f, kind);
    }
  }

  /** Parse of print: read_headers recovers from a rendered message its three start-line fields and, header by
      header, exactly what Interpret says, whatever the case of the names and whatever other headers there are. */
  lemma ParseOfPrint(m: Message, f: Fields, kind: Kind)
    requires Valid(m)
    ensures ReadFields(Render(m), f, kind) == Meaning(m, f, kind)
  {
    hide Valid, ReadFields, StartText;
    RenderIsClean(m);
    ParseOfLines(StartText(m), m.headers, CRLF, f, kind);
  }

  // ------------------------------------------------------------------ what a caller sees

  /** The value the parser takes from header k. */
  function ValueAt(hs: seq<HeaderLine>, end: string, k: nat): string
    requires k < |hs| && hs[k].Field?
  {
    Taken(hs[k].rest, Spill(hs[k + 1..], end))
  }

  /** Header k is called `name`, whatever the case of its letters. */
  predicate Named(hs: seq<HeaderLine>, name: string, k: nat)
    requires k < |hs|
  {
    hs[k].Field? && Lower(hs[k].name) == name
  }

  predicate Capital(c: char) { 'A' <= c <= 'Z' }

  /** The same letters, whatever their case. */
  predicate SameLetter(c: char, d: char) {
    c == d || (Capital(c) && d as int == c as int + 32) || (Capital(d) && c as int == d as int + 32)
  }

  /** Two names are the same to the parser exactly when they differ in nothing but the case of letters; and what it
      compares them with holds no capital. */
  lemma SameNameIff(s: string, t: string)
    ensures Lower(s) == Lower(t) <==> |s| == |t| && forall k :: 0 <= k < |s| ==> SameLetter(s[k], t[k])
    ensures Lower(s) == s <==> forall k :: 0 <= k < |s| ==> !Capital(s[k])
  {
    forall k | 0 <= k < |s| && k < |t|
      ensures LowerChar(s[k]) == LowerChar(t[k]) <==> SameLetter(s[k], t[k])
    {
    }
    assert Lower(s) == Lower(t) ==> forall k :: 0 <= k < |s| ==> Lower(s)[k] == Lower(t)[k];
    assert Lower(s) == s ==> forall k :: 0 <= k < |s| ==> Lower(s)[k] == s[k];
  }

  /** Header k is the last one of this name among the first n. */
  predicate LastNamed(hs: seq<HeaderLine>, n: nat, name: string, k: int) {
    0 <= k < n <= |hs| && Named(hs, name, k) && forall j :: k < j < n ==> !Named(hs, name, j)
  }

  /** A field after n header lines: the value of the last of them with its name, the old content when there is none. */
  ghost predicate HoldsLast(hs: seq<HeaderLine>, end: string, n: nat, name: string, before: Option<string>,
                            after: Option<string>)
    requires n <= |hs|
  {
    && (forall k :: LastNamed(hs, n, name, k) ==> after == Some(ValueAt(hs, end, k)))
    && ((forall k :: 0 <= k < n ==> !Named(hs, name, k)) ==> after == before)
  }

  ghost predicate HoldsLastNumber(hs: seq<HeaderLine>, end: string, n: nat, name: string, before: int, after: int)
    requires n <= |hs|
  {
    && (forall k :: LastNamed(hs, n, name, k) ==> after == StrToInt(ValueAt(hs, end, k)).1)
    && ((forall k :: 0 <= k < n ==> !Named(hs, name, k)) ==> after == before)
  }

  /** Header k is a Content-Length that str_to_int rejects. */
  predicate Misnumbered(hs: seq<HeaderLine>, end: string, k: nat)
    requires k < |hs|
  {
    Named(hs, "content-length", k) && StrToInt(ValueAt(hs, end, k)).0 != OK
  }

  /** The parse accepts every header line. */
  predicate Acceptable(hs: seq<HeaderLine>, end: string) {
    forall k :: 0 <= k < |hs| ==> hs[k].Field? && !Misnumbered(hs, end, k)
  }

  /** How many header lines are stored before the parse ends. */
  function LinesRead(hs: seq<HeaderLine>, end: string): (n: nat)
    ensures n <= |hs|
  {
    if hs == [] || hs[0].Bare? then 0
    else if Misnumbered(hs, end, 0) then 1
    else 1 + LinesRead(hs[1..], end)
  }

  /** The parse ends with this status after n header lines. */
  predicate EndsAfter(hs: seq<HeaderLine>, end: string, n: nat, status: Ending) {
    && n <= |hs| && (forall k :: 0 <= k < n ==> hs[k].Field?)
    && (forall k :: 0 <= k < n - 1 ==> !Misnumbered(hs, end, k))
    && match status
       case OK => n == |hs| && Acceptable(hs, end)
       case NULL_DEREFERENCE => n < |hs| && hs[n].Bare? && (n > 0 ==> !Misnumbered(hs, end, n - 1))
       case ERROR => n > 0 && Misnumbered(hs, end, n - 1)
       case _ => false
  }

  lemma TailKeeps(hs: seq<HeaderLine>, end: string, k: nat)
    requires 0 < k < |hs|
    ensures hs[1..][k - 1] == hs[k] && (hs[k].Field? ==> ValueAt(hs[1..], end, k - 1) == ValueAt(hs, end, k))
    ensures Misnumbered(hs[1..], end, k - 1) == Misnumbered(hs, end, k)
    ensures forall name :: Named(hs[1..], name, k - 1) == Named(hs, name, k)
  {
    assert hs[1..][k - 1 + 1..] == hs[k + 1..];
  }

  /** One header in front of the others: a later header of the same name hides it. */
  lemma LastStep(hs: seq<HeaderLine>, n: nat, name: string, k: int)
    requires 0 < n <= |hs|
    ensures LastNamed(hs, n, name, k) && k > 0 ==> LastNamed(hs[1..], n - 1, name, k - 1)
    ensures LastNamed(hs, n, name, 0) ==> forall j :: 0 <= j < n - 1 ==> !Named(hs[1..], name, j)
    ensures (forall j :: 0 <= j < n ==> !Named(hs, name, j)) ==> forall j :: 0 <= j < n - 1 ==> !Named(hs[1..], name, j)
  {
    forall j | 0 < j < n
      ensures Named(hs[1..], name, j - 1) == Named(hs, name, j)
    {
      TailKeeps(hs, "", j);
    }
    hide Named;
    assert forall j :: 0 <= j < n - 1 ==> Named(hs[1..], name, j) == Named(hs, name, j + 1);
  }

  lemma HoldsLastStep(hs: seq<HeaderLine>, end: string, n: nat, name: string, before: Option<string>,
                      middle: Option<string>, after: Option<string>)
    requires 0 < n <= |hs| && HoldsLast(hs[1..], end, n - 1, name, middle, after)
    requires middle == if Named(hs, name, 0) then Some(ValueAt(hs, end, 0)) else before
    ensures HoldsLast(hs, end, n, name, before, after)
  {
    hide ValueAt;
    LastStep(hs, n, name, 0);
    forall k | LastNamed(hs, n, name, k)
      ensures after == Some(ValueAt(hs, end, k))
    {
      LastStep(hs, n, name, k);
      if k > 0 {
        TailKeeps(hs, end, k);
      }
    }
  }

  lemma HoldsLastNumberStep(hs: seq<HeaderLine>, end: string, n: nat, name: string, before: int, middle: int,
                            after: int)
    requires 0 < n <= |hs| && HoldsLastNumber(hs[1..], end, n - 1, name, middle, after)
    requires middle == if Named(hs, name, 0) then StrToInt(ValueAt(hs, end, 0)).1 else before
    ensures HoldsLastNumber(hs, end, n, name, before, after)
  {
    hide ValueAt, StrToInt;
    LastStep(hs, n, name, 0);
    forall k | LastNamed(hs, n, name, k)
      ensures after == StrToInt(ValueAt(hs, end, k)).1
    {
      LastStep(hs, n, name, k);
      if k > 0 {
        TailKeeps(hs, end, k);
      }
    }
  }

  lemma EndsStep(hs: seq<HeaderLine>, end: string, n: nat, status: Ending)
    requires hs != [] && hs[0].Field? && !Misnumbered(hs, end, 0) && EndsAfter(hs[1..], end, n, status)
    ensures EndsAfter(hs, end, n + 1, status)
  {
    forall k | 0 < k < |hs|
      ensures hs[k] == hs[1..][k - 1] && Misnumbered(hs, end, k) == Misnumbered(hs[1..], end, k - 1)
    {
      TailKeeps(hs, end, k);
    }
    hide Misnumbered;
  }

  /** What header lines do to one field after another. */
  ghost predicate FieldsHold(hs: seq<HeaderLine>, end: string, n: nat, f: Fields, g: Fields)
    requires n <= |hs|
  {
    && HoldsLast(hs, end, n, "accept", f.reqAccept, g.reqAccept) && HoldsLast(hs, end, n, "from", f.reqFrom, g.reqFrom)
    && HoldsLast(hs, end, n, "host", f.reqHost, g.reqHost)
    && HoldsLast(hs, end, n, "content-type", f.reqContentType, g.reqContentType)
    && HoldsLastNumber(hs, end, n, "content-length", f.reqContentLen, g.reqContentLen)
  }

  lemma FieldsHoldStep(hs: seq<HeaderLine>, end: string, n: nat, f: Fields, f1: Fields, g: Fields)
    requires 0 < n <= |hs| && hs[0].Field? && f1 == SetHeader(f, Lower(hs[0].name), ValueAt(hs, end, 0)).1
    requires FieldsHold(hs[1..], end, n - 1, f1, g)
    ensures FieldsHold(hs, end, n, f, g)
  {
    hide HoldsLast, HoldsLastNumber, StrToInt, Lower, ValueAt;
    HoldsLastStep(hs, end, n, "accept", f.reqAccept, f1.reqAccept, g.reqAccept);
    HoldsLastStep(hs, end, n, "from", f.reqFrom, f1.reqFrom, g.reqFrom);
    HoldsLastStep(hs, end, n, "host", f.reqHost, f1.reqHost, g.reqHost);
    HoldsLastStep(hs, end, n, "content-type", f.reqContentType, f1.reqContentType, g.reqContentType);
    HoldsLastNumberStep(hs, end, n, "content-length", f.reqContentLen, f1.reqContentLen, g.reqContentLen);
  }

  lemma NothingRead(hs: seq<HeaderLine>, end: string, f: Fields)
    ensures FieldsHold(hs, end, 0, f, f)
  {
  }

  /** The effect of header lines, whether the parse succeeds or not: after the lines read each recognised field holds
      the value of the last one with its name; the parse succeeds if and only if every line has a colon and every
      Content-Length is a number, and otherwise ends at the first line that fails. */
  lemma {:induction false} LastWins(hs: seq<HeaderLine>, end: string, f: Fields)
    ensures var (status, g) := Interpret(hs, end, f);
            && EndsAfter(hs, end, LinesRead(hs, end), status) && FieldsHold(hs, end, LinesRead(hs, end), f, g)
            && (status == OK <==> Acceptable(hs, end))
            && (g.reqType, g.reqResource, g.reqProtocol, g.respCode, g.respMsg)
               == (f.reqType, f.reqResource, f.reqProtocol, f.respCode, f.respMsg)
  {
    hide FieldsHold, StrToInt, Lower, Spill, Taken;
    if hs == [] || hs[0].Bare? {
      NothingRead(hs, end, f);
    } else {
      var f1 := Effect(hs[0], Spill(hs[1..], end), f).1;
      assert f1 == SetHeader(f, Lower(hs[0].name), ValueAt(hs, end, 0)).1;
      if Misnumbered(hs, end, 0) {
        NothingRead(hs[1..], end, f1);
        FieldsHoldStep(hs, end, 1, f, f1, f1);
      } else {
        var (status, g) := Interpret(hs[1..], end, f1);
        LastWins(hs[1..], end, f1);
        EndsStep(hs, end, LinesRead(hs[1..], end), status);
        FieldsHoldStep(hs, end, LinesRead(hs, end), f, f1, g);
      }
    }
  }

  /** Parse of lines in the caller's terms. */
  lemma ParsedLines(line: string, hs: seq<HeaderLine>, end: string, f: Fields, kind: Kind)
    requires Clean(line) && ValidHeaders(hs) && Ends(end)
    ensures var (status, g) := ReadFields(Lines(line, hs, end), f, kind);
            var n, start := LinesRead(hs, end), Started(line, f, kind);
            && (status == OK <==> Acceptable(hs, end)) && EndsAfter(hs, end, n, status) && FieldsHold(hs, end, n, f, g)
            && (g.reqType, g.reqResource, g.reqProtocol, g.respCode, g.respMsg)
               == (start.reqType, start.reqResource, start.reqProtocol, start.respCode, start.respMsg)
  {
    hide FieldsHold, EndsAfter, LinesRead, Acceptable, ReadFields, Interpret, Started, Lines;
    ParseOfLines(line, hs, end, f, kind);
    var start := Started(line, f, kind);
    LastWins(hs, end, start);
    StartKeeps(line, f, kind);
    SameBefore(hs, end, LinesRead(hs, end), f, start, ReadFields(Lines(line, hs, end), f, kind).1);
  }

  lemma StartKeeps(line: string, f: Fields, kind: Kind)
    ensures var g := Started(line, f, kind);
            (f.reqAccept, f.reqFrom, f.reqHost, f.reqContentType, f.reqContentLen)
            == (g.reqAccept, g.reqFrom, g.reqHost, g.reqContentType, g.reqContentLen)
  {
    hide Find;
  }

  /** Parse of print in the caller's terms, for a request and for a response. */
  lemma ParsedMessage(m: Message, f: Fields, kind: Kind)
    requires Valid(m)
    ensures var (status, g) := ReadFields(Render(m), f, kind);
            && (status == OK <==> Acceptable(m.headers, CRLF))
            && EndsAfter(m.headers, CRLF, LinesRead(m.headers, CRLF), status)
            && FieldsHold(m.headers, CRLF, LinesRead(m.headers, CRLF), f, g)
            && (g.reqType, g.reqResource, g.reqProtocol, g.respCode, g.respMsg)
               == match kind
                  case RQST => (Some(m.first), Some(m.second), Some(m.third), f.respCode, f.respMsg)
                  case RESP => (f.reqType, f.reqResource, Some(m.first), Some(m.second), Some(m.third))
  {
    hide FieldsHold, EndsAfter, LinesRead, Acceptable, ReadFields, Started;
    RenderIsClean(m);
    ParsedLines(StartText(m), m.headers, CRLF, f, kind);
    StartedIs(m.first, m.second, m.third, f, kind);
  }

  lemma SameBefore(hs: seq<HeaderLine>, end: string, n: nat, f: Fields, f1: Fields, g: Fields)
    requires n <= |hs| && FieldsHold(hs, end, n, f1, g)
    requires (f.reqAccept, f.reqFrom, f.reqHost, f.reqContentType, f.reqContentLen)
          == (f1.reqAccept, f1.reqFrom, f1.reqHost, f1.reqContentType, f1.reqContentLen)
    ensures FieldsHold(hs, end, n, f, g)
  {
  }
}
