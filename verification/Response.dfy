/** A backend's answer as request_work sees it: the bytes of the header frame, the length they announce, and the bytes
    behind them. */
module Response {
  import opened Common
  import H = HttpMessages
  import P = HttpParser
  import V = HeaderValues
  import C = Connection
  import M = ChunkMonitor

  /** The header frame of an answer. */
  function Frame(stream: string): string { stream[..C.FrameEnd(stream)] }

  /** What is sent on to the client as the header: the frame up to its first NUL, if it has one. */
  function HeaderSent(stream: string): string { P.CString(Frame(stream) + [P.NUL], 0) }

  function BodyWire(stream: string): string { stream[C.FrameEnd(stream)..] }

  /** req_content_len after the header has been parsed; -1 if it is absent. */
  function Announced(stream: string): int { P.ReadFields(Frame(stream), P.NewFields(), P.RESP).1.reqContentLen }

  /** receive_http_response_header succeeds. */
  predicate Answerable(stream: string) {
    stream != "" && P.ReadFields(Frame(stream), P.NewFields(), P.RESP).0 == OK
  }

  /** The whole response owed to the client. */
  function Answer(stream: string): string { HeaderSent(stream) + M.Owed(Announced(stream), BodyWire(stream)) }

  /** What of the frame is sent on: all of it, or what stands in front of its first NUL. */
  lemma HeaderSentIs(stream: string)
    ensures var sent, frame := HeaderSent(stream), Frame(stream);
            && sent <= frame && (forall k :: 0 <= k < |sent| ==> sent[k] != P.NUL)
            && (|sent| < |frame| ==> frame[|sent|] == P.NUL)
  {
    hide C.FrameEnd;
    var b := Frame(stream) + [P.NUL];
    var e := P.StrEnd(b, 0);
    assert b[0..e] == b[..e] && forall k :: 0 <= k < e ==> b[..e][k] == b[k];
    assert e < |Frame(stream)| ==> b[e] == Frame(stream)[e];
    assert b[..e] == Frame(stream)[..e];
  }

  /** The last Content-Length of the header is line k, and the length it means is n; no other line ends the parse. */
  ghost predicate Means(m: H.Message, k: nat, n: nat) {
    && H.Valid(m) && H.LastNamed(m.headers, |m.headers|, "content-length", k)
    && V.Trim(m.headers[k].rest) == V.Decimal(n)
    && forall j :: 0 <= j < |m.headers| ==> m.headers[j].Field? && (j != k ==> !H.Misnumbered(m.headers, H.CRLF, j))
  }

  /** Such a header that is written so that its length is read. */
  ghost predicate Announces(m: H.Message, n: nat) {
    n < 0x8000_0000 && exists k :: 0 <= k < |m.headers| && Means(m, k, n) && V.ReadsInFull(m.headers[k].rest)
  }

  lemma FrameOf(m: H.Message, body: string)
    requires H.Valid(m)
    ensures Frame(H.Render(m) + body) == H.Render(m) && BodyWire(H.Render(m) + body) == body && H.Render(m) != ""
  {
    hide H.Render, H.Valid, C.Framed, C.FrameEnd;
    C.RenderIsFramed(m);
    C.FramedIsNotEmpty(H.Render(m));
    C.FrameStaysWhole(H.Render(m), body);
    assert (H.Render(m) + body)[..|H.Render(m)|] == H.Render(m);
    assert (H.Render(m) + body)[|H.Render(m)|..] == body;
  }

  /** What the parse makes of a header whose last Content-Length is line k. */
  lemma LastLength(m: H.Message, k: nat, n: nat)
    requires Means(m, k, n)
    ensures var (status, g) := P.ReadFields(H.Render(m), P.NewFields(), P.RESP);
            var (ending, v) := P.StrToInt(H.ValueAt(m.headers, H.CRLF, k));
            status.OK? == ending.OK? && (status == OK ==> g.reqContentLen == v)
  {
    hide H.Render, H.Valid, H.ValueAt, V.Decimal, H.HoldsLast, P.ReadFields, P.StrToInt, V.Trim;
    H.ParsedMessage(m, P.NewFields(), P.RESP);
  }

  /** Exactly when the length that a header means is the one that is announced. */
  lemma LengthIsIff(m: H.Message, k: nat, n: nat)
    requires Means(m, k, n)
    ensures var (status, g) := P.ReadFields(H.Render(m), P.NewFields(), P.RESP);
            && (status == OK && g.reqContentLen == n <==> n < 0x8000_0000 && V.ReadsInFull(m.headers[k].rest))
            && (n < 0x8000_0000 && status == OK ==> 0 <= g.reqContentLen <= n)
  {
    hide H.Render, H.Valid, V.Decimal, P.ReadFields, P.StrToInt, V.Trim, V.ReadsInFull, H.Taken, H.Spill;
    LastLength(m, k, n);
    V.LengthIsMeantIff(m.headers[k].rest, H.Spill(m.headers[k + 1..], H.CRLF), n);
  }

  /** The stream of a well-formed header and whatever follows it. */
  lemma StreamOf(m: H.Message, rest: string)
    requires H.Valid(m)
    ensures var stream, (status, g) := H.Render(m) + rest, P.ReadFields(H.Render(m), P.NewFields(), P.RESP);
            && (Answerable(stream) <==> status == OK) && Announced(stream) == g.reqContentLen
            && HeaderSent(stream) == H.Render(m) && BodyWire(stream) == rest
            && Answer(stream) == H.Render(m) + M.Owed(Announced(stream), rest)
  {
    hide H.Render, H.Valid, P.ReadFields, P.CString, C.FrameEnd, M.Owed;
    FrameOf(m, rest);
    H.RenderIsClean(m);
  }

  /** How much of a body a length of at most its own lets through. */
  lemma BodyCut(n: nat, body: string, more: string)
    requires n <= |body|
    ensures M.Owed(n, body + more) == body[..n]
  {
  }

  lemma CutIsShorter(header: string, n: nat, body: string)
    requires n <= |body|
    ensures header + body[..n] <= header + body && (header + body[..n] == header + body <==> n == |body|)
  {
    assert |header + body[..n]| == |header| + n;
    assert n == |body| ==> body[..n] == body;
  }

  /** Exactly when a response is owed to the client byte for byte and nothing behind it: its last Content-Length, which
      means the length of the body, is written with a blank in front and none behind.  Otherwise the response is
      rejected, or its body is cut. */
  lemma AnswerIsWholeIff(m: H.Message, k: nat, body: string, more: string)
    requires Means(m, k, |body|) && |body| < 0x8000_0000
    ensures var stream := H.Render(m) + (body + more);
            && BodyWire(stream) == body + more
            && (Answerable(stream) && Answer(stream) == H.Render(m) + body <==> V.ReadsInFull(m.headers[k].rest))
            && (Answerable(stream) ==> 0 <= Announced(stream) <= |body| && Answer(stream) <= H.Render(m) + body)
            && (V.ReadsInFull(m.headers[k].rest) ==> Announced(stream) == |body|)
  {
    hide Answerable, Answer, Announced, BodyWire, M.Owed, H.Render, H.Valid, P.ReadFields, V.Decimal, V.Trim;
    hide V.ReadsInFull, H.LastNamed, H.Misnumbered;
    var stream := H.Render(m) + (body + more);
    StreamOf(m, body + more);
    LengthIsIff(m, k, |body|);
    if Answerable(stream) {
      var n := Announced(stream);
      BodyCut(n, body, more);
      CutIsShorter(H.Render(m), n, body);
    }
  }

  lemma AnswerIsWhole(m: H.Message, body: string, more: string)
    requires Announces(m, |body|)
    ensures var stream := H.Render(m) + (body + more);
            && Answerable(stream) && Announced(stream) == |body| && BodyWire(stream) == body + more
            && Answer(stream) == H.Render(m) + body
  {
    hide Answerable, Answer, Announced, BodyWire, V.ReadsInFull, H.Render, H.Valid, H.LastNamed, H.Misnumbered;
    var k :| 0 <= k < |m.headers| && Means(m, k, |body|) && V.ReadsInFull(m.headers[k].rest);
    AnswerIsWholeIff(m, k, body, more);
  }

  /** A header that parses and announces no length at all. */
  ghost predicate Lengthless(m: H.Message) {
    H.Valid(m) && forall k :: 0 <= k < |m.headers| ==> m.headers[k].Field? && !H.Named(m.headers, "content-length", k)
  }

  /** Such an answer is accepted, announces -1, and only its header is owed to the client, whatever body it has. */
  lemma LengthlessAnswer(m: H.Message, body: string)
    requires Lengthless(m)
    ensures var stream := H.Render(m) + body;
            && Answerable(stream) && Announced(stream) == -1 && BodyWire(stream) == body
            && HeaderSent(stream) == Answer(stream) == H.Render(m)
  {
    hide H.Render, H.Valid, H.ValueAt, H.LinesRead, P.ReadFields, P.StrToInt, Answerable, Answer, Announced, BodyWire;
    hide HeaderSent;
    H.ParsedMessage(m, P.NewFields(), P.RESP);
    StreamOf(m, body);
    assert H.Render(m) + "" == H.Render(m);
  }

  /** An empty answer, or one whose header is rejected, is not accepted; every other one is. */
  lemma AnswerableIff(m: H.Message, body: string)
    requires H.Valid(m)
    ensures Answerable(H.Render(m) + body) <==> H.Acceptable(m.headers, H.CRLF)
  {
    hide H.Render, H.Valid, H.Acceptable, H.EndsAfter, H.FieldsHold, H.LinesRead, P.ReadFields, Answerable, Answer;
    hide Announced, BodyWire;
    H.ParsedMessage(m, P.NewFields(), P.RESP);
    StreamOf(m, body);
  }

  const SAMPLE := H.Message("HTTP/1.1", "200", "OK", [H.Field("Content-Length", " 1")])

  /** A smallest answer with a body. */
  function SampleStream(): string { H.Render(SAMPLE) + "x" }

  lemma SampleAnswer()
    ensures Answerable(SampleStream()) && Announced(SampleStream()) == 1 == |BodyWire(SampleStream())|
  {
    hide Announces, Answerable, Answer, Announced, H.Render;
    SampleAnnounces();
    AnswerIsWhole(SAMPLE, "x", "");
    assert "x" + "" == "x";
  }

  lemma SampleAnnounces()
    ensures Announces(SAMPLE, 1)
  {
    hide P.StrToInt, P.Lower, V.Decimal, V.Trim;
    SampleName();
    OneInDecimal();
    OneTrimmed();
    assert H.LastNamed(SAMPLE.headers, 1, "content-length", 0);
    assert Means(SAMPLE, 0, 1) && V.ReadsInFull(SAMPLE.headers[0].rest);
  }

  lemma OneInDecimal()
    ensures V.Decimal(1) == "1"
  {
  }

  lemma OneTrimmed()
    ensures V.Trim(" 1") == "1"
  {
    assert " 1"[1..] == "1";
  }

  lemma SampleName()
    ensures P.Lower("Content-Length") == "content-length"
  {
  }
}
