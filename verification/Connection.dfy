/** The socket routines of connection.c: the write loop, the framer that reads one header byte by byte, and the
    critical sections of the two chunk loops.  The socket decides freely how many bytes a call moves and when it
    fails. */
module Connection {
  import M = ChunkMonitor
  import H = HttpMessages
  import P = HttpParser
  import opened Common

  // ------------------------------------------------------------------ where a header ends

  predicate LineEnd(c: char) { c == '\r' || c == '\n' }

  /** The first n bytes end with four consecutive line-end bytes, in whatever combination. */
  predicate EndsRun(s: string, n: int) { 4 <= n <= |s| && forall k :: n - 4 <= k < n ==> LineEnd(s[k]) }

  /** The bytes still to be consumed when the last `number` bytes were line ends. */
  function Scan(s: string, number: nat): (n: nat)
    ensures n <= |s|
  {
    if number == 4 || s == "" then 0 else 1 + Scan(s[1..], if LineEnd(s[0]) then number + 1 else 0)
  }

  /** How many bytes one call of receive_http_header2 consumes. */
  function FrameEnd(s: string): (n: nat)
    ensures n <= |s|
  {
    Scan(s, 0)
  }

  /** The last `number` of the first i bytes are line ends, and the one before them is not. */
  predicate RunAt(s: string, i: nat, number: nat) {
    && number <= 4 && number <= i <= |s|
    && (forall k :: i - number <= k < i ==> LineEnd(s[k]))
    && (number < 4 && number < i ==> !LineEnd(s[i - number - 1]))
  }

  lemma {:induction false} ScanStopsAtFirstRun(s: string, i: nat, number: nat)
    requires RunAt(s, i, number) && forall k :: 0 <= k < i ==> !EndsRun(s, k)
    ensures var n := i + Scan(s[i..], number);
            n <= |s| && (EndsRun(s, n) || n == |s|) && forall k :: 0 <= k < n ==> !EndsRun(s, k)
    decreases |s| - i
  {
    if number < 4 && i < |s| {
      assert s[i..][1..] == s[i + 1..];
      ScanStopsAtFirstRun(s, i + 1, if LineEnd(s[i]) then number + 1 else 0);
    }
  }

  /** The framer stops behind the first run of four line-end bytes, or at the end of the stream if there is none. */
  lemma FrameEndIsFirstRun(s: string)
    ensures var n := FrameEnd(s); (EndsRun(s, n) || n == |s|) && forall k :: 0 <= k < n ==> !EndsRun(s, k)
  {
    assert s[0..] == s;
    ScanStopsAtFirstRun(s, 0, 0);
  }

  /** Carriage returns and line feeds occur only as CRLF pairs. */
  predicate Paired(s: string) {
    && (forall k :: 0 <= k < |s| && s[k] == '\n' ==> k > 0 && s[k - 1] == '\r')
    && (forall k :: 0 <= k < |s| && s[k] == '\r' ==> k + 1 < |s| && s[k + 1] == '\n')
  }

  /** The blank line of section 3 of RFC 7230. */
  predicate EndsBlankLine(s: string, n: int) {
    4 <= n <= |s| && s[n - 4] == '\r' && s[n - 3] == '\n' && s[n - 2] == '\r' && s[n - 1] == '\n'
  }

  /** The framer stops at the first blank line, or at the end of a stream that has none. */
  ghost predicate StopsAtBlankLine(s: string) {
    var n := FrameEnd(s);
    (EndsBlankLine(s, n) || n == |s|) && forall k :: 0 <= k < n ==> !EndsBlankLine(s, k)
  }

  /** A run of four line-end bytes that is no blank line, such as four line feeds, and no blank line before it. */
  predicate FalseRun(s: string, k: int) {
    EndsRun(s, k) && k < |s| && !EndsBlankLine(s, k) && forall j :: 0 <= j < k ==> !EndsBlankLine(s, j)
  }

  lemma BlankLineIsRun(s: string, n: int)
    requires EndsBlankLine(s, n)
    ensures EndsRun(s, n)
  {
  }

  /** Exactly when the framer is right: every other run of four line-end bytes comes after a blank line, or ends the
      stream. */
  lemma StopsAtBlankLineIff(s: string)
    ensures StopsAtBlankLine(s) <==> forall k :: 0 <= k < |s| ==> !FalseRun(s, k)
  {
    var n := FrameEnd(s);
    FrameEndIsFirstRun(s);
    forall k | 0 <= k < n
      ensures !EndsBlankLine(s, k)
    {
      if EndsBlankLine(s, k) {
        BlankLineIsRun(s, k);
      }
    }
    hide FrameEnd, EndsBlankLine, EndsRun;
    if n < |s| && !EndsBlankLine(s, n) {
      assert FalseRun(s, n);
    }
    if k :| 0 <= k < |s| && FalseRun(s, k) {
      assert EndsRun(s, k) && n <= k;
    }
  }

  /** It is always right where carriage returns and line feeds occur only as CRLF pairs. */
  lemma FrameEndIsBlankLine(s: string)
    requires Paired(s)
    ensures StopsAtBlankLine(s)
  {
    hide StopsAtBlankLine;
    forall k | 0 <= k < |s|
      ensures !FalseRun(s, k)
    {
      if EndsRun(s, k) && !EndsBlankLine(s, k) {
        assert LineEnd(s[k - 4]) && LineEnd(s[k - 3]) && LineEnd(s[k - 2]) && LineEnd(s[k - 1]);
        assert s[k - 4] == '\n' && s[k - 5] == '\r' && s[k - 3] == '\r' && s[k - 2] == '\n';
        assert EndsBlankLine(s, k - 1);
      }
    }
    StopsAtBlankLineIff(s);
  }

  /** Four bare line feeds end a frame although no blank line has been seen. */
  lemma BareLineFeedsEndAFrame()
    ensures FrameEnd("a\n\n\n\nb") == 5 && !StopsAtBlankLine("a\n\n\n\nb")
  {
    var s := "a\n\n\n\nb";
    FrameEndIsFirstRun(s);
    assert EndsRun(s, 5);
    assert !LineEnd(s[0]);
  }

  // ------------------------------------------------------------------ a stream of frames

  /** A text that the framer takes in one call and that nothing after it can extend. */
  predicate Framed(m: string) { EndsRun(m, |m|) && FrameEnd(m) == |m| }

  lemma FrameStaysWhole(m: string, rest: string)
    requires Framed(m)
    ensures FrameEnd(m + rest) == |m|
  {
    FrameEndIsFirstRun(m);
    FrameEndIsFirstRun(m + rest);
    assert EndsRun(m + rest, |m|);
    forall k | 0 <= k < |m|
      ensures !EndsRun(m + rest, k)
    {
      assert forall j :: 0 <= j < |m| ==> (m + rest)[j] == m[j];
      assert EndsRun(m + rest, k) ==> EndsRun(m, k);
    }
  }

  /** What successive calls of the framer return. */
  function Frames(s: string): seq<string> {
    if s == "" then []
    else
      FrameIsNotEmpty(s);
      [s[..FrameEnd(s)]] + Frames(s[FrameEnd(s)..])
  }

  lemma FrameIsNotEmpty(s: string)
    requires s != ""
    ensures FrameEnd(s) > 0
  {
  }

  function Concat(ms: seq<string>): string {
    if ms == [] then "" else ms[0] + Concat(ms[1..])
  }

  /** Framing loses and duplicates nothing, whatever the stream. */
  lemma {:induction false} FramesConcat(s: string)
    ensures Concat(Frames(s)) == s
  {
    if s != "" {
      FrameIsNotEmpty(s);
      var n := FrameEnd(s);
      FramesConcat(s[n..]);
      assert s[..n] + s[n..] == s;
    }
  }

  /** Repeated calls split a stream of framed messages into exactly those messages. */
  lemma {:induction false} FramesOfStream(ms: seq<string>)
    requires forall k :: 0 <= k < |ms| ==> Framed(ms[k])
    ensures Frames(Concat(ms)) == ms
  {
    if ms != [] {
      var s := Concat(ms);
      FrameStaysWhole(ms[0], Concat(ms[1..]));
      assert s[..|ms[0]|] == ms[0] && s[|ms[0]|..] == Concat(ms[1..]);
      FramesOfStream(ms[1..]);
    }
  }

  // ------------------------------------------------------------------ rendered messages are framed

  /** A line of text without line ends resets the count. */
  lemma {:induction false} ScanText(line: string, rest: string, number: nat)
    requires H.Clean(line) && number < 4
    ensures Scan(line + rest, number) == |line| + Scan(rest, if line == "" then number else 0)
    decreases |line|
  {
    if line == "" {
      assert line + rest == rest;
    } else {
      assert (line + rest)[1..] == line[1..] + rest;
      ScanText(line[1..], rest, 0);
    }
  }

  lemma ScanLine(line: string, rest: string, number: nat)
    requires H.Clean(line) && line != "" && number < 4
    ensures Scan((line + H.CRLF) + rest, number) == |line| + 2 + Scan(rest, 2)
  {
    ScanText(line, H.CRLF + rest, number);
    assert (line + H.CRLF) + rest == line + (H.CRLF + rest);
    assert (H.CRLF + rest)[1..][1..] == rest;
  }

  lemma ScanBlankLine(rest: string)
    ensures Scan(H.CRLF + rest, 2) == 2
  {
    assert (H.CRLF + rest)[1..] == ['\n'] + rest;
    assert Scan(['\n'] + rest, 3) == 1;
  }

  lemma FirstHeader(hs: seq<H.HeaderLine>, rest: string)
    requires hs != []
    ensures var line := H.HeaderText(hs[0]) + H.CRLF;
            && H.RenderHeaders(hs) + rest == line + (H.RenderHeaders(hs[1..]) + rest)
            && |H.RenderHeaders(hs)| == |line| + |H.RenderHeaders(hs[1..])|
  {
    hide H.HeaderText;
  }

  lemma {:induction false} ScanHeaders(hs: seq<H.HeaderLine>, rest: string)
    requires H.ValidHeaders(hs)
    ensures Scan(H.RenderHeaders(hs) + (H.CRLF + rest), 2) == |H.RenderHeaders(hs)| + 2
  {
    hide Scan, H.HeaderText, H.Clean, H.ValidHeader;
    if hs == [] {
      ScanBlankLine(rest);
      assert H.RenderHeaders(hs) + (H.CRLF + rest) == H.CRLF + rest;
    } else {
      H.ValidParts(hs);
      H.HeaderTextIsClean(hs[0]);
      ScanHeaders(hs[1..], rest);
      ScanLine(H.HeaderText(hs[0]), H.RenderHeaders(hs[1..]) + (H.CRLF + rest), 2);
      FirstHeader(hs, H.CRLF + rest);
    }
  }

  lemma RenderIsFramed(m: H.Message)
    requires H.Valid(m)
    ensures Framed(H.Render(m))
  {
    var text, headers := H.StartText(m), H.RenderHeaders(m.headers);
    H.RenderIsClean(m);
    ScanHeaders(m.headers, "");
    ScanLine(text, headers + (H.CRLF + ""), 0);
    var s := H.Render(m);
    assert s == (text + H.CRLF) + (headers + (H.CRLF + ""));
    assert FrameEnd(s) == |s|;
    RenderEndsRun(m);
  }

  lemma RenderEndsRun(m: H.Message)
    ensures EndsRun(H.Render(m), |H.Render(m)|)
  {
    var s := H.Render(m);
    HeadersEndLine(m.headers);
    var before := H.StartText(m) + H.CRLF + H.RenderHeaders(m.headers);
    assert s == before + H.CRLF;
    assert |before| >= 2 && before[|before| - 2..] == H.CRLF;
  }

  lemma {:induction false} HeadersEndLine(hs: seq<H.HeaderLine>)
    ensures var t := H.RenderHeaders(hs); t == "" || (|t| >= 2 && t[|t| - 2..] == H.CRLF)
  {
    if hs != [] {
      HeadersEndLine(hs[1..]);
      var t, tail := H.RenderHeaders(hs), H.RenderHeaders(hs[1..]);
      assert t == H.HeaderText(hs[0]) + H.CRLF + tail;
    }
  }

  // ------------------------------------------------------------------ a pipelined stream of requests

  /** The requests that read_work takes from a stream: it goes on until a request is rejected or the stream ends. */
  function Received(s: string): seq<P.Fields> {
    if s == "" then []
    else
      FrameIsNotEmpty(s);
      var n := FrameEnd(s);
      var (status, f) := P.ReadFields(s[..n], P.NewFields(), P.RQST);
      if status.OK? then [f] + Received(s[n..]) else []
  }

  /** How that ends: with an error at the end of the stream and after a bad Content-Length, not at all, because the
      process dies, after a line without a colon. */
  function LastStatus(s: string): Ending {
    if s == "" then ERROR
    else
      FrameIsNotEmpty(s);
      var n := FrameEnd(s);
      var status := P.ReadFields(s[..n], P.NewFields(), P.RQST).0;
      if status.OK? then LastStatus(s[n..]) else status
  }

  function Rendered(ms: seq<H.Message>): seq<string> {
    if ms == [] then [] else [H.Render(ms[0])] + Rendered(ms[1..])
  }

  predicate AllValid(ms: seq<H.Message>) { forall k :: 0 <= k < |ms| ==> H.Valid(ms[k]) }

  /** The meanings of the messages in order, up to the first one that is rejected. */
  function Meanings(ms: seq<H.Message>): seq<P.Fields> {
    if ms == [] then []
    else
      var (status, f) := H.Meaning(ms[0], P.NewFields(), P.RQST);
      if status.OK? then [f] + Meanings(ms[1..]) else []
  }

  function LastMeaning(ms: seq<H.Message>): Ending {
    if ms == [] then ERROR
    else
      var status := H.Meaning(ms[0], P.NewFields(), P.RQST).0;
      if status.OK? then LastMeaning(ms[1..]) else status
  }

  /** A client that pipelines bodiless requests, with any lines for headers: framer and parser together recover exactly
      the requests it sent, in order, up to the first one that is rejected, and stop as that one says. */
  lemma {:induction false} PipelinedStream(ms: seq<H.Message>)
    requires AllValid(ms)
    ensures Received(Concat(Rendered(ms))) == Meanings(ms)
    ensures LastStatus(Concat(Rendered(ms))) == LastMeaning(ms)
  {
    hide H.Valid, H.Render, H.Meaning, P.ReadFields, FrameEnd, Framed;
    if ms != [] {
      var s, first, rest := Concat(Rendered(ms)), H.Render(ms[0]), Concat(Rendered(ms[1..]));
      RenderIsFramed(ms[0]);
      FrameStaysWhole(first, rest);
      FramedIsNotEmpty(first);
      assert s == first + rest && s[..|first|] == first && s[|first|..] == rest;
      H.ParseOfPrint(ms[0], P.NewFields(), P.RQST);
      PipelinedStream(ms[1..]);
    }
  }

  lemma FramedIsNotEmpty(m: string)
    requires Framed(m)
    ensures m != ""
  {
  }

  /** All of them are recovered exactly when every header line has a colon and every Content-Length is a number. */
  lemma {:induction false} MeaningsComplete(ms: seq<H.Message>)
    ensures |Meanings(ms)| <= |ms|
    ensures |Meanings(ms)| == |ms| <==> forall k :: 0 <= k < |ms| ==> H.Acceptable(ms[k].headers, H.CRLF)
    ensures forall k :: 0 <= k < |Meanings(ms)| ==> Meanings(ms)[k] == H.Meaning(ms[k], P.NewFields(), P.RQST).1
  {
    hide H.Acceptable, H.Interpret, H.EndsAfter, H.FieldsHold, H.LinesRead, H.Started;
    if ms != [] {
      var tail := ms[1..];
      H.LastWins(ms[0].headers, H.CRLF, H.Started(H.StartText(ms[0]), P.NewFields(), P.RQST));
      MeaningsComplete(tail);
      assert forall k :: 0 < k < |ms| ==> ms[k] == tail[k - 1];
      assert forall k :: 0 <= k < |tail| ==> tail[k] == ms[k + 1];
    }
  }

  // ------------------------------------------------------------------ sockets

  class Socket {
    var incoming: string  // what the peer will still deliver before it closes its side
    var sent: string      // what has been accepted for the peer
    var failed: bool      // some call has returned -1
    var stalled: bool     // some write of at least one byte has returned 0

    /** read(): an error, the end of the stream, or any number of bytes up to the size asked for. */
    method Read(buffer: array<char>, size: nat) returns (n: int)
      requires size <= buffer.Length
      modifies this`incoming, this`failed, buffer
      ensures -1 <= n <= size && n <= |old(incoming)|
      ensures failed == (old(failed) || n == -1)
      ensures n == -1 ==> incoming == old(incoming) && buffer[..] == old(buffer[..])
      ensures n >= 0 ==> incoming == old(incoming)[n..] && buffer[..] == old(incoming)[..n] + old(buffer[..])[n..]
      ensures n == 0 ==> size == 0 || old(incoming) == ""
    {
      if * {
        failed := true;
        return -1;
      }
      var most := if size <= |incoming| then size else |incoming|;
      n := most;
      while n > 1
        invariant 0 <= n <= most && (n == 0 ==> most == 0)
      {
        if * {
          break;
        }
        n := n - 1;
      }
      forall k | 0 <= k < n {
        buffer[k] := incoming[k];
      }
      incoming := incoming[n..];
    }

    /** write(): an error, or any number of bytes up to all of them. */
    method Write(bytes: string) returns (n: int)
      modifies this`sent, this`failed, this`stalled
      ensures -1 <= n <= |bytes|
      ensures failed == (old(failed) || n == -1)
      ensures stalled == (old(stalled) || (n == 0 && bytes != ""))
      ensures sent == old(sent) + (if n == -1 then "" else bytes[..n])
    {
      if * {
        failed := true;
        return -1;
      }
      n := |bytes|;
      while n > 0
        invariant 0 <= n <= |bytes|
      {
        if * {
          break;
        }
        n := n - 1;
      }
      sent := sent + bytes[..n];
      stalled := stalled || (n == 0 && bytes != "");
    }

    /** send_http. */
    method SendHttp(message: string) returns (status: Ending)
      requires !failed && !stalled
      modifies this`sent, this`failed, this`stalled
      ensures status in {OK, ERROR} && (status == ERROR <==> failed)
      ensures old(sent) <= sent <= old(sent) + message
      ensures status == OK ==> (sent == old(sent) + message <==> !stalled)
    {
      var count := 0;
      while true
        invariant 0 <= count <= |message| && sent == old(sent) + message[..count]
        invariant !failed && !stalled
        decreases |message| - count
      {
        var last := Write(message[count..]);
        if last == -1 {
          return ERROR;
        } else if last == 0 {
          break;
        }
        assert message[..count] + message[count..][..last] == message[..count + last];
        count := count + last;
      }
      return OK;
    }

    /** receive_http_header2. */
    method ReceiveHeader() returns (status: Ending, header: string)
      requires !failed
      modifies this`incoming, this`failed
      ensures header + incoming == old(incoming) && status in {OK, ERROR}
      ensures failed ==> status == ERROR && |header| <= FrameEnd(old(incoming))
      ensures !failed ==> |header| == FrameEnd(old(incoming)) && (status == OK <==> header != "")
    {
      var lastRead := new char[1][' '];
      var number := 0;
      header := "";
      while true
        invariant 0 <= number <= 4 && !failed && fresh(lastRead) && lastRead.Length == 1
        invariant header + incoming == old(incoming)
        invariant FrameEnd(old(incoming)) == |header| + Scan(incoming, number)
        decreases |incoming|
      {
        if number == 4 {
          break;
        }
        ghost var before := incoming;
        var received := Read(lastRead, 1);
        if received == -1 {
          return ERROR, header;
        } else if received == 0 {
          break;
        }
        assert before == [lastRead[0]] + incoming;
        number := if LineEnd(lastRead[0]) then number + 1 else 0;
        header := header + [lastRead[0]];
      }
      status := if header == "" then ERROR else OK;
    }

    /** receive_http_request into a new HTTPRequest. */
    method ReceiveRequest() returns (status: Ending, fields: P.Fields)
      requires !failed
      modifies this`incoming, this`failed
      ensures |incoming| <= |old(incoming)| && (status == OK ==> |incoming| < |old(incoming)|)
      ensures failed || old(incoming) == "" ==> status == ERROR
      ensures !failed && old(incoming) != "" ==>
                var n := FrameEnd(old(incoming));
                && incoming == old(incoming)[n..]
                && (status, fields) == P.ReadFields(old(incoming)[..n], P.NewFields(), P.RQST)
    {
      var request := new P.HttpRequest();
      var received, header := ReceiveHeader();
      if received == ERROR {
        if !failed && old(incoming) != "" {
          FrameIsNotEmpty(old(incoming));
        }
        return ERROR, request.Snapshot();
      }
      assert old(incoming)[..|header|] == header && old(incoming)[|header|..] == incoming;
      status := request.ReadHeaders(header, P.RQST);
      fields := request.Snapshot();
    }

    /** The receiving side of read_work: requests are taken until one cannot be; `last` tells how that one ended. */
    method ReadRequests() returns (requests: seq<P.Fields>, last: Ending)
      requires !failed
      modifies this`incoming, this`failed
      ensures requests <= Received(old(incoming))
      ensures failed ==> last == ERROR
      ensures !failed ==> requests == Received(old(incoming)) && last == LastStatus(old(incoming))
    {
      requests := [];
      while true
        invariant !failed && requests + Received(incoming) == Received(old(incoming))
        invariant LastStatus(incoming) == LastStatus(old(incoming))
        decreases |incoming|
      {
        ghost var before := incoming;
        var status, fields := ReceiveRequest();
        if status != OK {
          return requests, status;
        }
        assert Received(before) == [fields] + Received(incoming);
        requests := requests + [fields];
      }
    }
  }

  // ------------------------------------------------------------------ the critical sections of the chunk monitor

  /** However a write is split into short writes, the monitor ends in the same state. */
  lemma ShortWritesMerge(m: M.Monitor, a: nat, b: nat)
    requires M.Enabled(m, M.CWrite(a)) && M.Enabled(M.Apply(m, M.CWrite(a)), M.CWrite(b))
    ensures M.Enabled(m, M.CWrite(a + b))
    ensures M.Apply(M.Apply(m, M.CWrite(a)), M.CWrite(b)) == M.Apply(m, M.CWrite(a + b))
  {
    SlicesJoin(m.client, m.data, m.cpc.sent, m.cpc.sent + a, m.cpc.sent + a + b);
  }

  lemma SlicesJoin(client: string, data: string, i: nat, j: nat, k: nat)
    requires i <= j <= k <= |data|
    ensures (client + data[i..j]) + data[j..k] == client + data[i..k]
  {
  }

  lemma MoveThen(m: M.Monitor, mv: M.Move, rest: seq<M.Move>)
    requires M.Enabled(m, mv) && M.Legal(M.Apply(m, mv), rest)
    ensures M.Legal(m, [mv] + rest) && M.After(m, [mv] + rest) == M.After(M.Apply(m, mv), rest)
  {
    assert ([mv] + rest)[1..] == rest;
  }

  lemma LastMove(m: M.Monitor, mv: M.Move)
    requires M.Enabled(m, mv)
    ensures M.Legal(m, [mv]) && M.After(m, [mv]) == M.Apply(m, mv)
  {
    assert [mv][1..] == [];
  }

  /** The monitor once the n bytes of a read have been stored and published. */
  lemma Published(m: M.Monitor, n: nat)
    requires M.Enabled(m, M.PReadSome(n))
    ensures M.Legal(m, [M.PReadSome(n), M.PStep])
    ensures M.After(m, [M.PReadSome(n), M.PStep])
         == m.(data := M.Overwrite(m.data, m.wire[m.received..m.received + n]), received := m.received + n,
               dimen := n, wrote := false, ppc := M.PSignal)
  {
    hide M.Legal, M.After;
    LastMove(M.Apply(m, M.PReadSome(n)), M.PStep);
    MoveThen(m, M.PReadSome(n), [M.PStep]);
    assert [M.PReadSome(n)] + [M.PStep] == [M.PReadSome(n), M.PStep];
  }

  /** The moves of a consumer that has written the whole chunk and cleared it. */
  lemma Cleared(m: M.Monitor)
    requires m.cpc == M.CSend(0) && 1 <= m.dimen <= |m.data|
    ensures var moves := [M.CWrite(m.dimen), M.CStep, M.CStep];
            && M.Legal(m, moves)
            && M.After(m, moves)
               == m.(client := m.client + m.data[..m.dimen], totalSent := m.totalSent + m.dimen, dimen := 0,
                     wrote := true, cpc := M.CSignal)
  {
    hide M.Legal, M.After;
    assert m.data[0..m.dimen] == m.data[..m.dimen];
    var m1 := M.Apply(m, M.CWrite(m.dimen));
    LastMove(M.Apply(m1, M.CStep), M.CStep);
    MoveThen(m1, M.CStep, [M.CStep]);
    MoveThen(m, M.CWrite(m.dimen), [M.CStep] + [M.CStep]);
    assert [M.CWrite(m.dimen)] + ([M.CStep] + [M.CStep]) == [M.CWrite(m.dimen), M.CStep, M.CStep];
  }

  /** The moves of a consumer whose write fails after `lost` bytes. */
  function FailingMoves(lost: nat): seq<M.Move> {
    if lost == 0 then [M.CWriteError] else [M.CWrite(lost), M.CWriteError]
  }

  lemma WriteFailed(m: M.Monitor, lost: nat)
    requires m.cpc == M.CSend(0) && lost <= m.dimen <= |m.data|
    ensures M.Legal(m, FailingMoves(lost))
    ensures M.After(m, FailingMoves(lost)) == m.(client := m.client + m.data[..lost], cpc := M.CError(lost))
  {
    hide M.Legal, M.After;
    if lost == 0 {
      LastMove(m, M.CWriteError);
      assert m.client + m.data[..lost] == m.client;
    } else {
      assert m.data[0..lost] == m.data[..lost];
      LastMove(M.Apply(m, M.CWrite(lost)), M.CWriteError);
      MoveThen(m, M.CWrite(lost), [M.CWriteError]);
      assert [M.CWrite(lost)] + [M.CWriteError] == FailingMoves(lost);
    }
  }

  lemma FailedReads(m: M.Monitor)
    requires m.ppc.PRead?
    ensures M.Enabled(m, M.PReadError) && M.Apply(m, M.PReadError) == m.(ppc := M.PErrorUnlock)
    ensures M.Enabled(m, M.PReadEof) ==> M.Apply(m, M.PReadEof) == m.(ppc := M.PEofSignal)
  {
  }

  /** Where the producer reads, it has not yet received more than a Content-Length that is not negative. */
  lemma ReadWithinLength(m: M.Monitor)
    requires M.Inv(m) && m.ppc.PRead?
    ensures m.received <= |m.wire| && (m.contentLen >= 0 ==> m.received <= m.contentLen)
  {
  }

  lemma ChunkToSend(m: M.Monitor)
    requires M.Inv(m) && m.cpc == M.CSend(0)
    ensures 1 <= m.dimen <= |m.data|
  {
  }

  /** What the client has after part of a chunk. */
  lemma SentPart(header: string, client: string, chunk: string, sent: string)
    requires header + client <= sent <= header + client + chunk
    ensures var n := |sent| - |header + client|;
            && n <= |chunk| && sent == header + (client + chunk[..n])
            && (n == |chunk| ==> sent == header + (client + chunk))
  {
    var n := |sent| - |header + client|;
    assert sent == (header + client + chunk)[..|sent|] == header + client + chunk[..n];
    assert n == |chunk| ==> chunk[..n] == chunk;
  }

  /** A read into the front of a buffer whose used part is `used`. */
  lemma StoredPrefix(buffer: string, used: string, bytes: string)
    requires |used| <= |buffer| && buffer[..|used|] == used && |bytes| <= |buffer|
    ensures var after, now := M.Overwrite(used, bytes), bytes + buffer[|bytes|..];
            |after| <= |buffer| && now[..|after|] == after
  {
    if |bytes| < |used| {
      assert buffer[|bytes|..][..|used| - |bytes|] == buffer[..|used|][|bytes|..];
    }
  }

  /** The shared slot of a response, with its buffer, which is one byte longer than the largest chunk. */
  class Chunk {
    const data: array<char>
    var dimen: nat
    var wrote: bool

    /** The object is the slot of monitor m. */
    ghost predicate Shows(m: M.Monitor)
      reads this, data
    {
      && data.Length == M.MAX_CHUNK_SIZE + 1 && |m.data| <= data.Length
      && data[..|m.data|] == m.data && dimen == m.dimen && wrote == m.wrote
    }

    constructor (contentLen: int, wire: string)
      ensures Shows(M.Start(contentLen, wire)) && fresh(data)
    {
      data, dimen, wrote := new char[M.MAX_CHUNK_SIZE + 1], 0, true;
    }

    /** The critical section of receive_http_chunks: one read into the buffer, and the publication of what it brought.
        Each outcome is a legal sequence of moves of the monitor.  A negative Content-Length asks read for a huge size,
        and is the only reason why a read can overrun the buffer. */
    method Fill(socket: Socket, contentLen: int, totalReceived: nat, ghost m: M.Monitor) returns (n: int, overrun: bool)
      requires Shows(m) && M.Inv(m) && m.ppc.PRead?
      requires m.contentLen == contentLen && m.received == totalReceived && socket.incoming == m.wire[m.received..]
      modifies this, data, socket`incoming, socket`failed
      ensures -1 <= n
      ensures overrun ==> contentLen < 0 && n > data.Length && M.Enabled(m, M.PReadSome(n))
      ensures n == -1 ==>
                M.Enabled(m, M.PReadError) && Shows(M.Apply(m, M.PReadError)) && socket.incoming == old(socket.incoming)
      ensures n == 0 ==>
                M.Enabled(m, M.PReadEof) && Shows(M.Apply(m, M.PReadEof)) && socket.incoming == old(socket.incoming)
      ensures n > 0 && !overrun ==>
                var moves := [M.PReadSome(n), M.PStep];
                && M.Legal(m, moves) && Shows(M.After(m, moves))
                && socket.incoming == m.wire[m.received + n..]
    {
      hide M.Legal, M.After, M.Overwrite, M.Apply, M.Inv;
      ghost var buffer := data[..];
      FailedReads(m);
      ReadWithinLength(m);
      overrun := false;
      var left := contentLen - totalReceived;
      var size := if left >= M.MAX_CHUNK_SIZE then M.MAX_CHUNK_SIZE else left;
      if size < 0 {
        // read() is passed a size beyond the buffer: it may bring everything there is
        if |socket.incoming| > data.Length {
          if * {
            return |socket.incoming|, true;
          }
        }
        size := if |socket.incoming| < data.Length then |socket.incoming| else data.Length;
      }
      n := socket.Read(data, size);
      if n > 0 {
        Published(m, n);
        ghost var bytes := m.wire[m.received..m.received + n];
        assert old(socket.incoming)[..n] == bytes;
        StoredPrefix(buffer, m.data, bytes);
        dimen := n;
        wrote := false;
      }
    }

    /** The critical section of send_http_chunks: the chunk is written to the client and the slot is cleared.  Before
        the body the client has received `header`.  Short writes and a failure in the middle of the chunk are moves of
        the monitor too; a write that accepts nothing loses the rest of the chunk, and the code does not notice. */
    method Drain(socket: Socket, ghost header: string, ghost m: M.Monitor) returns (status: Ending, count: nat)
      requires Shows(m) && M.Inv(m) && m.cpc == M.CSend(0) && !socket.failed && !socket.stalled
      requires socket.sent == header + m.client
      modifies this, socket`sent, socket`failed, socket`stalled
      ensures status in {OK, ERROR} && (status == ERROR <==> socket.failed)
      ensures status == ERROR ==>
                && |header + m.client| <= |socket.sent|
                && var moves := FailingMoves(|socket.sent| - |header + m.client|);
                   M.Legal(m, moves) && Shows(M.After(m, moves)) && socket.sent == header + M.After(m, moves).client
      ensures status == OK ==> m.dimen <= |m.data| && count == m.dimen && dimen == 0 && wrote
      ensures status == OK && !socket.stalled ==>
                var moves := [M.CWrite(m.dimen), M.CStep, M.CStep];
                && M.Legal(m, moves) && Shows(M.After(m, moves)) && socket.sent == header + M.After(m, moves).client
                && M.After(m, moves).totalSent == m.totalSent + count
      ensures status == OK && socket.stalled ==>
                && socket.sent <= header + m.client + m.data[..m.dimen]
                && |header + m.client| <= |socket.sent| < |header + m.client| + m.dimen
    {
      hide M.Legal, M.After, M.Inv, FailingMoves;
      ChunkToSend(m);
      ghost var chunk := m.data[..m.dimen];
      count := dimen;
      assert data[..dimen] == data[..|m.data|][..dimen];
      status := socket.SendHttp(data[..dimen]);
      SentPart(header, m.client, chunk, socket.sent);
      if status == ERROR {
        ghost var lost := |socket.sent| - |header + m.client|;
        assert chunk[..lost] == m.data[..lost];
        WriteFailed(m, lost);
        return;
      }
      Cleared(m);
      dimen := 0;
      wrote := true;
    }
  }
}
