/** The response printer, and what the request parser makes of the header block it prints. */
module HttpResponses {
  import opened Bytes
  import opened Buffers
  import opened Numerals
  import opened HttpRequests
  import opened HttpParser

  const SCRATCH_SIZE: nat := 32

  // ---------- std::map<std::string, std::string> ----------

  datatype Header = Header(name: string, value: string)

  /** Byte-wise lexicographic order, as std::string compares. */
  predicate Less(a: string, b: string) {
    b != [] && (a == [] || a[0] < b[0] || (a[0] == b[0] && Less(a[1..], b[1..])))
  }

  lemma {:induction false} LessTrichotomy(a: string, b: string)
    ensures Less(a, b) || a == b || Less(b, a)
    ensures !(Less(a, b) && Less(b, a)) && !Less(a, a)
    decreases |a|
  {
    if a != [] && b != [] {
      LessTrichotomy(a[1..], b[1..]);
      assert a == [a[0]] + a[1..] && b == [b[0]] + b[1..];
      LessTrichotomy(a[1..], a[1..]);
    } else if a != [] {
      LessTrichotomy(a[1..], a[1..]);
    }
  }

  lemma {:induction false} LessTransitive(a: string, b: string, c: string)
    requires Less(a, b) && Less(b, c)
    ensures Less(a, c)
    decreases |a|
  {
    if a != [] && a[0] == b[0] == c[0] {
      LessTransitive(a[1..], b[1..], c[1..]);
    }
  }

  /** Strictly ascending names: how a map is traversed. */
  predicate Sorted(hs: seq<Header>) {
    forall i :: 0 <= i < |hs| - 1 ==> Less(hs[i].name, hs[i + 1].name)
  }

  /** headers_[name] = value. */
  function Insert(hs: seq<Header>, h: Header): seq<Header> {
    if hs == [] then [h]
    else if Less(h.name, hs[0].name) then [h] + hs
    else if h.name == hs[0].name then [h] + hs[1..]
    else [hs[0]] + Insert(hs[1..], h)
  }

  function AsMap(hs: seq<Header>): map<string, string> {
    if hs == [] then map[] else map[hs[0].name := hs[0].value] + AsMap(hs[1..])
  }

  lemma SortedTail(hs: seq<Header>)
    requires Sorted(hs) && hs != []
    ensures Sorted(hs[1..]) && (|hs| > 1 ==> Less(hs[0].name, hs[1].name))
  {
    assert forall i :: 0 <= i < |hs| - 1 ==> hs[1..][i] == hs[i + 1];
  }

  lemma {:induction false} InsertSorted(hs: seq<Header>, h: Header)
    requires Sorted(hs)
    ensures Sorted(Insert(hs, h)) && Insert(hs, h) != []
    ensures hs != [] ==> Insert(hs, h)[0].name in {h.name, hs[0].name}
    decreases |hs|
  {
    if hs != [] {
      LessTrichotomy(h.name, hs[0].name);
      assert forall i :: 0 <= i < |hs| - 1 ==> hs[1..][i] == hs[i + 1];
      InsertSorted(hs[1..], h);
    }
  }

  lemma {:induction false} SmallerAbsent(hs: seq<Header>, name: string)
    requires Sorted(hs) && (hs != [] ==> Less(name, hs[0].name))
    ensures name !in AsMap(hs)
    decreases |hs|
  {
    if hs != [] {
      LessTrichotomy(name, hs[0].name);
      if |hs| > 1 {
        LessTransitive(name, hs[0].name, hs[1].name);
      }
      assert forall i :: 0 <= i < |hs| - 1 ==> hs[1..][i] == hs[i + 1];
      SmallerAbsent(hs[1..], name);
    }
  }

  lemma AsMapCons(h: Header, tail: seq<Header>)
    ensures AsMap([h] + tail) == map[h.name := h.value] + AsMap(tail)
  {
    assert ([h] + tail)[1..] == tail;
  }

  lemma PutFirst(h: Header, m: map<string, string>)
    requires h.name !in m
    ensures map[h.name := h.value] + m == m[h.name := h.value]
    ensures forall v :: (map[h.name := v] + m)[h.name := h.value] == m[h.name := h.value]
  {
  }

  lemma PutBehind(first: Header, m: map<string, string>, h: Header)
    requires first.name != h.name
    ensures map[first.name := first.value] + m[h.name := h.value] ==
            (map[first.name := first.value] + m)[h.name := h.value]
  {
  }

  /** Inserting into the ordered list is updating the map it stands for. */
  lemma {:induction false} InsertIsUpdate(hs: seq<Header>, h: Header)
    requires Sorted(hs)
    ensures AsMap(Insert(hs, h)) == AsMap(hs)[h.name := h.value]
    decreases |hs|
  {
    if hs == [] {
      AsMapCons(h, []);
    } else if Less(h.name, hs[0].name) {
      SmallerAbsent(hs, h.name);
      AsMapCons(h, hs);
      PutFirst(h, AsMap(hs));
    } else {
      var first, tail := hs[0], hs[1..];
      assert Sorted(tail) && (tail != [] ==> Less(first.name, tail[0].name)) by { SortedTail(hs); }
      if h.name == first.name {
        SmallerAbsent(tail, h.name);
        AsMapCons(h, tail);
        PutFirst(h, AsMap(tail));
      } else {
        InsertIsUpdate(tail, h);
        AsMapCons(first, Insert(tail, h));
        PutBehind(first, AsMap(tail), h);
      }
    }
  }

  // ---------- printing ----------

  datatype Response = Response(
    statusCode: int, statusMessage: string, closeConnection: bool, headers: seq<Header>, body: string)

  function StatusLine(r: Response): string {
    Snprintf(SCRATCH_SIZE, "HTTP/1.1 " + Decimal(r.statusCode) + " ") + r.statusMessage
  }

  function ContentLength(n: nat): string {
    "Content-Length: " + Decimal(n) + CRLF
  }

  function CloseHeader(): Header { Header("Connection", "close") }
  function KeepAliveHeader(): Header { Header("Connection", "Keep-Alive") }
  function LengthHeader(n: nat): Header { Header("Content-Length", Decimal(n)) }

  function CloseLine(): string { "Connection: close\r\n" }
  function KeepAliveLine(): string { "Connection: Keep-Alive\r\n" }

  function DefaultHeaders(r: Response): string {
    if r.closeConnection then CloseLine()
    else Snprintf(SCRATCH_SIZE, ContentLength(|r.body|)) + KeepAliveLine()
  }

  function PrintHeader(h: Header): string {
    h.name + ": " + h.value + CRLF
  }

  function UserHeaders(hs: seq<Header>): string {
    if hs == [] then [] else PrintHeader(hs[0]) + UserHeaders(hs[1..])
  }

  function AfterStatusLine(r: Response): string {
    DefaultHeaders(r) + UserHeaders(r.headers) + CRLF + r.body
  }

  function PrintResponse(r: Response): string {
    StatusLine(r) + CRLF + AfterStatusLine(r)
  }

  class HttpResponse {
    var statusCode: int
    var statusMessage: string
    var closeConnection: bool
    var headers: seq<Header>
    var body: string

    function Value(): Response
      reads this
    {
      Response(statusCode, statusMessage, closeConnection, headers, body)
    }

    ghost predicate Valid()
      reads this
    {
      Sorted(headers)
    }

    constructor (close: bool)
      ensures Valid() && Value() == Response(0, "", close, [], "")
    {
      statusCode, statusMessage, closeConnection, headers, body := 0, "", close, [], "";
    }

    method AddHeader(name: string, value: string)
      requires Valid()
      modifies this
      ensures Valid() && AsMap(headers) == AsMap(old(headers))[name := value]
      ensures Value() == old(Value()).(headers := headers)
    {
      InsertSorted(headers, Header(name, value));
      InsertIsUpdate(headers, Header(name, value));
      headers := Insert(headers, Header(name, value));
    }

    /** Prints piece by piece, through one scratch buffer of 32 bytes. */
    method AppendToBuffer(output: Buffer)
      requires output.Valid()
      modifies output, output.data
      ensures output.Valid()
      ensures output.Readable() == old(output.Readable()) + PrintResponse(Value())
    {
      AppendStatusLine(output);
      AppendDefaults(output);
      AppendHeaders(output);
      output.Append(CRLF);
      output.Append(body);
      JoinPieces(old(output.Readable()), StatusLine(Value()) + CRLF, DefaultHeaders(Value()),
                 UserHeaders(headers), body);
    }

    method AppendStatusLine(output: Buffer)
      requires output.Valid()
      modifies output, output.data
      ensures output.Valid() && (output.data == old(output.data) || fresh(output.data))
      ensures output.Readable() == old(output.Readable()) + (StatusLine(Value()) + CRLF)
    {
      hide Snprintf, Decimal;
      var buf := Snprintf(SCRATCH_SIZE, "HTTP/1.1 " + Decimal(statusCode) + " ");
      ghost var before := output.Readable();
      output.Append(buf);
      output.Append(statusMessage);
      output.Append(CRLF);
      assert StatusLine(Value()) == buf + statusMessage;
      assert before + buf + statusMessage + CRLF == before + (buf + statusMessage + CRLF);
    }

    method AppendDefaults(output: Buffer)
      requires output.Valid()
      modifies output, output.data
      ensures output.Valid() && (output.data == old(output.data) || fresh(output.data))
      ensures output.Readable() == old(output.Readable()) + DefaultHeaders(Value())
    {
      hide CloseLine, KeepAliveLine, ContentLength, Snprintf;
      if closeConnection {
        output.Append(CloseLine());
      } else {
        var buf := Snprintf(SCRATCH_SIZE, ContentLength(|body|));
        ghost var before := output.Readable();
        output.Append(buf);
        output.Append(KeepAliveLine());
        assert before + buf + KeepAliveLine() == before + (buf + KeepAliveLine());
      }
    }

    method AppendHeaders(output: Buffer)
      requires output.Valid()
      modifies output, output.data
      ensures output.Valid() && (output.data == old(output.data) || fresh(output.data))
      ensures output.Readable() == old(output.Readable()) + UserHeaders(headers)
    {
      var i := 0;
      assert headers[0..] == headers;
      while i < |headers|
        modifies output, output.data
        invariant 0 <= i <= |headers|
        invariant output.Valid() && (output.data == old(output.data) || fresh(output.data))
        invariant output.Readable() + UserHeaders(headers[i..]) == old(output.Readable()) + UserHeaders(headers)
      {
        ghost var before, rest := output.Readable(), UserHeaders(headers[i + 1..]);
        assert headers[i..][1..] == headers[i + 1..];
        AppendHeader(output, headers[i]);
        assert before + PrintHeader(headers[i]) + rest == before + (PrintHeader(headers[i]) + rest);
        i := i + 1;
      }
    }

    method AppendHeader(output: Buffer, header: Header)
      requires output.Valid()
      modifies output, output.data
      ensures output.Valid() && (output.data == old(output.data) || fresh(output.data))
      ensures output.Readable() == old(output.Readable()) + PrintHeader(header)
    {
      hide PrintHeader;
      output.Append(header.name);
      output.Append(": ");
      output.Append(header.value);
      output.Append(CRLF);
      HeaderPieces(old(output.Readable()), header);
    }
  }

  lemma HeaderPieces(start: string, h: Header)
    ensures start + h.name + ": " + h.value + CRLF == start + PrintHeader(h)
  {
  }

  lemma JoinPieces(start: string, line: string, defaults: string, user: string, body: string)
    ensures start + line + defaults + user + CRLF + body == start + (line + (defaults + user + CRLF + body))
  {
  }

  // ---------- reading it back ----------

  predicate Readable(h: Header) {
    ':' !in h.name && NoCrOrLf(h.name) && NoCrOrLf(h.value) && Trimmed(h.value)
  }

  /** The 32-byte scratch buffer holds the whole Content-Length line exactly for bodies below 10^13 bytes. */
  lemma ContentLengthExact(n: nat)
    ensures Snprintf(SCRATCH_SIZE, ContentLength(n)) == ContentLength(n) <==> n < 10_000_000_000_000
  {
    DigitsLength(Dec, n, 13);
    PowDec20();
    assert |ContentLength(n)| == 18 + |Decimal(n)|;
  }

  /** The status line always fits its scratch buffer, whatever the code. */
  lemma StatusLineExact(r: Response)
    requires -0x8000_0000 <= r.statusCode < 0x8000_0000
    ensures StatusLine(r) == "HTTP/1.1 " + Decimal(r.statusCode) + " " + r.statusMessage
  {
    WidthBounds(r.statusCode);
  }

  function AsLines(hs: seq<Header>): seq<HeaderLine> {
    if hs == [] then [] else [AsLine(hs[0])] + AsLines(hs[1..])
  }

  function AsLine(h: Header): HeaderLine {
    HeaderLine(h.name, " ", h.value, "")
  }

  lemma LinePrintsAlike(h: Header)
    ensures AsLine(h).Text() + CRLF == PrintHeader(h)
    ensures Readable(h) ==> AsLine(h).Valid()
  {
  }

  lemma {:induction false} LinesPrintAlike(hs: seq<Header>)
    requires forall h <- hs :: Readable(h)
    ensures PrintHeaders(AsLines(hs)) == UserHeaders(hs) && ValidHeaders(AsLines(hs))
    decreases |hs|
  {
    if hs != [] {
      LinesPrintAlike(hs[1..]);
      LinePrintsAlike(hs[0]);
      assert AsLines(hs)[1..] == AsLines(hs[1..]);
    }
  }

  lemma {:induction false} LinesMapAlike(m: map<string, string>, hs: seq<Header>)
    requires Sorted(hs)
    ensures HeaderMap(m, AsLines(hs)) == m + AsMap(hs)
    decreases |hs|
  {
    if hs != [] {
      var h, tail := hs[0], hs[1..];
      assert forall i :: 0 <= i < |hs| - 1 ==> tail[i] == hs[i + 1];
      LinesMapAlike(m[h.name := h.value], tail);
      assert AsLines(hs)[1..] == AsLines(tail);
      SmallerAbsent(tail, h.name);
      assert m[h.name := h.value] + AsMap(tail) == m + (map[h.name := h.value] + AsMap(tail));
    }
  }

  /** The headers the printer adds by itself. */
  function DefaultMap(r: Response): map<string, string> {
    if r.closeConnection then map[CloseHeader().name := CloseHeader().value]
    else map[LengthHeader(|r.body|).name := LengthHeader(|r.body|).value,
             KeepAliveHeader().name := KeepAliveHeader().value]
  }

  lemma DecimalDigits(n: nat)
    ensures forall i :: 0 <= i < |Decimal(n)| ==> '0' <= Decimal(n)[i] <= '9'
  {
    DigitsDenote(Dec, n);
    var s := Digits(Dec, n);
    assert forall i :: 0 <= i < |s| ==> DigitValue(s[i]) < 10;
  }

  lemma DecimalReadable(n: nat)
    ensures NoCrOrLf(Decimal(n)) && Trimmed(Decimal(n))
  {
    DecimalDigits(n);
    hide Decimal;
  }

  lemma LiteralHeadersReadable()
    ensures Readable(CloseHeader()) && Readable(KeepAliveHeader())
  {
  }

  lemma DefaultsReadable(n: nat)
    ensures Readable(CloseHeader()) && Readable(KeepAliveHeader()) && Readable(LengthHeader(n))
  {
    LiteralHeadersReadable();
    hide CloseHeader, KeepAliveHeader;
    DecimalReadable(n);
    hide Decimal;
  }

  lemma CloseLinePrints()
    ensures CloseLine() == PrintHeader(CloseHeader())
  {
  }

  lemma KeepAliveLinePrints()
    ensures KeepAliveLine() == PrintHeader(KeepAliveHeader())
  {
  }

  lemma LengthLinePrints(n: nat)
    ensures ContentLength(n) == PrintHeader(LengthHeader(n))
  {
  }

  lemma DefaultsPrint(r: Response)
    requires r.closeConnection || |r.body| < 10_000_000_000_000
    ensures DefaultHeaders(r) == if r.closeConnection then PrintHeader(CloseHeader())
              else PrintHeader(LengthHeader(|r.body|)) + PrintHeader(KeepAliveHeader())
  {
    CloseLinePrints();
    KeepAliveLinePrints();
    LengthLinePrints(|r.body|);
    ContentLengthExact(|r.body|);
    hide ContentLength, PrintHeader, CloseHeader, KeepAliveHeader, LengthHeader, Snprintf;
  }

  lemma DefaultsReadBack(r: Response, request: Request, rest: string, now: int)
    requires r.closeConnection || |r.body| < 10_000_000_000_000
    ensures Parse(Context(ExpectHeaders, request), DefaultHeaders(r) + rest, now) ==
            Parse(Context(ExpectHeaders, request.(headers := request.headers + DefaultMap(r))), rest, now)
  {
    DefaultsPrint(r);
    DefaultsReadable(|r.body|);
    hide Parse, DefaultHeaders, PrintHeader, Readable, CloseHeader, KeepAliveHeader, LengthHeader;
    if r.closeConnection {
      var h := CloseHeader();
      DefaultRead(h, request, rest, now);
      assert request.headers[h.name := h.value] == request.headers + DefaultMap(r);
    } else {
      TwoDefaultsRead(LengthHeader(|r.body|), KeepAliveHeader(), request, rest, now);
    }
  }

  lemma TwoDefaultsRead(n: Header, h: Header, request: Request, rest: string, now: int)
    requires Readable(n) && Readable(h)
    ensures Parse(Context(ExpectHeaders, request), PrintHeader(n) + PrintHeader(h) + rest, now) ==
            Parse(Context(ExpectHeaders,
                          request.(headers := request.headers + map[n.name := n.value, h.name := h.value])),
                  rest, now)
  {
    hide Parse, PrintHeader, Readable;
    var first := request.(headers := request.headers[n.name := n.value]);
    assert PrintHeader(n) + PrintHeader(h) + rest == PrintHeader(n) + (PrintHeader(h) + rest);
    DefaultRead(n, request, PrintHeader(h) + rest, now);
    DefaultRead(h, first, rest, now);
    assert first.headers[h.name := h.value] == request.headers + map[n.name := n.value, h.name := h.value];
  }

  lemma DefaultRead(h: Header, request: Request, rest: string, now: int)
    requires Readable(h)
    ensures Parse(Context(ExpectHeaders, request), PrintHeader(h) + rest, now) ==
            Parse(Context(ExpectHeaders, request.(headers := request.headers[h.name := h.value])), rest, now)
  {
    LinePrintsAlike(h);
    HeaderStep(request, AsLine(h), rest, now);
  }

  /**
   The parser, started after the status line, recovers the user's headers laid over the
   defaults and leaves exactly the body unread, whatever bytes the body holds.
   */
  lemma ResponseRoundTrip(r: Response, request: Request, now: int)
    requires Sorted(r.headers) && (forall h <- r.headers :: Readable(h))
    requires r.closeConnection || |r.body| < 10_000_000_000_000
    ensures Parse(Context(ExpectHeaders, request), AfterStatusLine(r), now) ==
            Parsed(true,
                   Context(GotAll, request.(headers := request.headers + DefaultMap(r) + AsMap(r.headers))),
                   r.body)
  {
    var rest := PrintHeaders(AsLines(r.headers)) + CRLF + r.body;
    var after := request.(headers := request.headers + DefaultMap(r));
    LinesPrintAlike(r.headers);
    assert AfterStatusLine(r) == DefaultHeaders(r) + rest;
    DefaultsReadBack(r, request, rest, now);
    HeadersReadBack(after, AsLines(r.headers), r.body, now);
    LinesMapAlike(after.headers, r.headers);
  }

  /** The status line is the first line of what is printed. */
  lemma StatusLineFirst(r: Response)
    requires NoCrOrLf(r.statusMessage)
    ensures var k := FindCrlf(PrintResponse(r));
            PrintResponse(r)[..k] == StatusLine(r) && PrintResponse(r)[k + 2..] == AfterStatusLine(r)
  {
    DecimalReadable(Abs(r.statusCode));
    assert NoCrOrLf("HTTP/1.1 " + Decimal(r.statusCode) + " ");
    assert NoCrOrLf(StatusLine(r));
    LineConsumed(StatusLine(r), AfterStatusLine(r));
  }

  /** The printed bytes, in so many words: the defaults are the close header, or the length and keep-alive. */
  lemma PrintedResponse(r: Response)
    requires -0x8000_0000 <= r.statusCode < 0x8000_0000
    requires r.closeConnection || |r.body| < 10_000_000_000_000
    ensures PrintResponse(r) ==
            "HTTP/1.1 " + Decimal(r.statusCode) + " " + r.statusMessage + "\r\n" +
            ((if r.closeConnection then "Connection: close\r\n"
              else "Content-Length: " + Decimal(|r.body|) + "\r\n" + "Connection: Keep-Alive\r\n")
             + UserHeaders(r.headers) + "\r\n" + r.body)
    ensures DefaultMap(r) == if r.closeConnection then map["Connection" := "close"]
                             else map["Content-Length" := Decimal(|r.body|), "Connection" := "Keep-Alive"]
  {
    StatusLineExact(r);
    ContentLengthExact(|r.body|);
    hide StatusLine, Snprintf, Decimal, UserHeaders;
  }
}
