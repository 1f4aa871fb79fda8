/**
 What the request parser computes, as a function of the unread bytes, and what follows from it:
 which lines it accepts, that it does not matter how the bytes were cut into reads, and that it
 reads back what was printed.
 */
module HttpParser {
  import opened Bytes
  import opened HttpRequests

  datatype ParseState = ExpectRequestLine | ExpectHeaders | ExpectBody | GotAll

  datatype Context = Context(state: ParseState, request: Request) {
    /** The states parseRequest can be entered in: in the other two its loop would not end. */
    predicate CanParse() {
      state == ExpectRequestLine || state == ExpectHeaders
    }
  }

  const FRESH_CONTEXT := Context(ExpectRequestLine, FRESH_REQUEST)

  /** The verdict, the context afterwards, and the bytes left in the buffer. */
  datatype Parsed = Parsed(ok: bool, context: Context, unread: string) {
    predicate Stopped() {
      !ok || context.state == GotAll
    }
    function Later(bytes: string): Parsed {
      this.(unread := unread + bytes)
    }
  }

  function VersionOf(s: string): Version {
    if |s| == 8 && s[..7] == "HTTP/1." then
      if s[7] == '1' then Http11 else if s[7] == '0' then Http10 else Unknown
    else Unknown
  }

  function VersionString(v: Version): string {
    match v
    case Http11 => "HTTP/1.1"
    case Http10 => "HTTP/1.0"
    case Unknown => ""
  }

  /** processRequestLine, with the request as it is left behind on failure too. */
  function ProcessRequestLine(r: Request, line: string): (bool, Request) {
    var space := Find(line, ' ');
    if space == |line| then (false, r) else
      var r1 := r.(verb := VerbOf(line[..space]));
      if r1.verb == Invalid then (false, r1) else
        var rest := line[space + 1..];
        var second := Find(rest, ' ');
        if second == |rest| then (false, r1) else
          var r2 := WithTarget(r1, rest[..second]);
          var version := VersionOf(rest[second + 1..]);
          if version == Unknown then (false, r2) else (true, r2.(version := version))
  }

  /** What one complete line does: the loop goes on, parsing fails, or the request is complete. */
  datatype Step = More(context: Context) | Failed(context: Context) | Done(context: Context)

  function LineStep(c: Context, line: string, now: int): (s: Step)
    requires c.CanParse()
    ensures s.More? ==> s.context.CanParse()
  {
    if c.state == ExpectRequestLine then
      var (ok, r) := ProcessRequestLine(c.request, line);
      if ok then More(Context(ExpectHeaders, r.(receiveTime := now))) else Failed(c.(request := r))
    else
      var colon := Find(line, ':');
      if colon != |line| then More(c.(request := WithHeader(c.request, line, colon))) else Done(c.(state := GotAll))
  }

  function Parse(c: Context, bytes: string, now: int): (p: Parsed)
    requires c.CanParse()
    ensures !p.Stopped() ==> p.context.CanParse() && FindCrlf(p.unread) == |p.unread|
    decreases |bytes|
  {
    var k := FindCrlf(bytes);
    if k == |bytes| then Parsed(true, c, bytes) else
      match LineStep(c, bytes[..k], now)
      case More(d) => Parse(d, bytes[k + 2..], now)
      case Failed(d) => Parsed(false, d, bytes)
      case Done(d) => Parsed(true, d, bytes[k + 2..])
  }

  // ---------- which request lines are accepted ----------

  /** The grammar: method SP target SP version, no space in the target. */
  predicate IsRequestLine(line: string, verb: Verb, target: string, version: Version) {
    verb != Invalid && version != Unknown && ' ' !in target
    && line == VerbString(verb) + " " + target + " " + VersionString(version)
  }

  lemma VersionRoundTrip(v: Version, s: string)
    ensures v != Unknown ==> VersionOf(VersionString(v)) == v
    ensures VersionOf(s) != Unknown ==> VersionString(VersionOf(s)) == s
  {
    if VersionOf(s) != Unknown {
      assert s == s[..7] + [s[7]];
    }
  }

  /** The two version strings, each with its version. */
  lemma VersionNames(s: string)
    ensures VersionOf("HTTP/1.1") == Http11 && VersionOf("HTTP/1.0") == Http10
    ensures VersionOf(s) != Unknown <==> s in {"HTTP/1.0", "HTTP/1.1"}
  {
    VersionRoundTrip(Unknown, s);
  }

  lemma FindSplit(front: string, c: char, tail: string)
    requires c !in front
    ensures Find(front + [c] + tail, c) == |front|
    ensures (front + [c] + tail)[..|front|] == front && (front + [c] + tail)[|front| + 1..] == tail
  {
    var s := front + [c] + tail;
    assert s[|front|] == c;
    assert forall j :: 0 <= j < |front| ==> s[j] == front[j];
  }

  lemma TwoSpaces(name: string, target: string, version: string)
    requires ' ' !in name && ' ' !in target
    ensures var line := name + " " + target + " " + version;
            var space := Find(line, ' ');
            var second := Find(target + " " + version, ' ');
            && space == |name| < |line| && line[..space] == name
            && line[space + 1..] == target + " " + version
            && second == |target| < |target + " " + version|
            && (target + " " + version)[..second] == target && (target + " " + version)[second + 1..] == version
  {
    hide Find;
    FindSplit(name, ' ', target + " " + version);
    assert name + " " + target + " " + version == name + [' '] + (target + " " + version);
    FindSplit(target, ' ', version);
  }

  lemma RequestLineFields(r: Request, line: string, verb: Verb, target: string, version: Version)
    requires IsRequestLine(line, verb, target, version)
    ensures ProcessRequestLine(r, line) == (true, WithTarget(r.(verb := verb), target).(version := version))
  {
    hide Find, WithTarget, VerbOf, VerbString, VersionOf, VersionString;
    VerbRoundTrip(verb, "");
    VersionRoundTrip(version, "");
    TwoSpaces(VerbString(verb), target, VersionString(version));
  }

  /** The line splits as the grammar says whenever it is accepted. */
  lemma AcceptedSplit(r: Request, line: string) returns (verb: Verb, target: string, version: Version)
    requires ProcessRequestLine(r, line).0
    ensures IsRequestLine(line, verb, target, version)
  {
    var space := Find(line, ' ');
    var rest := line[space + 1..];
    var second := Find(rest, ' ');
    var name, last := line[..space], rest[second + 1..];
    verb, target, version := VerbOf(name), rest[..second], VersionOf(last);
    assert verb != Invalid && version != Unknown;
    assert VerbString(verb) == name by { VerbRoundTrip(verb, name); }
    assert VersionString(version) == last by { VersionRoundTrip(version, last); }
    hide VerbOf, VersionOf, VerbString, VersionString, ProcessRequestLine;
    SplitAt(line, space);
    SplitAt(rest, second);
    Associate(name, target, last);
  }

  lemma SplitAt(s: string, k: nat)
    requires k < |s|
    ensures s == s[..k] + [s[k]] + s[k + 1..]
  {
  }

  lemma Associate(name: string, target: string, version: string)
    ensures name + " " + (target + " " + version) == name + " " + target + " " + version
  {
  }

  /** A line is accepted exactly when it is in the grammar, whatever the request held before. */
  lemma RequestLineAcceptance(r: Request, line: string)
    ensures ProcessRequestLine(r, line).0 <==>
            exists verb, target, version :: IsRequestLine(line, verb, target, version)
  {
    if ProcessRequestLine(r, line).0 {
      var verb, target, version := AcceptedSplit(r, line);
    }
    if exists verb, target, version :: IsRequestLine(line, verb, target, version) {
      var verb, target, version :| IsRequestLine(line, verb, target, version);
      RequestLineFields(r, line, verb, target, version);
    }
  }

  // ---------- incremental parsing ----------

  lemma ParseWithoutLine(c: Context, bytes: string, now: int)
    requires c.CanParse() && FindCrlf(bytes) == |bytes|
    ensures Parse(c, bytes, now) == Parsed(true, c, bytes)
  {
    hide LineStep, FindCrlf;
  }

  lemma ParseLine(c: Context, bytes: string, k: nat, step: Step, now: int)
    requires c.CanParse() && k == FindCrlf(bytes) < |bytes| && LineStep(c, bytes[..k], now) == step
    ensures step.More? ==> Parse(c, bytes, now) == Parse(step.context, bytes[k + 2..], now)
    ensures step.Failed? ==> Parse(c, bytes, now) == Parsed(false, step.context, bytes)
    ensures step.Done? ==> Parse(c, bytes, now) == Parsed(true, step.context, bytes[k + 2..])
  {
    hide LineStep, FindCrlf;
  }

  /** Done is done, and a failure or a request awaiting lines is no more. */
  lemma StepStops(c: Context, line: string, now: int)
    requires c.CanParse()
    ensures LineStep(c, line, now).Done? ==> LineStep(c, line, now).context.state == GotAll
  {
  }

  /** Parsing some bytes, then more, is parsing them together. */
  lemma {:induction false} ParseSplit(c: Context, first: string, later: string, now: int)
    requires c.CanParse()
    ensures var p := Parse(c, first, now);
            Parse(c, first + later, now) ==
            if p.Stopped() then p.Later(later) else Parse(p.context, p.unread + later, now)
    decreases |first|
  {
    hide Parse, FindCrlf, LineStep;
    var k := FindCrlf(first);
    if k < |first| {
      FindCrlfStable(first, later);
      assert (first + later)[..k] == first[..k];
      assert (first + later)[k + 2..] == first[k + 2..] + later;
      var step := LineStep(c, first[..k], now);
      ParseLine(c, first, k, step, now);
      ParseLine(c, first + later, k, step, now);
      if step.More? {
        ParseSplit(step.context, first[k + 2..], later, now);
      } else {
        StepStops(c, first[..k], now);
      }
    } else {
      ParseWithoutLine(c, first, now);
    }
  }

  predicate SameContext(c: Context, d: Context) {
    c.(request := c.request.(receiveTime := 0)) == d.(request := d.request.(receiveTime := 0))
  }

  /** Equal in everything but the receive time. */
  predicate SameParsed(p: Parsed, q: Parsed) {
    p.ok == q.ok && p.unread == q.unread && SameContext(p.context, q.context)
  }

  lemma TimeIrrelevantStep(c: Context, d: Context, line: string, t: int, u: int)
    requires c.CanParse() && SameContext(c, d)
    ensures var x, y := LineStep(c, line, t), LineStep(d, line, u);
            x.More? == y.More? && x.Failed? == y.Failed? && SameContext(x.context, y.context)
  {
  }

  lemma {:induction false} TimeIrrelevant(c: Context, d: Context, bytes: string, t: int, u: int)
    requires c.CanParse() && SameContext(c, d)
    ensures SameParsed(Parse(c, bytes, t), Parse(d, bytes, u))
    decreases |bytes|
  {
    hide Parse, LineStep, FindCrlf;
    var k := FindCrlf(bytes);
    if k == |bytes| {
      ParseWithoutLine(c, bytes, t);
      ParseWithoutLine(d, bytes, u);
    } else {
      TimeIrrelevantStep(c, d, bytes[..k], t, u);
      var x, y := LineStep(c, bytes[..k], t), LineStep(d, bytes[..k], u);
      ParseLine(c, bytes, k, x, t);
      ParseLine(d, bytes, k, y, u);
      if x.More? {
        TimeIrrelevant(x.context, y.context, bytes[k + 2..], t, u);
      }
    }
  }

  /** One read: the bytes that arrived and when. */
  datatype Chunk = Chunk(bytes: string, time: int)

  function Flatten(chunks: seq<Chunk>): string {
    if chunks == [] then [] else chunks[0].bytes + Flatten(chunks[1..])
  }

  /** parseRequest after every read until it fails or has everything; later reads only pile up. */
  function Feed(p: Parsed, chunks: seq<Chunk>): Parsed
    requires !p.Stopped() ==> p.context.CanParse()
    decreases |chunks|
  {
    if chunks == [] then p
    else if p.Stopped() then Feed(p.Later(chunks[0].bytes), chunks[1..])
    else Feed(Parse(p.context, p.unread + chunks[0].bytes, chunks[0].time), chunks[1..])
  }

  lemma {:induction false} FeedStopped(p: Parsed, chunks: seq<Chunk>)
    requires p.Stopped()
    ensures Feed(p, chunks) == p.Later(Flatten(chunks))
    decreases |chunks|
  {
    if chunks == [] {
      assert p.unread + [] == p.unread;
    } else {
      FeedStopped(p.Later(chunks[0].bytes), chunks[1..]);
      assert p.unread + chunks[0].bytes + Flatten(chunks[1..]) == p.unread + Flatten(chunks);
    }
  }

  lemma FeedStep(p: Parsed, c: Context, before: string, more: Chunk, now: int)
    requires c.CanParse() && SameParsed(p, Parse(c, before, now)) && !p.Stopped()
    ensures SameParsed(Parse(p.context, p.unread + more.bytes, more.time), Parse(c, before + more.bytes, now))
  {
    var q := Parse(c, before, now);
    ParseSplit(c, before, more.bytes, now);
    TimeIrrelevant(p.context, q.context, p.unread + more.bytes, more.time, now);
  }

  lemma FeedUnfold(p: Parsed, chunks: seq<Chunk>)
    requires !p.Stopped() && p.context.CanParse() && chunks != []
    ensures Feed(p, chunks) == Feed(Parse(p.context, p.unread + chunks[0].bytes, chunks[0].time), chunks[1..])
  {
  }

  lemma FeedLater(p: Parsed, chunks: seq<Chunk>)
    requires p.Stopped() && chunks != []
    ensures Feed(p, chunks) == Feed(p.Later(chunks[0].bytes), chunks[1..])
  {
  }

  lemma FeedNone(p: Parsed)
    requires !p.Stopped() ==> p.context.CanParse()
    ensures Feed(p, []) == p
  {
  }

  lemma FlattenUnfold(before: string, chunks: seq<Chunk>)
    requires chunks != []
    ensures before + Flatten(chunks) == before + chunks[0].bytes + Flatten(chunks[1..])
  {
  }

  lemma FeedRest(p: Parsed, c: Context, before: string, chunks: seq<Chunk>, now: int)
    requires c.CanParse() && SameParsed(p, Parse(c, before, now)) && p.Stopped()
    ensures SameParsed(Feed(p, chunks), Parse(c, before + Flatten(chunks), now))
  {
    FeedStopped(p, chunks);
    ParseSplit(c, before, Flatten(chunks), now);
  }

  lemma {:induction false} FeedFrom(p: Parsed, c: Context, before: string, chunks: seq<Chunk>, now: int)
    requires c.CanParse() && SameParsed(p, Parse(c, before, now))
    ensures SameParsed(Feed(p, chunks), Parse(c, before + Flatten(chunks), now))
    decreases |chunks|
  {
    if chunks == [] {
      assert before + [] == before;
    } else if p.Stopped() {
      FeedRest(p, c, before, chunks, now);
    } else {
      var more, rest := chunks[0], chunks[1..];
      var next := Parse(p.context, p.unread + more.bytes, more.time);
      FeedStep(p, c, before, more, now);
      FeedFrom(next, c, before + more.bytes, rest, now);
      FeedUnfold(p, chunks);
      FlattenUnfold(before, chunks);
    }
  }

  /** However the bytes were cut into reads, the outcome is that of one call on all of them. */
  lemma IncrementalIsOneShot(c: Context, chunks: seq<Chunk>, now: int)
    requires c.CanParse()
    ensures SameParsed(Feed(Parsed(true, c, ""), chunks), Parse(c, Flatten(chunks), now))
  {
    FeedFrom(Parsed(true, c, ""), c, "", chunks, now);
    assert "" + Flatten(chunks) == Flatten(chunks);
  }

  // ---------- printing and reading back ----------

  /** A header as it may be written: optional white space around a trimmed value. */
  datatype HeaderLine = HeaderLine(name: string, before: string, value: string, after: string) {
    predicate Valid() {
      ':' !in name && NoCrOrLf(name) && NoCrOrLf(before) && NoCrOrLf(value) && NoCrOrLf(after)
      && AllSpace(before) && AllSpace(after) && Trimmed(value)
    }
    function Text(): string {
      name + ":" + (before + value + after)
    }
  }

  predicate ValidHeaders(hs: seq<HeaderLine>) {
    forall h <- hs :: h.Valid()
  }

  function PrintHeaders(hs: seq<HeaderLine>): string {
    if hs == [] then [] else hs[0].Text() + CRLF + PrintHeaders(hs[1..])
  }

  /** The map the headers build, later ones replacing earlier ones of the same name. */
  function HeaderMap(m: map<string, string>, hs: seq<HeaderLine>): map<string, string>
    decreases |hs|
  {
    if hs == [] then m else HeaderMap(m[hs[0].name := hs[0].value], hs[1..])
  }

  /** One complete line in the buffer is consumed with its line end. */
  lemma LineConsumed(line: string, tail: string)
    requires NoCrOrLf(line)
    ensures var s := line + CRLF + tail;
            FindCrlf(s) == |line| < |s| && s[..|line|] == line && s[|line| + 2..] == tail
  {
    FindCrlfAfterLine(line, tail);
  }

  lemma HeaderRead(r: Request, h: HeaderLine)
    requires h.Valid()
    ensures Find(h.Text(), ':') == |h.name| < |h.Text()|
    ensures WithHeader(r, h.Text(), |h.name|) == r.(headers := r.headers[h.name := h.value])
  {
    FindSplit(h.name, ':', h.before + h.value + h.after);
    TrimInverse(h.before, h.value, h.after);
  }

  lemma HeaderOnOneLine(h: HeaderLine)
    requires h.Valid()
    ensures NoCrOrLf(h.Text())
  {
    var padded := h.before + h.value + h.after;
    assert NoCrOrLf(padded);
    assert NoCrOrLf(h.name + ":");
  }

  /** One round of the loop on a header line, on any other complete line, and on a request line. */
  lemma HeaderStep(r: Request, h: HeaderLine, rest: string, now: int)
    requires h.Valid()
    ensures Parse(Context(ExpectHeaders, r), h.Text() + CRLF + rest, now) ==
            Parse(Context(ExpectHeaders, r.(headers := r.headers[h.name := h.value])), rest, now)
  {
    HeaderOnOneLine(h);
    LineConsumed(h.Text(), rest);
    HeaderRead(r, h);
  }

  lemma EndOfHeadersStep(r: Request, line: string, rest: string, now: int)
    requires NoCrOrLf(line) && ':' !in line
    ensures Parse(Context(ExpectHeaders, r), line + CRLF + rest, now) == Parsed(true, Context(GotAll, r), rest)
  {
    LineConsumed(line, rest);
  }

  lemma RequestLineStep(r: Request, line: string, rest: string, now: int)
    requires NoCrOrLf(line) && ProcessRequestLine(r, line).0
    ensures Parse(Context(ExpectRequestLine, r), line + CRLF + rest, now) ==
            Parse(Context(ExpectHeaders, ProcessRequestLine(r, line).1.(receiveTime := now)), rest, now)
  {
    LineConsumed(line, rest);
  }

  /** A line is in the grammar for some method, target and version. */
  ghost predicate InGrammar(line: string) {
    exists verb, target, version :: IsRequestLine(line, verb, target, version)
  }

  /** From the headers on nothing fails, and nothing leads back to the request line. */
  lemma {:induction false} HeadersNeverFail(c: Context, bytes: string, now: int)
    requires c.state == ExpectHeaders
    ensures var p := Parse(c, bytes, now);
            p.ok && (p.context.state == ExpectHeaders || p.context.state == GotAll) && |p.unread| <= |bytes|
    decreases |bytes|
  {
    hide Parse, FindCrlf, LineStep;
    var k := FindCrlf(bytes);
    if k == |bytes| {
      ParseWithoutLine(c, bytes, now);
    } else {
      var step := LineStep(c, bytes[..k], now);
      ParseLine(c, bytes, k, step, now);
      HeaderStepNeverFails(c, bytes[..k], now);
      if step.More? {
        HeadersNeverFail(step.context, bytes[k + 2..], now);
      }
    }
  }

  lemma HeaderStepNeverFails(c: Context, line: string, now: int)
    requires c.state == ExpectHeaders
    ensures var s := LineStep(c, line, now);
            (s.More? && s.context.state == ExpectHeaders) || (s.Done? && s.context.state == GotAll)
  {
  }

  /**
   Where the request line is awaited a complete line decides: one in the grammar is consumed and parsing
   goes on behind it, any other is rejected, and neither it nor anything behind it is consumed.
   */
  lemma RequestLineDecides(r: Request, line: string, rest: string, now: int)
    requires NoCrOrLf(line)
    ensures var p := Parse(Context(ExpectRequestLine, r), line + CRLF + rest, now);
            if InGrammar(line) then
              p.ok && p.context.state != ExpectRequestLine && |p.unread| <= |rest|
            else
              !p.ok && p.context.state == ExpectRequestLine && p.unread == line + CRLF + rest
  {
    RequestLineAcceptance(r, line);
    if InGrammar(line) {
      RequestLineStep(r, line, rest, now);
      HeadersNeverFail(Context(ExpectHeaders, ProcessRequestLine(r, line).1.(receiveTime := now)), rest, now);
    } else {
      RequestLineRejected(r, line, rest, now);
    }
  }

  lemma RequestLineRejected(r: Request, line: string, rest: string, now: int)
    requires NoCrOrLf(line) && !ProcessRequestLine(r, line).0
    ensures Parse(Context(ExpectRequestLine, r), line + CRLF + rest, now) ==
            Parsed(false, Context(ExpectRequestLine, ProcessRequestLine(r, line).1), line + CRLF + rest)
  {
    hide ProcessRequestLine, FindCrlf;
    LineConsumed(line, rest);
  }

  /** What is stored of an accepted line, before parsing goes on with the headers behind it. */
  lemma RequestLineStored(r: Request, line: string, verb: Verb, target: string, version: Version,
                          rest: string, now: int)
    requires NoCrOrLf(line) && IsRequestLine(line, verb, target, version)
    ensures var stored := WithTarget(r.(verb := verb), target).(version := version, receiveTime := now);
            Parse(Context(ExpectRequestLine, r), line + CRLF + rest, now) ==
            Parse(Context(ExpectHeaders, stored), rest, now)
  {
    RequestLineFields(r, line, verb, target, version);
    RequestLineStep(r, line, rest, now);
  }

  /** In the headers a complete line decides too: one with a colon is stored, trimmed, one without ends them. */
  lemma HeaderLineDecides(r: Request, line: string, rest: string, now: int)
    requires NoCrOrLf(line)
    ensures ':' !in line ==>
              Parse(Context(ExpectHeaders, r), line + CRLF + rest, now) == Parsed(true, Context(GotAll, r), rest)
    ensures forall k :: 0 <= k < |line| && line[k] == ':' && ':' !in line[..k] ==>
              Parse(Context(ExpectHeaders, r), line + CRLF + rest, now) ==
              Parse(Context(ExpectHeaders, r.(headers := r.headers[line[..k] := TrimRight(TrimLeft(line[k + 1..]))])),
                    rest, now)
  {
    LineConsumed(line, rest);
    forall k | 0 <= k < |line| && line[k] == ':' && ':' !in line[..k]
      ensures Find(line, ':') == k
    {
      assert forall j :: 0 <= j < k ==> line[j] == line[..k][j];
    }
  }

  lemma {:induction false} HeadersReadBack(r: Request, hs: seq<HeaderLine>, tail: string, now: int)
    requires ValidHeaders(hs)
    ensures Parse(Context(ExpectHeaders, r), PrintHeaders(hs) + CRLF + tail, now) ==
            Parsed(true, Context(GotAll, r.(headers := HeaderMap(r.headers, hs))), tail)
    decreases |hs|
  {
    if hs == [] {
      EndOfHeadersStep(r, "", tail, now);
      assert PrintHeaders(hs) + CRLF + tail == "" + CRLF + tail;
    } else {
      var h, rest := hs[0], PrintHeaders(hs[1..]) + CRLF + tail;
      assert PrintHeaders(hs) + CRLF + tail == h.Text() + CRLF + rest;
      HeaderStep(r, h, rest, now);
      HeadersReadBack(r.(headers := r.headers[h.name := h.value]), hs[1..], tail, now);
    }
  }

  /** A request a client may send, together with the order its headers are written in. */
  predicate Sendable(r: Request, hs: seq<HeaderLine>) {
    r.verb != Invalid && r.version != Unknown
    && ' ' !in r.path && ' ' !in r.query && '?' !in r.path && NoCrOrLf(r.path) && NoCrOrLf(r.query)
    && (r.query == [] || r.query[0] == '?')
    && ValidHeaders(hs) && HeaderMap(map[], hs) == r.headers
  }

  function PrintRequest(r: Request, hs: seq<HeaderLine>): string {
    RequestLine(r) + CRLF + PrintHeaders(hs) + CRLF
  }

  lemma TargetReadBack(r: Request, path: string, query: string)
    requires '?' !in path && (query == [] || query[0] == '?') && r.query == []
    ensures WithTarget(r, path + query) == r.(path := path, query := query)
  {
    if query == [] {
      assert path + query == path;
      assert Find(path, '?') == |path|;
    } else {
      assert path + query == path + ['?'] + query[1..];
      FindSplit(path, '?', query[1..]);
    }
  }

  function RequestLine(r: Request): string {
    VerbString(r.verb) + " " + (r.path + r.query) + " " + VersionString(r.version)
  }

  lemma RequestLineOnOneLine(r: Request, hs: seq<HeaderLine>)
    requires Sendable(r, hs)
    ensures NoCrOrLf(RequestLine(r))
  {
    VerbRoundTrip(r.verb, "");
    assert NoCrOrLf(VerbString(r.verb) + " ");
    assert NoCrOrLf(r.path + r.query);
    assert NoCrOrLf(" " + VersionString(r.version));
    assert RequestLine(r) == (VerbString(r.verb) + " ") + (r.path + r.query) + (" " + VersionString(r.version));
  }

  lemma RequestLineReadBack(r: Request, hs: seq<HeaderLine>)
    requires Sendable(r, hs)
    ensures NoCrOrLf(RequestLine(r))
    ensures ProcessRequestLine(FRESH_REQUEST, RequestLine(r)) == (true, r.(headers := map[], receiveTime := 0))
  {
    assert NoCrOrLf(RequestLine(r)) by { RequestLineOnOneLine(r, hs); }
    RequestLineFields(FRESH_REQUEST, RequestLine(r), r.verb, r.path + r.query, r.version);
    TargetReadBack(FRESH_REQUEST.(verb := r.verb), r.path, r.query);
  }

  /** Whatever request is printed, a fresh parser reads exactly it, and leaves exactly what follows it. */
  lemma RequestRoundTrip(r: Request, hs: seq<HeaderLine>, tail: string, now: int)
    requires Sendable(r, hs)
    ensures Parse(FRESH_CONTEXT, PrintRequest(r, hs) + tail, now) ==
            Parsed(true, Context(GotAll, r.(receiveTime := now)), tail)
  {
    var rest := PrintHeaders(hs) + CRLF + tail;
    assert PrintRequest(r, hs) + tail == RequestLine(r) + CRLF + rest;
    RequestLineReadBack(r, hs);
    RequestLineStep(FRESH_REQUEST, RequestLine(r), rest, now);
    HeadersReadBack(r.(headers := map[], receiveTime := now), hs, tail, now);
  }

  // ---------- pipelining ----------

  datatype Message = Message(request: Request, headers: seq<HeaderLine>)

  function PrintAll(ms: seq<Message>): string {
    if ms == [] then [] else PrintRequest(ms[0].request, ms[0].headers) + PrintAll(ms[1..])
  }

  /** Up to n rounds of parseRequest and reset on one buffer: the requests read and the bytes left. */
  function Rounds(n: nat, bytes: string, now: int): (seq<Request>, string) {
    if n == 0 then ([], bytes) else
      var p := Parse(FRESH_CONTEXT, bytes, now);
      if p.ok && p.context.state == GotAll then
        var (rs, rest) := Rounds(n - 1, p.unread, now);
        ([p.context.request] + rs, rest)
      else ([], p.unread)
  }

  function Received(ms: seq<Message>, now: int): seq<Request> {
    if ms == [] then [] else [ms[0].request.(receiveTime := now)] + Received(ms[1..], now)
  }

  /** Pipelined requests come out in order, and no byte of what follows them is touched. */
  lemma {:induction false} PipelineRoundTrip(ms: seq<Message>, tail: string, now: int)
    requires forall m <- ms :: Sendable(m.request, m.headers)
    ensures Rounds(|ms|, PrintAll(ms) + tail, now) == (Received(ms, now), tail)
    decreases |ms|
  {
    if ms == [] {
      assert PrintAll(ms) + tail == tail;
    } else {
      var m, rest := ms[0], PrintAll(ms[1..]) + tail;
      assert PrintAll(ms) + tail == PrintRequest(m.request, m.headers) + rest;
      RequestRoundTrip(m.request, m.headers, rest, now);
      PipelineRoundTrip(ms[1..], tail, now);
    }
  }

  /**
   The header block ends at the first line without a colon, empty or not: a non-empty one is
   swallowed as the end of the request instead of being an error.
   */
  lemma HeadersEndAtColonlessLine(r: Request, line: string, now: int)
    requires NoCrOrLf(line)
    ensures var p := Parse(Context(ExpectHeaders, r), line + CRLF, now);
            p.ok && (p.context.state == GotAll <==> ':' !in line)
  {
    LineConsumed(line, "");
    assert line + CRLF + "" == line + CRLF;
  }
}
