/** The parser object: a state, the request being filled in, and a loop over the connection's buffer. */
module HttpContexts {
  import opened Bytes
  import opened Buffers
  import opened HttpRequests
  import opened HttpParser

  class HttpContext {
    var state: ParseState
    const request: HttpRequest

    function Value(): Context
      reads this, request
    {
      Context(state, request.Value())
    }

    /** What a caller of parseRequest owes: a state the loop can leave, and no method stored by a failed try. */
    predicate Ready()
      reads this, request
    {
      Value().CanParse() && (state == ExpectRequestLine ==> request.verb == Invalid)
    }

    constructor ()
      ensures Value() == FRESH_CONTEXT && Ready() && fresh(request)
    {
      state := ExpectRequestLine;
      request := new HttpRequest();
    }

    method Reset()
      modifies this, request
      ensures Value() == FRESH_CONTEXT && Ready()
    {
      state := ExpectRequestLine;
      var dummy := new HttpRequest();
      request.Swap(dummy);
    }

    method ProcessLine(line: string) returns (succeed: bool)
      requires request.verb == Invalid
      modifies request
      ensures (succeed, request.Value()) == ProcessRequestLine(old(request.Value()), line)
    {
      hide VerbOf, WithTarget, VersionOf;
      succeed := false;
      var space := Find(line, ' ');
      var methodOk := false;
      if space != |line| {
        methodOk := TakeMethod(line[..space]);
      }
      if methodOk {
        var rest := line[space + 1..];
        space := Find(rest, ' ');
        if space != |rest| {
          TakeTarget(rest[..space]);
          succeed := TakeVersion(rest[space + 1..]);
        }
      }
    }

    method TakeMethod(name: string) returns (ok: bool)
      requires request.verb == Invalid
      modifies request
      ensures request.Value() == old(request.Value()).(verb := VerbOf(name)) && (ok <==> VerbOf(name) != Invalid)
    {
      VerbNames(name);
      ok := request.SetMethod(name);
    }

    method TakeTarget(target: string)
      modifies request
      ensures request.Value() == WithTarget(old(request.Value()), target)
    {
      request.SetTarget(target);
    }

    /** The version is eight bytes, of which the last tells which. */
    method TakeVersion(version: string) returns (succeed: bool)
      modifies request
      ensures succeed <==> VersionOf(version) != Unknown
      ensures request.Value() ==
              if succeed then old(request.Value()).(version := VersionOf(version)) else old(request.Value())
    {
      succeed := |version| == 8 && version[..7] == "HTTP/1.";
      if succeed {
        if version[7] == '1' {
          request.version := Http11;
        } else if version[7] == '0' {
          request.version := Http10;
        } else {
          succeed := false;
        }
      }
    }

    /** The branch of the loop for a complete line where a request line is expected. */
    method TakeRequestLine(buf: Buffer, crlf: nat, receiveTime: int) returns (ok: bool)
      requires buf.Valid() && Ready() && state == ExpectRequestLine && crlf + 2 <= |buf.Readable()|
      modifies this, request, buf
      ensures buf.Valid() && buf.data == old(buf.data)
      ensures LineStep(old(Value()), old(buf.Readable())[..crlf], receiveTime) ==
              if ok then More(Value()) else Failed(Value())
      ensures buf.Readable() == if ok then old(buf.Readable())[crlf + 2..] else old(buf.Readable())
      ensures state == if ok then ExpectHeaders else ExpectRequestLine
      ensures ok <==> InGrammar(old(buf.Readable())[..crlf])
    {
      hide LineStep, InGrammar, ProcessRequestLine;
      RequestStep(Value(), buf.Readable()[..crlf], receiveTime);
      ok := ProcessLine(buf.Readable()[..crlf]);
      if ok {
        request.receiveTime := receiveTime;
        buf.Retrieve(crlf + 2);
        state := ExpectHeaders;
      }
    }

    lemma RequestStep(c: Context, line: string, now: int)
      requires c.state == ExpectRequestLine
      ensures var (ok, r) := ProcessRequestLine(c.request, line);
              && (ok <==> InGrammar(line))
              && LineStep(c, line, now) ==
                 if ok then More(Context(ExpectHeaders, r.(receiveTime := now))) else Failed(c.(request := r))
    {
      RequestLineAcceptance(c.request, line);
    }

    lemma HeaderLineStep(c: Context, line: string, now: int)
      requires c.state == ExpectHeaders
      ensures var colon := Find(line, ':');
              LineStep(c, line, now) ==
              if colon != |line| then More(c.(request := WithHeader(c.request, line, colon)))
              else Done(c.(state := GotAll))
    {
    }

    /** The branch for a complete line where a header is expected. */
    method TakeHeaderLine(buf: Buffer, crlf: nat, ghost receiveTime: int) returns (hasMore: bool)
      requires buf.Valid() && state == ExpectHeaders && crlf + 2 <= |buf.Readable()|
      modifies this, request, buf
      ensures buf.Valid() && buf.data == old(buf.data)
      ensures LineStep(old(Value()), old(buf.Readable())[..crlf], receiveTime) ==
              if hasMore then More(Value()) else Done(Value())
      ensures buf.Readable() == old(buf.Readable())[crlf + 2..]
      ensures state == if hasMore then ExpectHeaders else GotAll
      ensures hasMore <==> ':' in old(buf.Readable())[..crlf]
    {
      hasMore := true;
      var line := buf.Readable()[..crlf];
      var colon := Find(line, ':');
      HeaderLineStep(Value(), line, receiveTime);
      hide LineStep, WithHeader;
      if colon != crlf {
        request.AddHeader(line, colon);
      } else {
        state := GotAll;
        hasMore := false;
      }
      buf.Retrieve(crlf + 2);
    }

    /** One round of the loop: whether there may be more to do, and the verdict so far. */
    method ParseRound(buf: Buffer, receiveTime: int) returns (hasMore: bool, ok: bool)
      requires buf.Valid() && Ready()
      modifies this, request, buf
      ensures buf.Valid() && buf.data == old(buf.data)
      ensures |buf.Readable()| <= |old(buf.Readable())|
      ensures hasMore ==> ok && Ready() && |buf.Readable()| + 2 <= |old(buf.Readable())|
      ensures Parse(old(Value()), old(buf.Readable()), receiveTime) ==
              if hasMore then Parse(Value(), buf.Readable(), receiveTime) else Parsed(ok, Value(), buf.Readable())
    {
      hide Parse, LineStep, FindCrlf, InGrammar, IsCrlf;
      hasMore, ok := true, true;
      ghost var before, bytes := Value(), buf.Readable();
      var crlf := buf.FindCRLF();
      CrlfFound(bytes, crlf);
      if crlf.None? {
        ParseWithoutLine(before, bytes, receiveTime);
        hasMore := false;
      } else if state == ExpectRequestLine {
        ok := TakeRequestLine(buf, crlf.value, receiveTime);
        hasMore := ok;
        ParseLine(before, bytes, crlf.value, if ok then More(Value()) else Failed(Value()), receiveTime);
      } else {
        hasMore := TakeHeaderLine(buf, crlf.value, receiveTime);
        ParseLine(before, bytes, crlf.value, if hasMore then More(Value()) else Done(Value()), receiveTime);
      }
    }

    method ParseRequest(buf: Buffer, receiveTime: int) returns (ok: bool)
      requires buf.Valid() && Ready()
      modifies this, request, buf
      ensures buf.Valid() && buf.data == old(buf.data)
      ensures Parsed(ok, Value(), buf.Readable()) == Parse(old(Value()), old(buf.Readable()), receiveTime)
      ensures var bytes := old(buf.Readable());
              old(state) == ExpectRequestLine ==>
                match FirstLine(bytes)
                case None => ok && state == ExpectRequestLine && buf.Readable() == bytes
                case Some(line) =>
                  if InGrammar(line) then ok && state != ExpectRequestLine && |buf.Readable()| + |line| + 2 <= |bytes|
                  else !ok && state == ExpectRequestLine && buf.Readable() == bytes
    {
      VerdictOnLine(Value(), buf.Readable(), receiveTime);
      hide Parse, FirstLine;
      ok := true;
      var hasMore := true;
      ghost var goal := Parse(Value(), buf.Readable(), receiveTime);
      while hasMore
        invariant buf.Valid() && buf.data == old(buf.data)
        invariant hasMore ==> ok && Ready() && Parse(Value(), buf.Readable(), receiveTime) == goal
        invariant !hasMore ==> Parsed(ok, Value(), buf.Readable()) == goal
        decreases |buf.Readable()|, hasMore
      {
        hasMore, ok := ParseRound(buf, receiveTime);
      }
    }
  }

  /** A search that found the first CRLF, or that there is none. */
  lemma CrlfFound(bytes: string, crlf: Option<nat>)
    requires crlf.None? <==> forall j: nat :: !IsCrlf(bytes, j)
    requires crlf.Some? ==> IsCrlf(bytes, crlf.value) && forall j: nat :: j < crlf.value ==> !IsCrlf(bytes, j)
    ensures FindCrlf(bytes) == if crlf.Some? then crlf.value else |bytes|
    ensures crlf.Some? ==> crlf.value + 2 <= |bytes|
  {
  }

  /** The bytes in front of the first CRLF. */
  function FirstLine(bytes: string): Option<string> {
    var k := FindCrlf(bytes);
    if k == |bytes| then None else Some(bytes[..k])
  }

  /** What the first complete line makes of a parse that awaits the request line. */
  lemma VerdictOnLine(c: Context, bytes: string, now: int)
    requires c.CanParse()
    ensures var p := Parse(c, bytes, now);
            c.state == ExpectRequestLine ==>
              match FirstLine(bytes)
              case None => p == Parsed(true, c, bytes)
              case Some(line) =>
                if InGrammar(line) then
                  p.ok && p.context.state != ExpectRequestLine && |p.unread| + |line| + 2 <= |bytes|
                else !p.ok && p.context.state == ExpectRequestLine && p.unread == bytes
  {
    hide Parse, FindCrlf, ProcessRequestLine;
    var k := FindCrlf(bytes);
    if c.state == ExpectRequestLine {
      if k == |bytes| {
        ParseWithoutLine(c, bytes, now);
      } else {
        RequestLineAcceptance(c.request, bytes[..k]);
        var step := LineStep(c, bytes[..k], now);
        ParseLine(c, bytes, k, step, now);
        if step.More? {
          HeadersNeverFail(step.context, bytes[k + 2..], now);
        }
      }
    }
  }

  /**
   A connection's reads, whatever their sizes: parseRequest after each one until it fails or
   has the request. The result is that of one call on everything that arrived.
   */
  method ParseReads(context: HttpContext, buf: Buffer, chunks: seq<Chunk>, now: int) returns (ok: bool)
    requires buf.Valid() && buf.Readable() == "" && context.Ready()
    modifies context, context.request, buf, buf.data
    ensures buf.Valid()
    ensures SameParsed(Parsed(ok, context.Value(), buf.Readable()), Parse(old(context.Value()), Flatten(chunks), now))
  {
    hide Parse, Feed, Flatten, LineStep;
    ok := true;
    ghost var start := context.Value();
    var i := 0;
    assert chunks[0..] == chunks;
    while i < |chunks|
      invariant 0 <= i <= |chunks|
      invariant buf.Valid() && (buf.data == old(buf.data) || fresh(buf.data))
      invariant ok && context.state != GotAll ==> context.Ready()
      invariant Feed(Parsed(ok, context.Value(), buf.Readable()), chunks[i..]) == Feed(Parsed(true, start, ""), chunks)
    {
      ghost var before := Parsed(ok, context.Value(), buf.Readable());
      assert chunks[i..][0] == chunks[i] && chunks[i..][1..] == chunks[i + 1..];
      if before.Stopped() {
        FeedLater(before, chunks[i..]);
      } else {
        FeedUnfold(before, chunks[i..]);
      }
      buf.Append(chunks[i].bytes);
      if ok && context.state != GotAll {
        ok := context.ParseRequest(buf, chunks[i].time);
        NothingStored(before.context, before.unread + chunks[i].bytes, chunks[i].time);
      }
      i := i + 1;
    }
    assert chunks[i..] == [];
    FeedNone(Parsed(ok, context.Value(), buf.Readable()));
    IncrementalIsOneShot(start, chunks, now);
  }

  /**
   Pipelined requests on one buffer: parseRequest and reset in turn, up to n times, until a request
   is rejected or still incomplete.
   */
  method ParsePipeline(context: HttpContext, buf: Buffer, n: nat, now: int) returns (requests: seq<Request>)
    requires buf.Valid() && context.Value() == FRESH_CONTEXT
    modifies context, context.request, buf
    ensures buf.Valid() && buf.data == old(buf.data)
    ensures (requests, buf.Readable()) == Rounds(n, old(buf.Readable()), now)
    ensures |requests| == n ==> context.Value() == FRESH_CONTEXT
  {
    hide Parse, Rounds;
    requests := [];
    var i := 0;
    ghost var bytes := buf.Readable();
    NoRounds(bytes, now);
    Nothing(Rounds(n, bytes, now));
    while i < n
      invariant 0 <= i <= n && |requests| == i
      invariant buf.Valid() && buf.data == old(buf.data) && context.Value() == FRESH_CONTEXT
      invariant After(requests, Rounds(n - i, buf.Readable(), now)) == Rounds(n, bytes, now)
    {
      NextRound(requests, n - i, buf.Readable(), now);
      var ok := context.ParseRequest(buf, now);
      if !ok || context.state != GotAll {
        return;
      }
      requests := requests + [context.request.Value()];
      context.Reset();
      i := i + 1;
    }
    NoRounds(buf.Readable(), now);
    assert requests + [] == requests;
  }

  /** Rounds that come after those that gave these requests. */
  function After(front: seq<Request>, later: (seq<Request>, string)): (seq<Request>, string) {
    (front + later.0, later.1)
  }

  lemma Nothing(later: (seq<Request>, string))
    ensures After([], later) == later
  {
    assert [] + later.0 == later.0;
  }

  lemma NoRounds(bytes: string, now: int)
    ensures Rounds(0, bytes, now) == ([], bytes)
  {
  }

  lemma NextRound(front: seq<Request>, n: nat, bytes: string, now: int)
    requires n > 0
    ensures var p := Parse(FRESH_CONTEXT, bytes, now);
            After(front, Rounds(n, bytes, now)) ==
              if p.ok && p.context.state == GotAll then After(front + [p.context.request], Rounds(n - 1, p.unread, now))
              else (front, p.unread)
  {
    hide Parse;
    var p := Parse(FRESH_CONTEXT, bytes, now);
    var later := Rounds(n - 1, p.unread, now);
    assert front + [] == front;
    assert front + ([p.context.request] + later.0) == front + [p.context.request] + later.0;
  }

  lemma MoreMeansHeaders(c: Context, line: string, now: int)
    requires c.CanParse() && LineStep(c, line, now).More?
    ensures LineStep(c, line, now).context.state == ExpectHeaders
  {
  }

  /** While the request line is still awaited nothing at all has been stored. */
  lemma {:induction false} NothingStored(c: Context, bytes: string, now: int)
    requires c.CanParse()
    ensures var p := Parse(c, bytes, now);
            p.ok && p.context.state == ExpectRequestLine ==> p.context == c
    decreases |bytes|
  {
    hide LineStep, FindCrlf;
    var k := FindCrlf(bytes);
    if k < |bytes| {
      var step := LineStep(c, bytes[..k], now);
      if step.More? {
        MoreMeansHeaders(c, bytes[..k], now);
        NothingStored(step.context, bytes[k + 2..], now);
      } else if step.Done? {
        StepStops(c, bytes[..k], now);
      }
    }
  }
}
