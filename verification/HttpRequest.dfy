/** One parsed HTTP request: its value, and the object the parser fills in. */
module HttpRequests {
  import opened Bytes

  datatype Verb = Invalid | Get | Post | Head | Put | Delete
  datatype Version = Unknown | Http10 | Http11

  datatype Request = Request(
    verb: Verb, version: Version, path: string, query: string, receiveTime: int, headers: map<string, string>)

  const FRESH_REQUEST := Request(Invalid, Unknown, "", "", 0, map[])

  function VerbOf(name: string): Verb {
    if name == "GET" then Get
    else if name == "POST" then Post
    else if name == "HEAD" then Head
    else if name == "PUT" then Put
    else if name == "DELETE" then Delete
    else Invalid
  }

  function VerbString(verb: Verb): string {
    match verb
    case Get => "GET"
    case Post => "POST"
    case Head => "HEAD"
    case Put => "PUT"
    case Delete => "DELETE"
    case Invalid => "UNKNOWN"
  }

  /** methodString inverts setMethod, and only the five names are accepted. */
  lemma VerbRoundTrip(verb: Verb, name: string)
    ensures VerbOf(VerbString(verb)) == verb
    ensures VerbOf(name) != Invalid ==> VerbString(VerbOf(name)) == name
    ensures ' ' !in VerbString(verb) && NoCrOrLf(VerbString(verb))
  {
  }

  /** The five names, each with its method. */
  lemma VerbNames(name: string)
    ensures VerbOf("GET") == Get && VerbOf("POST") == Post && VerbOf("HEAD") == Head
    ensures VerbOf("PUT") == Put && VerbOf("DELETE") == Delete
    ensures VerbString(Invalid) == "UNKNOWN"
    ensures VerbOf(name) != Invalid <==> name in {"GET", "POST", "HEAD", "PUT", "DELETE"}
  {
  }

  /** A header line without its line end, split at the given colon. */
  function WithHeader(r: Request, line: string, colon: nat): Request
    requires colon < |line|
  {
    r.(headers := r.headers[line[..colon] := TrimRight(TrimLeft(line[colon + 1..]))])
  }

  /** The target up to its first '?' is the path; the rest, '?' included, is the query. */
  function WithTarget(r: Request, target: string): Request {
    var question := Find(target, '?');
    if question != |target| then r.(path := target[..question], query := target[question..])
    else r.(path := target)
  }

  class HttpRequest {
    var verb: Verb
    var version: Version
    var path: string
    var query: string
    var receiveTime: int
    var headers: map<string, string>

    function Value(): Request
      reads this
    {
      Request(verb, version, path, query, receiveTime, headers)
    }

    constructor ()
      ensures Value() == FRESH_REQUEST
    {
      verb, version, path, query, receiveTime, headers := Invalid, Unknown, "", "", 0, map[];
    }

    method SetMethod(name: string) returns (ok: bool)
      requires verb == Invalid
      modifies this
      ensures Value() == old(Value()).(verb := VerbOf(name))
      ensures ok <==> name in {"GET", "POST", "HEAD", "PUT", "DELETE"}
      ensures verb == if name == "GET" then Get else if name == "POST" then Post else if name == "HEAD" then Head
                      else if name == "PUT" then Put else if name == "DELETE" then Delete else Invalid
    {
      if name == "GET" {
        verb := Get;
      } else if name == "POST" {
        verb := Post;
      } else if name == "HEAD" {
        verb := Head;
      } else if name == "PUT" {
        verb := Put;
      } else if name == "DELETE" {
        verb := Delete;
      } else {
        verb := Invalid;
      }
      ok := verb != Invalid;
    }

    method SetTarget(target: string)
      modifies this
      ensures Value() == WithTarget(old(Value()), target)
      ensures '?' !in target ==> path == target && query == old(query)
      ensures '?' in target ==> path + query == target && '?' !in path && query != "" && query[0] == '?'
    {
      var question := Find(target, '?');
      if question != |target| {
        path := target[..question];
        query := target[question..];
      } else {
        path := target;
      }
    }

    /** Takes the name up to the colon and the value behind it, without the white space around the value. */
    method AddHeader(line: string, colon: nat)
      requires colon < |line|
      modifies this
      ensures Value() == WithHeader(old(Value()), line, colon)
      ensures forall name :: GetHeader(name) ==
                if name == line[..colon] then TrimRight(TrimLeft(line[colon + 1..])) else old(GetHeader(name))
    {
      var field := line[..colon];
      var value := SkipSpace(line, colon + 1);
      value := DropTrailingSpace(value);
      headers := headers[field := value];
    }

    static method SkipSpace(line: string, from: nat) returns (value: string)
      requires from <= |line|
      ensures value == TrimLeft(line[from..])
    {
      var start := from;
      while start < |line| && IsSpace(line[start])
        invariant from <= start <= |line|
        invariant TrimLeft(line[start..]) == TrimLeft(line[from..])
      {
        assert line[start..][1..] == line[start + 1..];
        start := start + 1;
      }
      value := line[start..];
    }

    static method DropTrailingSpace(s: string) returns (value: string)
      ensures value == TrimRight(s)
    {
      value := s;
      while value != [] && IsSpace(value[|value| - 1])
        invariant TrimRight(value) == TrimRight(s)
      {
        value := value[..|value| - 1];
      }
    }

    function GetHeader(field: string): string
      reads this
    {
      if field in headers then headers[field] else ""
    }

    method Swap(that: HttpRequest)
      modifies this, that
      ensures Value() == old(that.Value()) && that.Value() == old(Value())
    {
      verb, that.verb := that.verb, verb;
      version, that.version := that.version, version;
      path, that.path := that.path, path;
      query, that.query := that.query, query;
      receiveTime, that.receiveTime := that.receiveTime, receiveTime;
      headers, that.headers := that.headers, headers;
    }
  }
}
