/** Reading requests from a connection: framing with a leftover buffer, and parsing. */
module Connections {
  import opened Text

  type Headers = map<string, string>

  class HttpRequest {
    var uri: string
    var headers: Headers

    constructor ()
      ensures uri == "" && headers == map[]
    {
      uri, headers := "", map[];
    }

    method SetUri(uri: string)
      modifies this
      ensures this.uri == uri && headers == old(headers)
    {
      this.uri := uri;
    }

    method AddHeader(name: string, value: string)
      modifies this
      ensures headers == old(headers)[name := value] && uri == old(uri)
    {
      headers := headers[name := value];
    }

    /** The value for a name, or the empty string. */
    function GetHeaderValue(name: string): string
      reads this
    {
      if name in headers then headers[name] else ""
    }
  }

  // ---------- Parsing one request ----------

  /** How a call ends: it returns a flag, or vector::at throws, or a failed read throws; or it
      never ends, because the stream has. */
  datatype Outcome = Returned(ok: bool) | OutOfRange | ReadFailed | Endless

  /** The outcome of parsing, and what it leaves in the request object. */
  datatype Parse = Parse(outcome: Outcome, uri: string, headers: Headers)

  const CR_LF: set<char> := {'\r', '\n'}

  /** The non-empty lines of a request, split at any CR or LF. */
  function Lines(request: string): seq<string> {
    NonEmpty(Split(request, CR_LF))
  }

  function Normal(s: string): string {
    Lower(Trim(s))
  }

  /** Adds the header lines in order; stops at the first without a colon. */
  function ParseHeaders(lines: seq<string>, headers: Headers): (bool, Headers) {
    if lines == [] then (true, headers)
    else
      match Find(lines[0], ":")
      case NotFound => (false, headers)
      case Found(pos) =>
        ParseHeaders(lines[1..], headers[Normal(lines[0][..pos]) := Normal(lines[0][pos + 1..])])
  }

  function Parsed(request: string, uri: string, headers: Headers): Parse {
    var lines := Lines(request);
    if lines == [] then Parse(OutOfRange, uri, headers)
    else
      var tokens := Split(lines[0], {' '});
      if |tokens| < 2 then Parse(OutOfRange, uri, headers)
      else
        var (ok, hs) := ParseHeaders(lines[1..], headers);
        Parse(Returned(ok), tokens[1], hs)
  }

  method ParseRequest(request: string, out: HttpRequest) returns (r: Outcome)
    modifies out
    ensures Parse(r, out.uri, out.headers) == Parsed(request, old(out.uri), old(out.headers))
  {
    var lines := Lines(request);
    if lines == [] {
      return OutOfRange;
    }
    var tokens := Split(lines[0], {' '});
    if |tokens| < 2 {
      return OutOfRange;
    }
    out.SetUri(tokens[1]);
    lines := lines[1..];
    var i := 0;
    while i < |lines|
      invariant 0 <= i <= |lines| && out.uri == tokens[1]
      invariant ParseHeaders(lines[i..], out.headers) == ParseHeaders(lines, old(out.headers))
    {
      var line := lines[i];
      assert lines[i..][0] == line && lines[i..][1..] == lines[i + 1..];
      var pos := Find(line, ":");
      if pos.NotFound? {
        return Returned(false);
      }
      out.AddHeader(Normal(line[..pos.pos]), Normal(line[pos.pos + 1..]));
      i := i + 1;
    }
    return Returned(true);
  }

  // ---------- Reading from the socket ----------

  /** What one read() gives.  Nothing below depends on the 1024 bytes it is limited to. */
  datatype ReadResult =
    | Data(bytes: string)
    | Retry    // -1 with EAGAIN or EINTR
    | Eof      // 0
    | Fail     // -1 with another error

  type Script = seq<ReadResult>

  /** The bytes that reads deliver until one fails. */
  function Delivered(script: Script): string {
    if script == [] || script[0].Fail? then ""
    else (if script[0].Data? then script[0].bytes else "") + Delivered(script[1..])
  }

  predicate Fails(script: Script) {
    script != [] && (script[0].Fail? || Fails(script[1..]))
  }

  /** after is what is left of before. */
  predicate Left(after: Script, before: Script) {
    |after| <= |before| && after == before[|before| - |after|..]
  }

  /** The reads that were made on the way from before to after. */
  function Used(before: Script, after: Script): Script
    requires Left(after, before)
  {
    before[..|before| - |after|]
  }

  lemma UsedJoin(a: Script, b: Script, c: Script)
    requires Left(b, a) && Left(c, b)
    ensures Left(c, a) && Used(a, c) == Used(a, b) + Used(b, c)
  {
    var n := |a| - |b|;
    assert forall k :: 0 <= k < |b| ==> b[k] == a[n + k];
  }

  lemma UsedAll(a: Script, b: Script)
    requires Left(b, a)
    ensures a == Used(a, b) + b
  {
  }

  lemma {:induction false} FailsJoin(a: Script, b: Script)
    ensures Fails(a + b) <==> Fails(a) || Fails(b)
  {
    if a == [] {
      assert a + b == b;
    } else {
      assert (a + b)[1..] == a[1..] + b;
      FailsJoin(a[1..], b);
    }
  }

  lemma {:induction false} DeliveredJoin(a: Script, b: Script)
    ensures Delivered(a + b) == Delivered(a) + if Fails(a) then "" else Delivered(b)
  {
    if a == [] {
      assert a + b == b;
    } else {
      assert (a + b)[1..] == a[1..] + b;
      DeliveredJoin(a[1..], b);
    }
  }

  lemma ReadsJoin(a: Script, b: Script)
    ensures Fails(a + b) <==> Fails(a) || Fails(b)
    ensures Delivered(a + b) == Delivered(a) + if Fails(a) then "" else Delivered(b)
  {
    FailsJoin(a, b);
    DeliveredJoin(a, b);
  }

  /** The socket: what its future reads will give.  After those, the stream has ended. */
  class Socket {
    var script: Script

    constructor (script: Script)
      ensures this.script == script
    {
      this.script := script;
    }

    method Read() returns (r: ReadResult)
      modifies this
      ensures old(script) == [] ==> r == Eof && script == []
      ensures old(script) != [] ==> r == old(script)[0] && script == old(script)[1..]
    {
      if script == [] {
        return Eof;
      }
      r := script[0];
      script := script[1..];
    }
  }

  /** wrapped_read returns the number of bytes, or throws: a string cannot have length -1. */
  datatype ReadOutcome = Got(n: nat) | Threw

  /** wrapped_read: retries, then appends what one read gave.  At the end of the stream it gives
      nothing, every time. */
  method WrappedRead(fd: Socket, buf: string) returns (r: ReadOutcome, grown: string)
    modifies fd
    ensures Left(fd.script, old(fd.script))
    ensures if old(fd.script) == [] then r == Got(0) else |fd.script| < |old(fd.script)|
    ensures grown == buf + Delivered(Used(old(fd.script), fd.script))
    ensures r.Threw? <==> Fails(Used(old(fd.script), fd.script))
    ensures if r.Threw? then grown == buf else r.n == |grown| - |buf|
    ensures OnlyRetries(Used(old(fd.script), fd.script), fd.script == [])
  {
    ghost var all := fd.script;
    while true
      invariant Left(fd.script, all)
      invariant Delivered(Used(all, fd.script)) == "" && !Fails(Used(all, fd.script))
      invariant forall k :: 0 <= k < |Used(all, fd.script)| ==> Used(all, fd.script)[k].Retry?
      decreases |fd.script|
    {
      ghost var was := fd.script;
      var res := fd.Read();
      OneRead(all, was, fd.script, res);
      match res
      case Retry =>
      case Data(bytes) => return Got(|bytes|), buf + bytes;
      case Eof => return Got(0), buf;
      case Fail => return Threw, buf;
    }
  }

  /** One call makes reads until one does not ask for a retry, and no more. */
  predicate OnlyRetries(used: Script, ended: bool) {
    && (forall k :: 0 <= k < |used| - 1 ==> used[k].Retry?)
    && (used != [] && used[|used| - 1].Retry? ==> ended)
    && (used == [] ==> ended)
  }

  lemma OneRead(all: Script, was: Script, now: Script, res: ReadResult)
    requires Left(was, all) && !Fails(Used(all, was)) && Delivered(Used(all, was)) == ""
    requires if was == [] then now == [] && res == Eof else res == was[0] && now == was[1..]
    ensures Left(now, all)
    ensures Delivered(Used(all, now)) == if res.Data? then res.bytes else ""
    ensures Fails(Used(all, now)) <==> res.Fail?
  {
    UsedJoin(all, was, now);
    ReadsJoin(Used(all, was), Used(was, now));
    if was != [] {
      assert Used(was, now) == [res] && [res][1..] == [];
      assert Delivered([res]) == (if res.Data? then res.bytes else "") + Delivered([]) || res.Fail?;
    }
  }

  // ---------- The connection ----------

  const HEADER_END := "\r\n\r\n"

  function Head(stream: string): string
    requires Find(stream, HEADER_END).Found?
  {
    stream[..Find(stream, HEADER_END).pos]
  }

  function Tail(stream: string): string
    requires Find(stream, HEADER_END).Found?
  {
    stream[Find(stream, HEADER_END).pos + |HEADER_END|..]
  }

  lemma CutAppend(buffer: string, more: string)
    requires Find(buffer, HEADER_END).Found?
    ensures Find(buffer + more, HEADER_END).Found?
    ensures Head(buffer + more) == Head(buffer) && Tail(buffer + more) == Tail(buffer) + more
  {
    FindAppend(buffer, more, HEADER_END);
  }

  /** The end of the reading loop, as next_request sees it */
  datatype Filled = Complete(pos: nat) | Broken | Dry

  /** What is unread when nothing more can be read is all in the buffer. */
  lemma NothingMore(all: Script, now: Script)
    requires Left(now, all) && (now == [] || Fails(Used(all, now)))
    ensures Delivered(Used(all, now)) == Delivered(all)
    ensures now == [] && !Fails(Used(all, now)) ==> !Fails(all)
    ensures Fails(Used(all, now)) ==> Fails(all)
  {
    UsedAll(all, now);
    ReadsJoin(Used(all, now), now);
  }

  lemma StillToCome(all: Script, now: Script)
    requires Left(now, all) && !Fails(Used(all, now))
    ensures Delivered(all) == Delivered(Used(all, now)) + Delivered(now)
  {
    UsedAll(all, now);
    ReadsJoin(Used(all, now), now);
  }

  lemma GrownBy(all: Script, was: Script, now: Script, start: string)
    requires Left(was, all) && Left(now, was) && !Fails(Used(all, was))
    ensures Left(now, all) && (Fails(Used(all, now)) <==> Fails(Used(was, now)))
    ensures start + Delivered(Used(all, now)) == start + Delivered(Used(all, was)) + Delivered(Used(was, now))
  {
    UsedJoin(all, was, now);
    ReadsJoin(Used(all, was), Used(was, now));
    Regroup(start, Delivered(Used(all, was)), Delivered(Used(was, now)));
  }

  class HttpConnection {
    const fd: Socket
    var buffer: string

    constructor (fd: Socket)
      ensures this.fd == fd && buffer == ""
    {
      this.fd := fd;
      buffer := "";
    }

    /** Every byte that the client has sent, or will have sent, and no request has used. */
    function Unread(): string
      reads this, fd
    {
      buffer + Delivered(fd.script)
    }

    /** One turn of the reading loop */
    method Grow(ghost all: Script, ghost start: string) returns (threw: bool)
      requires Left(fd.script, all) && !Fails(Used(all, fd.script))
      requires buffer == start + Delivered(Used(all, fd.script))
      modifies this, fd
      ensures Left(fd.script, all) && buffer == start + Delivered(Used(all, fd.script))
      ensures (threw <==> Fails(Used(all, fd.script))) && (threw ==> buffer == old(buffer))
      ensures if old(fd.script) == [] then !threw && buffer == old(buffer) && fd.script == []
              else |fd.script| < |old(fd.script)|
    {
      ghost var was := fd.script;
      var res, grown := WrappedRead(fd, buffer);
      GrownBy(all, was, fd.script, start);
      buffer := grown;
      threw := res.Threw?;
    }

    /** The reading loop of next_request, which takes no notice of end of file.  Once the stream
        has ended, a turn of the loop changes nothing, so it goes round for ever: Dry stands for
        that. */
    method Fill() returns (r: Filled)
      modifies this, fd
      ensures Left(fd.script, old(fd.script))
      ensures buffer == old(buffer) + Delivered(Used(old(fd.script), fd.script))
      ensures r.Broken? <==> Fails(Used(old(fd.script), fd.script))
      ensures match r
        case Complete(pos) => Find(buffer, HEADER_END) == Found(pos)
        case _ => Find(buffer, HEADER_END).NotFound?
      ensures r.Dry? ==> fd.script == []
    {
      ghost var all, start := fd.script, buffer;
      var pos := Find(buffer, HEADER_END);
      while pos.NotFound?
        invariant pos == Find(buffer, HEADER_END) && Left(fd.script, all) && !Fails(Used(all, fd.script))
        invariant buffer == start + Delivered(Used(all, fd.script))
        decreases |fd.script|
      {
        var ended := fd.script == [];
        var threw := Grow(all, start);
        if threw {
          return Broken;
        }
        if ended {
          return Dry;
        }
        pos := Find(buffer, HEADER_END);
      }
      return Complete(pos.pos);
    }

    /** What next_request does before it parses: it cuts a block off the unread stream. */
    method NextBlock() returns (r: Filled, block: string)
      modifies this, fd
      ensures Left(fd.script, old(fd.script))
      ensures match Find(old(Unread()), HEADER_END)
        case Found(_) =>
          r.Complete? && block == Head(old(Unread())) && Unread() == Tail(old(Unread())) &&
          !Fails(Used(old(fd.script), fd.script)) &&
          block + HEADER_END + buffer == old(buffer) + Delivered(Used(old(fd.script), fd.script))
        case NotFound =>
          r == (if Fails(old(fd.script)) then Broken else Dry) && buffer == old(Unread())
    {
      ghost var all, start := fd.script, buffer;
      r := Fill();
      if !r.Complete? {
        NothingMore(all, fd.script);
        return r, "";
      }
      StillToCome(all, fd.script);
      ghost var rest := Delivered(fd.script);
      Regroup(start, Delivered(Used(all, fd.script)), rest);
      CutAppend(buffer, rest);
      HeadAndTail(buffer);
      block := buffer[..r.pos];
      buffer := buffer[r.pos + |HEADER_END|..];
    }

    /** next_request.  What it does depends on the stream alone, not on how it is cut into reads;
        the bytes it has received are the block it parsed, its delimiter, and the buffer. */
    method NextRequest(request: HttpRequest) returns (r: Outcome)
      modifies this, fd, request
      ensures Left(fd.script, old(fd.script))
      ensures match Find(old(Unread()), HEADER_END)
        case Found(_) =>
          Unread() == Tail(old(Unread())) && !Fails(Used(old(fd.script), fd.script)) &&
          Head(old(Unread())) + HEADER_END + buffer == old(buffer) + Delivered(Used(old(fd.script), fd.script)) &&
          Parse(r, request.uri, request.headers) == Parsed(Head(old(Unread())), old(request.uri), old(request.headers))
        case NotFound =>
          r == (if Fails(old(fd.script)) then ReadFailed else Endless) &&
          request.uri == old(request.uri) && request.headers == old(request.headers) &&
          buffer == old(Unread())
    {
      var filled, reqStr := NextBlock();
      if !filled.Complete? {
        return if filled.Broken? then ReadFailed else Endless;
      }
      r := ParseRequest(reqStr, request);
    }
  }

  lemma Regroup(a: string, b: string, c: string)
    ensures a + b + c == a + (b + c)
  {
  }

  lemma AroundMatch(s: string, k: nat, p: string)
    requires At(s, k, p)
    ensures s == s[..k] + p + s[k + |p|..]
  {
  }

  lemma HeadAndTail(stream: string)
    requires Find(stream, HEADER_END).Found?
    ensures stream == Head(stream) + HEADER_END + Tail(stream)
  {
    AroundMatch(stream, Find(stream, HEADER_END).pos, HEADER_END);
  }
}
