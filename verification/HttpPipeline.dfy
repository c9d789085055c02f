/** Printing requests, and the proof that back-to-back requests come out of a connection as they
    went in, however the stream is cut into reads. */
module HttpPipeline {
  import opened Text
  import opened Connections

  /** A header line is name, colon, value; both may carry any blanks and either letter case. */
  datatype Field = Field(name: string, value: string)

  datatype Request = Request(verb: string, uri: string, version: string, fields: seq<Field>)

  const BREAK := "\r\n"

  function FirstLine(r: Request): string {
    r.verb + " " + r.uri + " " + r.version
  }

  function FieldLines(fields: seq<Field>): (r: seq<string>)
    ensures |r| == |fields|
    ensures forall k :: 0 <= k < |r| ==> r[k] == fields[k].name + ":" + fields[k].value
  {
    seq(|fields|, k requires 0 <= k < |fields| => fields[k].name + ":" + fields[k].value)
  }

  function JoinLines(lines: seq<string>): string {
    if lines == [] then "" else if |lines| == 1 then lines[0] else lines[0] + BREAK + JoinLines(lines[1..])
  }

  function Block(r: Request): string {
    JoinLines([FirstLine(r)] + FieldLines(r.fields))
  }

  function Print(r: Request): string {
    Block(r) + HEADER_END
  }

  predicate WellFormedField(f: Field) {
    Avoids(f.name, {'\r', '\n', ':'}) && Avoids(f.value, {'\r', '\n'})
  }

  predicate WellFormed(r: Request) {
    && Avoids(r.verb, {'\r', '\n', ' '})
    && Avoids(r.uri, {'\r', '\n', ' '})
    && Avoids(r.version, {'\r', '\n'})
    && forall k :: 0 <= k < |r.fields| ==> WellFormedField(r.fields[k])
  }

  /** The header map of a list of fields: names and values trimmed and in lower case, the last
      field of a name wins. */
  function HeaderMap(fields: seq<Field>, headers: Headers): Headers {
    if fields == [] then headers
    else HeaderMap(fields[1..], headers[Normal(fields[0].name) := Normal(fields[0].value)])
  }

  function FieldsText(fields: seq<Field>): string {
    if fields == [] then "" else "\r\n" + fields[0].name + ":" + fields[0].value + FieldsText(fields[1..])
  }

  lemma {:induction false} JoinedFields(first: string, fields: seq<Field>)
    ensures JoinLines([first] + FieldLines(fields)) == first + FieldsText(fields)
    decreases |fields|
  {
    var lines := [first] + FieldLines(fields);
    if fields == [] {
      assert lines == [first];
    } else {
      var f := fields[0];
      var line, more := f.name + ":" + f.value, FieldsText(fields[1..]);
      assert lines[1..] == [line] + FieldLines(fields[1..]);
      JoinedFields(line, fields[1..]);
      assert "\r\n" + f.name + ":" + f.value + more == "\r\n" + (line + more);
    }
  }

  /** A printed request, as it is on the wire */
  lemma RequestText(r: Request)
    ensures Print(r) == r.verb + " " + r.uri + " " + r.version + FieldsText(r.fields) + "\r\n\r\n"
  {
    JoinedFields(FirstLine(r), r.fields);
  }

  // ---------- The block of a printed request ends at the first blank line ----------

  ghost predicate GoodLine(line: string) {
    line != "" && Avoids(line, {'\r', '\n'})
  }

  ghost predicate GoodLines(lines: seq<string>) {
    forall k :: 0 <= k < |lines| ==> GoodLine(lines[k])
  }

  function Shifted(p: Position, n: nat): Position {
    if p.NotFound? then NotFound else Found(p.pos + n)
  }

  lemma Regroup(a: string, b: string, c: string, d: string, e: string)
    ensures a + b + c + d + e == a + (b + (c + d + e))
    ensures a + b + c + d == a + b + (c + d)
  {
  }

  lemma FindStep(s: string)
    requires s != "" && s[0] != '\r'
    ensures Find(s, HEADER_END) == Shifted(Find(s[1..], HEADER_END), 1)
  {
    if |s| >= 4 {
      assert s[..4][0] == s[0];
    }
  }

  lemma {:induction false} FindPastLine(line: string, rest: string)
    requires '\r' !in line
    ensures Find(line + rest, HEADER_END) == Shifted(Find(rest, HEADER_END), |line|)
  {
    if line == "" {
      assert line + rest == rest;
    } else {
      var s := line + rest;
      FindStep(s);
      assert s[1..] == line[1..] + rest;
      FindPastLine(line[1..], rest);
    }
  }

  lemma FindPastBreak(rest: string)
    requires rest != "" && rest[0] != '\r'
    ensures Find(BREAK + rest, HEADER_END) == Shifted(Find(rest, HEADER_END), 2)
  {
    var s := BREAK + rest;
    assert s[1..][1..] == rest;
    FindStep(s[1..]);
    if |s| >= 4 {
      assert s[..4][2] == rest[0];
    }
  }

  /** A block ends at CR LF CR LF. */
  lemma BlockEnds(block: string, rest: string)
    requires '\r' !in block
    ensures Find(block + "\r\n\r\n" + rest, HEADER_END) == Found(|block|)
    ensures Head(block + "\r\n\r\n" + rest) == block && Tail(block + "\r\n\r\n" + rest) == rest
  {
    var stream := block + "\r\n\r\n" + rest;
    assert stream == block + ("\r\n\r\n" + rest);
    assert At("\r\n\r\n" + rest, 0, HEADER_END);
    FindIs("\r\n\r\n" + rest, HEADER_END, 0);
    FindPastLine(block, "\r\n\r\n" + rest);
  }

  lemma {:induction false} FindEnd(lines: seq<string>, rest: string)
    requires lines != [] && GoodLines(lines)
    ensures Find(JoinLines(lines) + HEADER_END + rest, HEADER_END) == Found(|JoinLines(lines)|)
  {
    if |lines| == 1 {
      assert At(HEADER_END + rest, 0, HEADER_END);
      FindIs(HEADER_END + rest, HEADER_END, 0);
      assert lines[0] + HEADER_END + rest == lines[0] + (HEADER_END + rest);
      FindPastLine(lines[0], HEADER_END + rest);
    } else {
      var tail := JoinLines(lines[1..]);
      var more := tail + HEADER_END + rest;
      FindEnd(lines[1..], rest);
      assert more != "" && more[0] != '\r' by { StartsGood(lines[1..]); }
      FindPastBreak(more);
      FindPastLine(lines[0], BREAK + more);
      Regroup(lines[0], BREAK, tail, HEADER_END, rest);
    }
  }

  lemma StartsGood(lines: seq<string>)
    requires lines != [] && GoodLines(lines)
    ensures JoinLines(lines) != "" && JoinLines(lines)[0] != '\r'
  {
    assert GoodLine(lines[0]);
    assert JoinLines(lines)[0] == lines[0][0];
  }

  // ---------- Splitting a printed block gives its lines back ----------

  lemma FirstLineOf(line: string, rest: string)
    requires GoodLine(line)
    ensures Lines(line + BREAK + rest) == [line] + Lines(rest)
  {
    var pieces := [line, ""] + Split(rest, CR_LF);
    assert Split(line + BREAK + rest, CR_LF) == pieces by {
      assert line + BREAK + rest == line + ['\r'] + (['\n'] + rest);
      SplitPiece(line, '\r', ['\n'] + rest, CR_LF);
      assert "" + ['\n'] + rest == ['\n'] + rest;
      SplitPiece("", '\n', rest, CR_LF);
    }
    assert pieces[1..] == [""] + Split(rest, CR_LF);
    assert pieces[1..][1..] == Split(rest, CR_LF);
    assert NonEmpty(pieces) == [line] + NonEmpty(pieces[1..]);
    assert NonEmpty(pieces[1..]) == NonEmpty(pieces[1..][1..]);
  }

  lemma OnlyLine(line: string)
    requires GoodLine(line)
    ensures Lines(line) == [line]
  {
    SplitWhole(line, CR_LF);
    assert [line][1..] == [] && NonEmpty([line][1..]) == [];
    assert NonEmpty([line]) == [line] + NonEmpty([line][1..]);
  }

  lemma {:induction false} LinesOfJoin(lines: seq<string>)
    requires lines != [] && GoodLines(lines)
    ensures Lines(JoinLines(lines)) == lines
  {
    var line := lines[0];
    assert GoodLine(line);
    if |lines| == 1 {
      OnlyLine(line);
      assert lines == [line];
    } else {
      FirstLineOf(line, JoinLines(lines[1..]));
      LinesOfJoin(lines[1..]);
      assert lines == [line] + lines[1..];
    }
  }

  lemma PrintedLines(r: Request)
    requires WellFormed(r)
    ensures GoodLines([FirstLine(r)] + FieldLines(r.fields))
  {
    var lines := [FirstLine(r)] + FieldLines(r.fields);
    forall k | 0 <= k < |lines| ensures GoodLine(lines[k]) {
      if k > 0 {
        assert WellFormedField(r.fields[k - 1]);
        assert lines[k] == r.fields[k - 1].name + ":" + r.fields[k - 1].value;
      }
    }
  }

  // ---------- Parsing a printed block ----------

  lemma {:induction false} ParseFields(fields: seq<Field>, headers: Headers)
    requires forall k :: 0 <= k < |fields| ==> WellFormedField(fields[k])
    ensures ParseHeaders(FieldLines(fields), headers) == (true, HeaderMap(fields, headers))
  {
    if fields != [] {
      var f := fields[0];
      var line := FieldLines(fields)[0];
      assert WellFormedField(f);
      FindAfter(f.name, ':', f.value);
      assert line[..|f.name|] == f.name && line[|f.name| + 1..] == f.value;
      assert FieldLines(fields)[1..] == FieldLines(fields[1..]);
      ParseFields(fields[1..], headers[Normal(f.name) := Normal(f.value)]);
    }
  }

  /** Parsing undoes printing, up to the blanks and the letter case of the fields. */
  lemma ParsePrinted(r: Request, uri: string, headers: Headers)
    requires WellFormed(r)
    ensures Parsed(Block(r), uri, headers) == Parse(Returned(true), r.uri, HeaderMap(r.fields, headers))
  {
    var lines := [FirstLine(r)] + FieldLines(r.fields);
    PrintedLines(r);
    LinesOfJoin(lines);
    var more := r.uri + [' '] + r.version;
    assert FirstLine(r) == r.verb + [' '] + more;
    SplitPiece(r.verb, ' ', more, {' '});
    SplitPiece(r.uri, ' ', r.version, {' '});
    assert lines[1..] == FieldLines(r.fields);
    ParseFields(r.fields, headers);
  }

  // ---------- Which requests fail, and how ----------

  lemma {:induction false} HeadersFail(lines: seq<string>, headers: Headers)
    ensures ParseHeaders(lines, headers).0 <==> forall k :: 0 <= k < |lines| ==> ':' in lines[k]
  {
    if lines != [] {
      HasColon(lines[0]);
      match Find(lines[0], ":")
      case NotFound =>
      case Found(pos) =>
        HeadersFail(lines[1..], headers[Normal(lines[0][..pos]) := Normal(lines[0][pos + 1..])]);
        assert forall k :: 0 < k < |lines| ==> lines[k] == lines[1..][k - 1];
    }
  }

  lemma HasColon(line: string)
    ensures Find(line, ":").Found? <==> ':' in line
  {
    if ':' in line {
      var k :| 0 <= k < |line| && line[k] == ':';
      assert line[k..k + 1] == ":";
      assert At(line, k, ":");
    }
    if Find(line, ":").Found? {
      var k := Find(line, ":").pos;
      assert line[k] == line[k..k + 1][0];
    }
  }

  /** A malformed request is to be answered with false.  That is so for a header line without a
      colon; a block with nothing but line breaks, or whose first line has no blank, throws. */
  lemma HowRequestsFail(request: string, uri: string, headers: Headers)
    ensures var outcome, lines := Parsed(request, uri, headers).outcome, Lines(request);
      && (outcome == OutOfRange <==> Only(request, {'\r', '\n'}) || (lines != [] && ' ' !in lines[0]))
      && (outcome == Returned(false) <==>
            lines != [] && ' ' in lines[0] && exists k :: 0 < k < |lines| && ':' !in lines[k])
      && outcome in {OutOfRange, Returned(false), Returned(true)}
    ensures var p := Parsed(request, uri, headers);
      p.outcome == OutOfRange ==> p.uri == uri && p.headers == headers
  {
    var lines := Lines(request);
    SplitAllEmpty(request, CR_LF);
    if lines != [] {
      SplitAlone(lines[0], {' '});
      HeadersFail(lines[1..], headers);
      assert forall k :: 0 < k < |lines| ==> lines[k] == lines[1..][k - 1];
    }
  }

  /** The fields before a line without a colon are stored, and none after it. */
  lemma {:induction false} FieldsBeforeFailure(fields: seq<Field>, line: string, more: seq<string>, headers: Headers)
    requires (forall k :: 0 <= k < |fields| ==> WellFormedField(fields[k])) && ':' !in line
    ensures ParseHeaders(FieldLines(fields) + [line] + more, headers) == (false, HeaderMap(fields, headers))
  {
    var lines := FieldLines(fields) + [line] + more;
    if fields == [] {
      HasColon(line);
      assert lines[0] == line;
    } else {
      var f := fields[0];
      assert WellFormedField(f) && lines[0] == f.name + ":" + f.value;
      FindAfter(f.name, ':', f.value);
      assert lines[0][..|f.name|] == f.name && lines[0][|f.name| + 1..] == f.value;
      assert lines[1..] == FieldLines(fields[1..]) + [line] + more;
      FieldsBeforeFailure(fields[1..], line, more, headers[Normal(f.name) := Normal(f.value)]);
    }
  }

  /** A carriage return or a line feed alone ends a line too. */
  lemma LoneBreak(line: string, c: char, rest: string)
    requires GoodLine(line) && (c == '\r' || c == '\n')
    ensures Lines(line + [c] + rest) == [line] + Lines(rest)
  {
    SplitPiece(line, c, rest, CR_LF);
    var pieces := [line] + Split(rest, CR_LF);
    assert pieces[1..] == Split(rest, CR_LF);
  }

  /** Two blank lines in a row are an empty block, and that throws. */
  lemma EmptyBlockThrows(uri: string, headers: Headers)
    ensures Parsed("", uri, headers).outcome == OutOfRange
  {
    HowRequestsFail("", uri, headers);
  }

  // ---------- The header map ----------

  /** Field k has this name, in whatever letter case, and no later field has. */
  predicate IsLast(fields: seq<Field>, name: string, k: nat) {
    k < |fields| && Normal(fields[k].name) == name &&
    forall j :: k < j < |fields| ==> Normal(fields[j].name) != name
  }

  /** The last field of a name decides its value, whatever the letter case of the name. */
  lemma {:induction false} LastFieldWins(fields: seq<Field>, headers: Headers, name: string, k: nat)
    requires IsLast(fields, name, k)
    ensures name in HeaderMap(fields, headers) && HeaderMap(fields, headers)[name] == Normal(fields[k].value)
  {
    var next := headers[Normal(fields[0].name) := Normal(fields[0].value)];
    var rest := fields[1..];
    assert forall j :: 0 <= j < |rest| ==> rest[j] == fields[j + 1];
    if k > 0 {
      LastFieldWins(rest, next, name, k - 1);
    } else {
      OtherNamesKeep(rest, next, name);
    }
  }

  /** A name that no field has keeps what it had before, if anything. */
  lemma {:induction false} OtherNamesKeep(fields: seq<Field>, headers: Headers, name: string)
    requires forall k :: 0 <= k < |fields| ==> Normal(fields[k].name) != name
    ensures name in HeaderMap(fields, headers) <==> name in headers
    ensures name in headers ==> HeaderMap(fields, headers)[name] == headers[name]
  {
    if fields != [] {
      OtherNamesKeep(fields[1..], headers[Normal(fields[0].name) := Normal(fields[0].value)], name);
    }
  }

  /** GetHeaderValue finds the last field of a name that is given trimmed and in lower case. */
  lemma HeaderValue(request: HttpRequest, fields: seq<Field>, name: string, k: nat)
    requires request.headers == HeaderMap(fields, map[]) && IsLast(fields, name, k)
    ensures request.GetHeaderValue(name) == Normal(fields[k].value)
  {
    LastFieldWins(fields, map[], name, k);
  }

  /** Under any other name it finds nothing. */
  lemma NoHeaderValue(request: HttpRequest, fields: seq<Field>, name: string)
    requires request.headers == HeaderMap(fields, map[])
    requires forall k :: 0 <= k < |fields| ==> Normal(fields[k].name) != name
    ensures request.GetHeaderValue(name) == ""
  {
    OtherNamesKeep(fields, map[], name);
  }

  /** Field names are case-insensitive: fields whose names differ in letter case only give the
      same map. */
  lemma {:induction false} NamesIgnoreCase(fields: seq<Field>, others: seq<Field>, headers: Headers)
    requires |fields| == |others|
    requires forall k :: 0 <= k < |fields| ==>
      SameLetters(fields[k].name, others[k].name) && fields[k].value == others[k].value
    ensures HeaderMap(fields, headers) == HeaderMap(others, headers)
  {
    if fields != [] {
      SameLower(fields[0].name, others[0].name);
      TrimIgnoresCase(fields[0].name, others[0].name);
      NamesIgnoreCase(fields[1..], others[1..], headers[Normal(fields[0].name) := Normal(fields[0].value)]);
    }
  }

  /** Position by position the same, but that a capital may stand for its small letter */
  predicate SameLetters(s: string, t: string) {
    |s| == |t| && forall k :: 0 <= k < |s| ==> exists l :: Spells(s[k], l) && Spells(t[k], l)
  }

  lemma SameLower(s: string, t: string)
    requires SameLetters(s, t)
    ensures Lower(s) == Lower(t)
  {
    forall k | 0 <= k < |s| ensures Lower(s)[k] == Lower(t)[k] {
      LowerSpells(s, k);
      LowerSpells(t, k);
      var l :| Spells(s[k], l) && Spells(t[k], l);
      assert l as int == Lower(s)[k] as int;
    }
  }

  /** What is stored of a name or a value: what is between its blanks, letter by letter */
  lemma NormalIs(s: string) returns (a: nat, b: nat)
    ensures a <= b <= |s| && |Normal(s)| == b - a
    ensures forall k :: 0 <= k < b - a ==> Spells(s[a + k], Normal(s)[k])
    ensures forall k :: 0 <= k < a || b <= k < |s| ==> Blank(s[k])
    ensures a < b ==> !Blank(s[a]) && !Blank(s[b - 1])
  {
    a, b := TrimIs(s);
    forall k | 0 <= k < b - a ensures Spells(s[a + k], Normal(s)[k]) {
      LowerSpells(Trim(s), k);
    }
  }

  lemma SpaceIgnoresCase(c: char, d: char)
    requires LowerChar(c) == LowerChar(d)
    ensures IsSpace(c) == IsSpace(d)
  {
  }

  lemma {:induction false} TrimLeftIgnoresCase(s: string, t: string)
    requires Lower(s) == Lower(t)
    ensures Lower(TrimLeft(s)) == Lower(TrimLeft(t))
  {
    assert |s| == |Lower(s)| == |t|;
    if s != "" {
      assert Lower(s)[0] == LowerChar(s[0]) && Lower(t)[0] == LowerChar(t[0]);
      SpaceIgnoresCase(s[0], t[0]);
      assert Lower(s)[1..] == Lower(s[1..]) && Lower(t)[1..] == Lower(t[1..]);
      if IsSpace(s[0]) {
        TrimLeftIgnoresCase(s[1..], t[1..]);
      }
    }
  }

  lemma {:induction false} TrimRightIgnoresCase(s: string, t: string)
    requires Lower(s) == Lower(t)
    ensures Lower(TrimRight(s)) == Lower(TrimRight(t))
  {
    assert |s| == |Lower(s)| == |t|;
    if s != "" {
      var n := |s| - 1;
      assert Lower(s)[n] == LowerChar(s[n]) && Lower(t)[n] == LowerChar(t[n]);
      SpaceIgnoresCase(s[n], t[n]);
      assert Lower(s)[..n] == Lower(s[..n]) && Lower(t)[..n] == Lower(t[..n]);
      if IsSpace(s[n]) {
        TrimRightIgnoresCase(s[..n], t[..n]);
      }
    }
  }

  lemma TrimIgnoresCase(s: string, t: string)
    requires Lower(s) == Lower(t)
    ensures Normal(s) == Normal(t)
  {
    TrimLeftIgnoresCase(s, t);
    TrimRightIgnoresCase(TrimLeft(s), TrimLeft(t));
  }

  predicate NoCapitals(s: string) {
    forall k :: 0 <= k < |s| ==> !(65 <= s[k] as int <= 90)
  }

  predicate NoBlankEnds(s: string) {
    s != "" ==> !Blank(s[0]) && !Blank(s[|s| - 1])
  }

  const KEEP_ALIVE := Request("GET", "/", "HTTP/1.1", [Field("Connection", " Keep-Alive")])

  /** Header values are not kept verbatim, whatever the comment in HttpRequest says. */
  lemma ValuesAreNotVerbatim()
    ensures var p := Parsed(Block(KEEP_ALIVE), "", map[]);
      p.outcome == Returned(true) && "connection" in p.headers && p.headers["connection"] == "keep-alive"
  {
    ParsePrinted(KEEP_ALIVE, "", map[]);
    NormalKeepAlive();
    LastFieldWins(KEEP_ALIVE.fields, map[], "connection", 0);
  }

  lemma NormalKeepAlive()
    ensures Normal("Connection") == "connection" && Normal(" Keep-Alive") == "keep-alive"
  {
    TrimsTo(" Keep-Alive", "Keep-Alive");
    TrimsTo("Connection", "Connection");
  }

  /** At most one blank before, none after */
  lemma TrimsTo(s: string, t: string)
    requires t != "" && !IsSpace(t[0]) && !IsSpace(t[|t| - 1]) && (s == t || s == " " + t)
    ensures Trim(s) == t
  {
    if s == " " + t {
      assert s[0] == ' ' && s[1..] == t;
      assert TrimLeft(s) == TrimLeft(t);
    }
    assert TrimLeft(t) == t && TrimRight(t) == t;
  }

  /** A value is kept exactly when it has no capital letter and no blank at either end. */
  lemma VerbatimValues(s: string)
    ensures Normal(s) == s <==> NoCapitals(s) && NoBlankEnds(s)
  {
    TrimShortens(s);
    if Normal(s) == s {
      forall k | 0 <= k < |s| ensures !('A' <= s[k] <= 'Z') {
        assert Normal(s)[k] == LowerChar(Trim(s)[k]);
      }
    }
  }

  lemma TrimShortens(s: string)
    ensures |Trim(s)| <= |s|
    ensures |Trim(s)| == |s| <==> NoBlankEnds(s)
    ensures NoBlankEnds(s) ==> Trim(s) == s
  {
    TrimLeftShortens(s);
    TrimRightShortens(TrimLeft(s));
  }

  lemma {:induction false} TrimLeftShortens(s: string)
    ensures |TrimLeft(s)| <= |s|
    ensures |TrimLeft(s)| == |s| <==> s == "" || !IsSpace(s[0])
  {
    if s != "" && IsSpace(s[0]) {
      TrimLeftShortens(s[1..]);
    }
  }

  lemma {:induction false} TrimRightShortens(s: string)
    ensures |TrimRight(s)| <= |s|
    ensures |TrimRight(s)| == |s| <==> s == "" || !IsSpace(s[|s| - 1])
  {
    if s != "" && IsSpace(s[|s| - 1]) {
      TrimRightShortens(s[..|s| - 1]);
    }
  }

  // ---------- Streams of requests ----------

  function Stream(rs: seq<Request>): string {
    if rs == [] then "" else Print(rs[0]) + Stream(rs[1..])
  }

  /** The first request of a stream is the first that was printed. */
  lemma FirstOfStream(rs: seq<Request>, rest: string)
    requires rs != [] && WellFormed(rs[0])
    ensures Find(Stream(rs) + rest, HEADER_END).Found?
    ensures Head(Stream(rs) + rest) == Block(rs[0])
    ensures Tail(Stream(rs) + rest) == Stream(rs[1..]) + rest
  {
    var more := Stream(rs[1..]) + rest;
    assert Stream(rs) + rest == Block(rs[0]) + HEADER_END + more;
    PrintedLines(rs[0]);
    FindEnd([FirstLine(rs[0])] + FieldLines(rs[0].fields), more);
  }

  /** What a handler sees of a request. */
  datatype Seen = Seen(outcome: Outcome, uri: string, headers: Headers)

  function Expected(rs: seq<Request>): seq<Seen> {
    if rs == [] then [] else [Seen(Returned(true), rs[0].uri, HeaderMap(rs[0].fields, map[]))] + Expected(rs[1..])
  }

  function SeenOf(block: string): Seen {
    var p := Parsed(block, "", map[]);
    Seen(p.outcome, p.uri, p.headers)
  }

  /** One turn of the server's loop, which makes a new request object each time */
  method ReadNext(conn: HttpConnection) returns (s: Seen)
    requires Find(conn.Unread(), HEADER_END).Found?
    modifies conn, conn.fd
    ensures s == SeenOf(Head(old(conn.Unread()))) && conn.Unread() == Tail(old(conn.Unread()))
    ensures Left(conn.fd.script, old(conn.fd.script)) && !Fails(Used(old(conn.fd.script), conn.fd.script))
    ensures Head(old(conn.Unread())) + HEADER_END + conn.buffer ==
            old(conn.buffer) + Delivered(Used(old(conn.fd.script), conn.fd.script))
  {
    var req := new HttpRequest();
    var r := conn.NextRequest(req);
    s := Seen(r, req.uri, req.headers);
  }

  method ReadPrinted(conn: HttpConnection, ghost rs: seq<Request>, ghost rest: string) returns (s: Seen)
    requires rs != [] && WellFormed(rs[0]) && conn.Unread() == Stream(rs) + rest
    modifies conn, conn.fd
    ensures s == Seen(Returned(true), rs[0].uri, HeaderMap(rs[0].fields, map[]))
    ensures conn.Unread() == Stream(rs[1..]) + rest
  {
    FirstOfStream(rs, rest);
    ParsePrinted(rs[0], "", map[]);
    s := ReadNext(conn);
  }

  /** The loop of the server's task reads a new request object each time around.  Any list of
      requests, printed back to back and cut into reads in any way, with retries and empty
      reads anywhere in between, is read as exactly that list. */
  method ReadPipeline(conn: HttpConnection, n: nat, ghost rs: seq<Request>, ghost rest: string)
    returns (seen: seq<Seen>)
    requires |rs| == n && forall k :: 0 <= k < n ==> WellFormed(rs[k])
    requires conn.Unread() == Stream(rs) + rest
    modifies conn, conn.fd
    ensures seen == Expected(rs)
    ensures conn.Unread() == rest
  {
    seen := [];
    ghost var left := rs;
    var i := 0;
    while i < n
      invariant 0 <= i <= n && left == rs[i..]
      invariant conn.Unread() == Stream(left) + rest
      invariant seen + Expected(left) == Expected(rs)
    {
      var s := ReadPrinted(conn, left, rest);
      seen := seen + [s];
      left := left[1..];
      i := i + 1;
    }
    assert left == [];
  }

  // ---------- Conservation of bytes, for any stream ----------

  /** The first n blocks of a stream. */
  function Blocks(stream: string, n: nat): seq<string> {
    if n == 0 || Find(stream, HEADER_END).NotFound? then [] else [Head(stream)] + Blocks(Tail(stream), n - 1)
  }

  function Remainder(stream: string, n: nat): string {
    if n == 0 || Find(stream, HEADER_END).NotFound? then stream else Remainder(Tail(stream), n - 1)
  }

  function Framed(blocks: seq<string>): string {
    if blocks == [] then "" else blocks[0] + HEADER_END + Framed(blocks[1..])
  }

  lemma OneBlock(stream: string, n: nat)
    requires n > 0 && Find(stream, HEADER_END).Found?
    ensures Remainder(stream, n) == Remainder(Tail(stream), n - 1)
    ensures Blocks(stream, n) == [Head(stream)] + Blocks(Tail(stream), n - 1)
  {
  }

  /** What handlers see of blocks that each get a new request object */
  function SeenIn(blocks: seq<string>): seq<Seen> {
    if blocks == [] then [] else [SeenOf(blocks[0])] + SeenIn(blocks[1..])
  }

  /** The blocks consumed so far, each followed by its delimiter, and the buffer are the bytes
      received so far: what was in the buffer at the start and what the reads made since gave. */
  ghost predicate Accounts(blocks: seq<string>, buffer: string, start: string, all: Script, now: Script) {
    && Left(now, all) && !Fails(Used(all, now))
    && Framed(blocks) + buffer == start + Delivered(Used(all, now))
  }

  lemma AccountsFirst(block: string, start: string, all: Script, was: string, mid: Script,
                      blocks: seq<string>, buffer: string, now: Script)
    requires Left(mid, all) && !Fails(Used(all, mid))
    requires block + HEADER_END + was == start + Delivered(Used(all, mid))
    requires Accounts(blocks, buffer, was, mid, now)
    ensures Accounts([block] + blocks, buffer, start, all, now)
  {
    var before, after := Delivered(Used(all, mid)), Delivered(Used(mid, now));
    UsedJoin(all, mid, now);
    ReadsJoin(Used(all, mid), Used(mid, now));
    FramedStep(block, blocks, buffer, was + after);
    Connections.Regroup(block + HEADER_END, was, after);
    Connections.Regroup(start, before, after);
  }

  /** Successive calls of next_request.  Any stream with n blocks in it, well-formed or not and
      cut into reads in any way, is read as those blocks; what follows them is left; and the
      consumed blocks and the buffer account for the bytes received. */
  method ReadBlocks(conn: HttpConnection, n: nat) returns (seen: seq<Seen>)
    requires |Blocks(conn.Unread(), n)| == n
    modifies conn, conn.fd
    ensures seen == SeenIn(Blocks(old(conn.Unread()), n))
    ensures conn.Unread() == Remainder(old(conn.Unread()), n)
    ensures Accounts(Blocks(old(conn.Unread()), n), conn.buffer, old(conn.buffer), old(conn.fd.script), conn.fd.script)
  {
    ghost var all, start, stream := conn.fd.script, conn.buffer, conn.Unread();
    if n == 0 {
      NoBlock(start, all);
      return [];
    }
    assert Find(stream, HEADER_END).Found?;
    OneBlock(stream, n);
    var s := ReadNext(conn);
    ghost var mid, was := conn.fd.script, conn.buffer;
    var rest := ReadBlocks(conn, n - 1);
    AccountsFirst(Head(stream), start, all, was, mid, Blocks(Tail(stream), n - 1), conn.buffer, conn.fd.script);
    SeenInStep(s, Head(stream), Blocks(Tail(stream), n - 1));
    seen := [s] + rest;
  }

  lemma NoBlock(start: string, all: Script)
    ensures Accounts([], start, start, all, all)
  {
    assert Used(all, all) == [];
  }

  lemma SeenInStep(s: Seen, block: string, blocks: seq<string>)
    requires s == SeenOf(block)
    ensures SeenIn([block] + blocks) == [s] + SeenIn(blocks)
  {
    assert ([block] + blocks)[1..] == blocks;
  }

  lemma FramedStep(head: string, blocks: seq<string>, rest: string, tail: string)
    requires Framed(blocks) + rest == tail
    ensures Framed([head] + blocks) + rest == head + HEADER_END + tail
  {
    assert ([head] + blocks)[1..] == blocks;
    assert head + HEADER_END + Framed(blocks) + rest == head + HEADER_END + (Framed(blocks) + rest);
  }

  /** No byte is lost, added or moved: the blocks, each followed by its delimiter, and what
      remains make up the stream. */
  lemma {:induction false} BytesConserved(stream: string, n: nat)
    ensures Framed(Blocks(stream, n)) + Remainder(stream, n) == stream
  {
    if n > 0 && Find(stream, HEADER_END).Found? {
      var tail := Tail(stream);
      BytesConserved(tail, n - 1);
      FramedStep(Head(stream), Blocks(tail, n - 1), Remainder(tail, n - 1), tail);
      HeadAndTail(stream);
      OneBlock(stream, n);
    } else {
      assert Blocks(stream, n) == [] && Remainder(stream, n) == stream;
    }
  }

  /** No block could have been cut earlier: its delimiter is the first in the stream. */
  lemma {:induction false} BlocksCutFirst(stream: string, n: nat)
    ensures forall block :: block in Blocks(stream, n) ==> CutWhereFirst(block)
  {
    if n > 0 && Find(stream, HEADER_END).Found? {
      CutEarliest(stream);
      BlocksCutFirst(Tail(stream), n - 1);
    }
  }

  predicate CutWhereFirst(block: string) {
    Find(block + HEADER_END, HEADER_END) == Found(|block|)
  }

  lemma CutEarliest(stream: string)
    requires Find(stream, HEADER_END).Found?
    ensures CutWhereFirst(Head(stream))
  {
    var s, k := Head(stream) + HEADER_END, |Head(stream)|;
    assert |HEADER_END| == 4 && s == stream[..k + 4];
    assert s[k..k + 4] == HEADER_END;
    forall j: nat | j < k ensures !At(s, j, HEADER_END) {
      assert !At(stream, j, HEADER_END);
      assert s[j..j + 4] == stream[j..j + 4];
    }
    FindIs(s, HEADER_END, k);
  }
}
