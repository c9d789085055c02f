/** Responses as text, and the reader that takes them apart again. */
module HttpResponses {
  import opened Text
  import opened Connections
  import opened HttpPipeline
  import opened HttpUtils

  type UInt16 = n: nat | n < 0x1_0000

  /** What a response says. */
  datatype Reply = Reply(protocol: string, code: UInt16, message: string, contentType: string, body: string)

  // ---------- Decimal numbers ----------

  function DecimalDigit(n: nat): char
    requires n < 10
  {
    '0' + n as char
  }

  /** operator<< of an unsigned number */
  function Decimal(n: nat): (r: string)
    ensures r != "" && forall k :: 0 <= k < |r| ==> '0' <= r[k] <= '9'
  {
    if n < 10 then [DecimalDigit(n)] else Decimal(n / 10) + [DecimalDigit(n % 10)]
  }

  function Number(s: string): nat
    requires forall k :: 0 <= k < |s| ==> '0' <= s[k] <= '9'
  {
    if s == "" then 0 else 10 * Number(s[..|s| - 1]) + (s[|s| - 1] - '0') as nat
  }

  lemma {:induction false} NumberOfDecimal(n: nat)
    ensures Number(Decimal(n)) == n
  {
    if n >= 10 {
      var s := Decimal(n);
      assert s[..|s| - 1] == Decimal(n / 10);
      NumberOfDecimal(n / 10);
    } else {
      assert Decimal(n)[..0] == "";
    }
  }

  /** There is no zero in front. */
  lemma {:induction false} NoLeadingZero(n: nat)
    ensures n > 0 ==> Decimal(n)[0] != '0'
  {
    if n >= 10 {
      NoLeadingZero(n / 10);
      assert Decimal(n)[0] == Decimal(n / 10)[0];
    }
  }

  lemma SomeDecimals()
    ensures Decimal(89) == "89" && Decimal(404) == "404"
  {
    assert Decimal(8) == "8" && Decimal(4) == "4";
    assert Decimal(40) == Decimal(4) + "0";
  }

  // ---------- Printing ----------

  const TYPE_LABEL := "Content-type: "
  const LENGTH_LABEL := "Content-length: "

  function StatusLine(r: Reply): string {
    r.protocol + " " + Decimal(r.code) + " " + r.message
  }

  function Generate(r: Reply): string {
    StatusLine(r) + BREAK +
    (if r.contentType != "" then TYPE_LABEL + r.contentType + BREAK else "") +
    LENGTH_LABEL + Decimal(|r.body|) + BREAK +
    BREAK +
    r.body
  }

  class HttpResponse {
    var protocol: string
    var responseCode: UInt16
    var message: string
    var contentType: string
    var body: string

    /** The source leaves the response code unset; here the caller picks what is there. */
    constructor (garbage: UInt16)
      ensures View() == Reply("", garbage, "", "", "")
    {
      protocol, responseCode, message, contentType, body := "", garbage, "", "", "";
    }

    function View(): Reply
      reads this
    {
      Reply(protocol, responseCode, message, contentType, body)
    }

    method SetProtocol(protocol: string)
      modifies this
      ensures View() == old(View()).(protocol := protocol)
    {
      this.protocol := protocol;
    }

    method SetResponseCode(code: UInt16)
      modifies this
      ensures View() == old(View()).(code := code)
    {
      responseCode := code;
    }

    method SetMessage(message: string)
      modifies this
      ensures View() == old(View()).(message := message)
    {
      this.message := message;
    }

    method SetContentType(contentType: string)
      modifies this
      ensures View() == old(View()).(contentType := contentType)
    {
      this.contentType := contentType;
    }

    method AppendToBody(fragment: string)
      modifies this
      ensures View() == old(View()).(body := old(body) + fragment)
    {
      body := body + fragment;
    }

    function GenerateResponseString(): string
      reads this
    {
      Generate(View())
    }
  }

  // ---------- Reading ----------

  datatype Read = Bad | Good(reply: Reply, rest: string)

  predicate AllDigits(s: string) {
    forall k :: 0 <= k < |s| ==> '0' <= s[k] <= '9'
  }

  datatype Status = NoStatus | Status(protocol: string, code: UInt16, message: string)

  /** A status line is split at its first two blanks. */
  function ReadStatus(line: string): Status {
    var blank := Find(line, " ");
    if blank.NotFound? then NoStatus else ReadCode(line[..blank.pos], line[blank.pos + 1..])
  }

  function ReadCode(protocol: string, more: string): Status {
    var blank := Find(more, " ");
    if blank.NotFound? || !AllDigits(more[..blank.pos]) || Number(more[..blank.pos]) >= 0x1_0000 then NoStatus
    else Status(protocol, Number(more[..blank.pos]), more[blank.pos + 1..])
  }

  datatype Length = NoLength | Length(n: nat)

  function ReadLength(line: string): Length {
    if "Content-length: " <= line && AllDigits(line[16..]) then Length(Number(line[16..])) else NoLength
  }

  /** A reader that knows nothing of the writer: the head ends at the first blank line, the last
      header gives the length of the body, and so many bytes belong to it. */
  function ReadReply(stream: string): Read {
    if Find(stream, HEADER_END).NotFound? then Bad else ReadParts(Lines(Head(stream)), Tail(stream))
  }

  function ReadParts(lines: seq<string>, tail: string): Read {
    if |lines| !in {2, 3} then Bad
    else if |lines| == 3 && !("Content-type: " <= lines[1]) then Bad
    else
      var status, length := ReadStatus(lines[0]), ReadLength(lines[|lines| - 1]);
      if status.NoStatus? || length.NoLength? || length.n > |tail| then Bad
      else
        Good(Reply(status.protocol, status.code, status.message,
                   if |lines| == 3 then lines[1][14..] else "",
                   tail[..length.n]),
             tail[length.n..])
  }

  /** The header fields are free of CR and LF; a body may be anything. */
  predicate Printable(r: Reply) {
    Avoids(r.protocol, {'\r', '\n'}) && Avoids(r.message, {'\r', '\n'}) && Avoids(r.contentType, {'\r', '\n'})
  }

  function HeadLines(r: Reply): seq<string> {
    [StatusLine(r)] +
    (if r.contentType != "" then [TYPE_LABEL + r.contentType] else []) +
    [LENGTH_LABEL + Decimal(|r.body|)]
  }

  lemma GenerateIsFramed(r: Reply)
    ensures Generate(r) == JoinLines(HeadLines(r)) + HEADER_END + r.body
  {
    var status, size := StatusLine(r), LENGTH_LABEL + Decimal(|r.body|);
    assert HEADER_END == BREAK + BREAK;
    if r.contentType == "" {
      assert HeadLines(r) == [status, size];
      JoinTwo(status, size);
    } else {
      assert HeadLines(r) == [status, TYPE_LABEL + r.contentType, size];
      JoinThree(status, TYPE_LABEL + r.contentType, size);
    }
  }

  lemma JoinTwo(a: string, b: string)
    ensures JoinLines([a, b]) == a + BREAK + b
  {
    assert [a, b][1..] == [b];
  }

  lemma JoinThree(a: string, b: string, c: string)
    ensures JoinLines([a, b, c]) == a + BREAK + (b + BREAK + c)
  {
    assert [a, b, c][1..] == [b, c];
    JoinTwo(b, c);
  }

  lemma HeadIsGood(r: Reply)
    requires Printable(r)
    ensures GoodLines(HeadLines(r))
  {
    var lines := HeadLines(r);
    assert GoodLine(StatusLine(r));
    assert GoodLine(LENGTH_LABEL + Decimal(|r.body|));
    if r.contentType != "" {
      assert GoodLine(TYPE_LABEL + r.contentType);
    }
  }

  lemma HeadOfReply(r: Reply, rest: string)
    requires Printable(r)
    ensures Find(Generate(r) + rest, HEADER_END).Found?
    ensures Lines(Head(Generate(r) + rest)) == HeadLines(r) && Tail(Generate(r) + rest) == r.body + rest
  {
    var lines := HeadLines(r);
    var stream := Generate(r) + rest;
    GenerateIsFramed(r);
    HeadIsGood(r);
    assert stream == JoinLines(lines) + HEADER_END + (r.body + rest);
    FindEnd(lines, r.body + rest);
    assert Head(stream) == JoinLines(lines) && Tail(stream) == r.body + rest;
    LinesOfJoin(lines);
  }

  /** The lines of the head, as they are on the wire */
  lemma LinesOnTheWire(r: Reply, rest: string)
    requires Printable(r)
    ensures Find(Generate(r) + rest, HEADER_END).Found?
    ensures Lines(Head(Generate(r) + rest)) ==
            [r.protocol + " " + Decimal(r.code) + " " + r.message] +
            (if r.contentType == "" then [] else ["Content-type: " + r.contentType]) +
            ["Content-length: " + Decimal(|r.body|)]
  {
    HeadOfReply(r, rest);
  }

  /** And the whole of it */
  lemma ResponseText(r: Reply)
    requires r.contentType != ""
    ensures Generate(r) ==
      r.protocol + " " + Decimal(r.code) + " " + r.message + "\r\nContent-type: " + r.contentType +
      "\r\nContent-length: " + Decimal(|r.body|) + "\r\n\r\n" + r.body
  {
    assert "\r\nContent-length: " == "\r\n" + "Content-length: " && "\r\nContent-type: " == "\r\n" + "Content-type: ";
    assert "\r\n\r\n" == "\r\n" + "\r\n";
  }

  lemma TypelessText(r: Reply)
    requires r.contentType == ""
    ensures Generate(r) ==
      r.protocol + " " + Decimal(r.code) + " " + r.message +
      "\r\nContent-length: " + Decimal(|r.body|) + "\r\n\r\n" + r.body
  {
    assert "\r\nContent-length: " == "\r\n" + "Content-length: ";
    assert "\r\n\r\n" == "\r\n" + "\r\n";
  }

  /** What stands before the first blank, and after it */
  lemma FirstWord(a: string, rest: string)
    requires ' ' !in a
    ensures Find(a + " " + rest, " ") == Found(|a|)
    ensures (a + " " + rest)[..|a|] == a && (a + " " + rest)[|a| + 1..] == rest
  {
    FindAfter(a, ' ', rest);
  }

  lemma CodeField(protocol: string, code: UInt16, message: string)
    ensures ReadCode(protocol, Decimal(code) + " " + message) == Status(protocol, code, message)
  {
    FirstWord(Decimal(code), message);
    NumberOfDecimal(code);
  }

  lemma StatusFields(r: Reply)
    requires ' ' !in r.protocol
    ensures ReadStatus(StatusLine(r)) == Status(r.protocol, r.code, r.message)
  {
    var more := Decimal(r.code) + " " + r.message;
    assert StatusLine(r) == r.protocol + " " + more;
    FirstWord(r.protocol, more);
    CodeField(r.protocol, r.code, r.message);
  }

  // ---------- Where a response ends ----------

  datatype Piece = NoPiece | Piece(text: string, rest: string)

  /** A reader that looks at no more than the first blank line and the length in the last header */
  function CutReply(stream: string): Piece {
    if Find(stream, HEADER_END).NotFound? || Lines(Head(stream)) == [] then NoPiece
    else
      var lines := Lines(Head(stream));
      var length := ReadLength(lines[|lines| - 1]);
      if length.NoLength? || length.n > |Tail(stream)| then NoPiece
      else Piece(Head(stream) + HEADER_END + Tail(stream)[..length.n], Tail(stream)[length.n..])
  }

  lemma LengthOfReply(n: nat)
    ensures ReadLength(LENGTH_LABEL + Decimal(n)) == Length(n)
  {
    NumberOfDecimal(n);
    assert (LENGTH_LABEL + Decimal(n))[|LENGTH_LABEL|..] == Decimal(n);
  }

  /** The reader cuts a response followed by anything exactly where the response ends. */
  lemma CutUndoesGenerate(r: Reply, rest: string)
    requires Printable(r)
    ensures CutReply(Generate(r) + rest) == Piece(Generate(r), rest)
  {
    var stream := Generate(r) + rest;
    HeadOfReply(r, rest);
    LengthOfReply(|r.body|);
    HeadAndTail(stream);
    assert (r.body + rest)[..|r.body|] == r.body && (r.body + rest)[|r.body|..] == rest;
    var head := Head(stream) + HEADER_END;
    assert stream == head + (r.body + rest);
    Connections.Regroup(head, r.body, rest);
    SameStart(head + r.body, Generate(r), rest);
  }

  lemma SameStart(a: string, b: string, rest: string)
    requires a + rest == b + rest
    ensures a == b
  {
    assert |a| == |b|;
    assert a == (a + rest)[..|a|] && b == (b + rest)[..|b|];
  }

  function GenerateAll(rs: seq<Reply>): string {
    if rs == [] then "" else Generate(rs[0]) + GenerateAll(rs[1..])
  }

  function CutAll(stream: string): seq<string>
    decreases |stream|
  {
    if stream == "" then []
    else
      var p := CutReply(stream);
      if p.Piece? && |p.rest| < |stream| then [p.text] + CutAll(p.rest) else []
  }

  lemma CutAllFirst(r: Reply, rest: string)
    requires Printable(r)
    ensures CutAll(Generate(r) + rest) == [Generate(r)] + CutAll(rest)
  {
    CutUndoesGenerate(r, rest);
    assert Generate(r) != "";
  }

  function Texts(rs: seq<Reply>): seq<string> {
    if rs == [] then [] else [Generate(rs[0])] + Texts(rs[1..])
  }

  /** Back-to-back responses are cut apart where they were joined, whatever their bodies contain. */
  lemma {:induction false} CutAllUndoesGenerateAll(rs: seq<Reply>)
    requires forall k :: 0 <= k < |rs| ==> Printable(rs[k])
    ensures CutAll(GenerateAll(rs)) == Texts(rs)
  {
    if rs != [] {
      CutAllFirst(rs[0], GenerateAll(rs[1..]));
      CutAllUndoesGenerateAll(rs[1..]);
    }
  }

  // ---------- What a response says ----------

  lemma PartsOfReply(r: Reply, rest: string)
    requires ' ' !in r.protocol
    ensures ReadParts(HeadLines(r), r.body + rest) == Good(r, rest)
  {
    StatusFields(r);
    LengthOfReply(|r.body|);
    assert (TYPE_LABEL + r.contentType)[|TYPE_LABEL|..] == r.contentType;
    assert (r.body + rest)[..|r.body|] == r.body && (r.body + rest)[|r.body|..] == rest;
  }

  lemma ReadFields(r: Reply, rest: string)
    requires Printable(r) && ' ' !in r.protocol
    ensures ReadReply(Generate(r) + rest) == Good(r, rest)
  {
    HeadOfReply(r, rest);
    PartsOfReply(r, rest);
  }

  lemma ProtocolHasNoBlank(stream: string)
    requires ReadReply(stream).Good?
    ensures ' ' !in ReadReply(stream).reply.protocol
  {
    var line := Lines(Head(stream))[0];
    var n := Find(line, " ").pos;
    forall k | 0 <= k < n ensures line[k] != ' ' {
      assert !At(line, k, " ");
      assert line[k..k + 1] == [line[k]];
    }
  }

  /** A response followed by anything is read as that response, and what follows is left, exactly
      when there is no blank in its protocol. */
  lemma ReadUndoesGenerate(r: Reply, rest: string)
    requires Printable(r)
    ensures ReadReply(Generate(r) + rest) == Good(r, rest) <==> ' ' !in r.protocol
  {
    if ' ' !in r.protocol {
      ReadFields(r, rest);
    } else if ReadReply(Generate(r) + rest).Good? {
      ProtocolHasNoBlank(Generate(r) + rest);
    }
  }

  /** No reader could do better: with a blank in the protocol, different responses have one text. */
  lemma BlankIsAmbiguous()
    ensures Generate(Reply("A 1", 2, "m", "", "")) == Generate(Reply("A", 1, "2 m", "", ""))
  {
    assert Decimal(1) == "1" && Decimal(2) == "2";
    assert StatusLine(Reply("A 1", 2, "m", "", "")) == StatusLine(Reply("A", 1, "2 m", "", ""));
  }

  /** Reads replies until the stream is used up or makes no sense. */
  function ReadAll(stream: string): seq<Reply>
    decreases |stream|
  {
    if stream == "" then []
    else
      var r := ReadReply(stream);
      if r.Good? && |r.rest| < |stream| then [r.reply] + ReadAll(r.rest) else []
  }

  lemma ReadAllFirst(r: Reply, rest: string)
    requires Printable(r) && ' ' !in r.protocol
    ensures ReadAll(Generate(r) + rest) == [r] + ReadAll(rest)
  {
    ReadFields(r, rest);
    assert Generate(r) != "";
  }

  lemma SameReplies(r: Reply, rs: seq<Reply>, all: seq<Reply>)
    requires all != [] && r == all[0] && rs == all[1..]
    ensures [r] + rs == all
  {
  }

  /** Back-to-back responses are decoded field by field, whatever their bodies contain. */
  lemma {:induction false} ReadAllUndoesGenerateAll(rs: seq<Reply>)
    requires forall k :: 0 <= k < |rs| ==> Printable(rs[k]) && ' ' !in rs[k].protocol
    ensures ReadAll(GenerateAll(rs)) == rs
  {
    if rs != [] {
      ReadAllFirst(rs[0], GenerateAll(rs[1..]));
      ReadAllUndoesGenerateAll(rs[1..]);
      SameReplies(rs[0], rs[1..], rs);
    }
  }

  // ---------- write_response ----------

  /** HttpConnection::write_response: one write, whose result is ignored. */
  method WriteResponse(fd: Sink, response: HttpResponse) returns (ok: bool)
    modifies fd
    ensures ok
    ensures var text := old(response.GenerateResponseString());
      var r := Next(old(fd.script), |text|);
      fd.sent == old(fd.sent) + (if r.Took? then text[..r.n] else "") &&
      (fd.sent == old(fd.sent) + text <==> r == Took(|text|))
  {
    var res := response.GenerateResponseString();
    var r := fd.Write(res);
    return true;
  }

  /** The promise fails, for example, where the write fails: true is returned and nothing was sent. */
  method WriteCanFail(response: HttpResponse) returns (ok: bool, sent: string)
    ensures ok && sent == "" != response.GenerateResponseString()
  {
    var fd := new Sink([Fatal]);
    ok := WriteResponse(fd, response);
    sent := fd.sent;
    assert response.GenerateResponseString() != "" by { GenerateIsFramed(response.View()); }
  }
}
