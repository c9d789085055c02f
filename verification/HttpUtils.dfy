/** URI decoding, URL splitting, HTML escaping and partial writes. */
module HttpUtils {
  import opened Text

  // ---------- decode_URI ----------

  predicate IsHex(c: char) {
    '0' <= c <= '9' || 'A' <= c <= 'F'
  }

  /** toupper in the "C" locale */
  function UpperChar(c: char): char {
    if 'a' <= c <= 'z' then 'A' + (c - 'a') else c
  }

  /** The character n places after pos, in upper case, or a blank past the end. */
  function Ahead(from: string, k: nat): char {
    if k < |from| then UpperChar(from[k]) else ' '
  }

  /** The code of two hexadecimal digits as the program computes it, in 8 bits. */
  function Code(c2: char, c3: char): int
    requires IsHex(c2) && IsHex(c3)
  {
    var high := (if c2 >= 'A' then 16 * (10 + (c2 as int - 'A' as int)) else 16 * (c2 as int - '0' as int)) % 256;
    (high + if c3 >= 'A' then 10 + (c3 as int - 'A' as int) else c3 as int - '0' as int) % 256
  }

  predicate Reasonable(code: int) {
    32 <= code <= 127
  }

  /** The value of a hexadecimal digit. */
  function HexValue(c: char): nat
    requires IsHex(c)
  {
    if c <= '9' then (c - '0') as nat else 10 + (c - 'A') as nat
  }

  /** The 8 bits never wrap. */
  lemma CodeIsExact(c2: char, c3: char)
    requires IsHex(c2) && IsHex(c3)
    ensures Code(c2, c3) == 16 * HexValue(c2) + HexValue(c3)
  {
  }

  predicate IsEscape(from: string, k: nat) {
    k + 2 < |from| && from[k] == '%' && IsHex(UpperChar(from[k + 1])) && IsHex(UpperChar(from[k + 2])) &&
    Reasonable(16 * HexValue(UpperChar(from[k + 1])) + HexValue(UpperChar(from[k + 2])))
  }

  /** What a URI stands for. */
  function Decode(from: string): string {
    if from == "" then ""
    else if from[0] == '+' then " " + Decode(from[1..])
    else if IsEscape(from, 0) then
      [(16 * HexValue(UpperChar(from[1])) + HexValue(UpperChar(from[2]))) as char] + Decode(from[3..])
    else [from[0]] + Decode(from[1..])
  }

  /** One step of decoding, seen from the whole string. */
  lemma DecodeStep(from: string, pos: nat)
    requires pos < |from|
    ensures from[pos] == '+' ==> Decode(from[pos..]) == " " + Decode(from[pos + 1..])
    ensures IsEscape(from, pos) ==>
      Decode(from[pos..]) == [Code(UpperChar(from[pos + 1]), UpperChar(from[pos + 2])) as char] + Decode(from[pos + 3..])
    ensures from[pos] != '+' && !IsEscape(from, pos) ==> Decode(from[pos..]) == [from[pos]] + Decode(from[pos + 1..])
  {
    var rest := from[pos..];
    assert rest[1..] == from[pos + 1..];
    if pos + 2 < |from| {
      assert rest[3..] == from[pos + 3..];
      assert rest[1] == from[pos + 1] && rest[2] == from[pos + 2];
    }
    if IsEscape(from, pos) {
      CodeIsExact(UpperChar(from[pos + 1]), UpperChar(from[pos + 2]));
    }
  }

  lemma Snoc(done: string, c: char, rest: string)
    ensures done + ([c] + rest) == done + [c] + rest
  {
  }

  method DecodeURI(from: string) returns (retstr: string)
    ensures retstr == Decode(from)
  {
    retstr := "";
    var pos := 0;
    while pos < |from|
      invariant 0 <= pos <= |from|
      invariant retstr + Decode(from[pos..]) == Decode(from)
    {
      DecodeStep(from, pos);
      ghost var done := retstr;
      var c1 := from[pos];
      var c2 := Ahead(from, pos + 1);
      var c3 := Ahead(from, pos + 2);
      if c1 == '+' {
        retstr := retstr + [' '];
        pos := pos + 1;
        Snoc(done, ' ', Decode(from[pos..]));
      } else if c1 != '%' || !IsHex(c2) || !IsHex(c3) || !Reasonable(Code(c2, c3)) {
        if c1 == '%' && IsHex(c2) && IsHex(c3) {
          CodeIsExact(c2, c3);
        }
        retstr := retstr + [c1];
        pos := pos + 1;
        Snoc(done, c1, Decode(from[pos..]));
      } else {
        CodeIsExact(c2, c3);
        retstr := retstr + [Code(c2, c3) as char];
        pos := pos + 3;
        Snoc(done, Code(c2, c3) as char, Decode(from[pos..]));
      }
    }
  }

  lemma {:induction false} DecodeNeverLengthens(from: string)
    ensures |Decode(from)| <= |from|
  {
    if from != "" {
      DecodeNeverLengthens(from[1..]);
      if IsEscape(from, 0) {
        DecodeNeverLengthens(from[3..]);
      }
    }
  }

  /** The value of a hexadecimal digit of either letter case, by its code, or -1 */
  function Hex(c: char): int {
    var n := c as int;
    if 48 <= n <= 57 then n - 48 else if 65 <= n <= 70 then n - 55 else if 97 <= n <= 102 then n - 87 else -1
  }

  lemma HexIs(c: char)
    ensures IsHex(UpperChar(c)) <==> Hex(c) >= 0
    ensures Hex(c) >= 0 ==> HexValue(UpperChar(c)) == Hex(c)
  {
  }

  lemma AfterFirst(c: char, rest: string)
    ensures ([c] + rest)[0] == c && ([c] + rest)[1..] == rest
  {
  }

  /** What is neither a percent nor a plus sign stands for itself, and a plus sign for a blank. */
  lemma DecodePlain(c: char, rest: string)
    requires c != '%'
    ensures Decode([c] + rest) == [if c == '+' then ' ' else c] + Decode(rest)
  {
    AfterFirst(c, rest);
  }

  /** A percent sign stands for itself unless two hexadecimal digits with a value from 32 to 127
      follow it. */
  lemma DecodeRejects(rest: string)
    requires |rest| < 2 || Hex(rest[0]) < 0 || Hex(rest[1]) < 0 || !(32 <= 16 * Hex(rest[0]) + Hex(rest[1]) <= 127)
    ensures Decode(['%'] + rest) == ['%'] + Decode(rest)
  {
    var from := ['%'] + rest;
    AfterFirst('%', rest);
    if |rest| >= 2 {
      HexIs(rest[0]);
      HexIs(rest[1]);
      assert from[1] == rest[0] && from[2] == rest[1];
    }
    assert !IsEscape(from, 0);
  }

  /** And then the three stand for the character with that value. */
  lemma DecodeAccepts(a: char, b: char, rest: string)
    requires Hex(a) >= 0 && Hex(b) >= 0 && 32 <= 16 * Hex(a) + Hex(b) <= 127
    ensures Decode(['%', a, b] + rest) == [(16 * Hex(a) + Hex(b)) as char] + Decode(rest)
  {
    var from := ['%', a, b] + rest;
    HexIs(a);
    HexIs(b);
    assert from[0] == '%' && from[1] == a && from[2] == b && from[3..] == rest;
    assert IsEscape(from, 0);
  }

  /** A control code stays as it is written. */
  lemma ControlCodesStay()
    ensures Decode("%16nope") == "%16nope"
  {
    DecodeRejects("16nope");
    Unchanged("16nope");
    assert ['%'] + "16nope" == "%16nope";
  }

  lemma {:induction false} Unchanged(s: string)
    requires '%' !in s && '+' !in s
    ensures Decode(s) == s
  {
    if s != "" {
      Unchanged(s[1..]);
      assert s == [s[0]] + s[1..];
      DecodePlain(s[0], s[1..]);
    }
  }

  // ---------- Encoders ----------

  /** How an encoder may write a character: as it is, as a plus sign, or as an escape with
      either letter case for each digit. */
  datatype Choice = Raw | Plus | Escape(lower1: bool, lower2: bool)

  const RESERVED: set<char> := {'%', '+', '?', '&', '='}

  predicate Allowed(c: char, choice: Choice) {
    match choice
    case Raw => c !in RESERVED
    case Plus => c == ' '
    case Escape(_, _) => 32 <= c as int <= 127
  }

  function Digit(n: nat, lower: bool): char
    requires n < 16
  {
    if n < 10 then '0' + n as char else if lower then 'a' + (n - 10) as char else 'A' + (n - 10) as char
  }

  function Encoded(c: char, choice: Choice): string
    requires Allowed(c, choice)
  {
    match choice
    case Raw => [c]
    case Plus => "+"
    case Escape(l1, l2) => ['%', Digit(c as int / 16, l1), Digit(c as int % 16, l2)]
  }

  predicate Encoding(plain: string, choices: seq<Choice>) {
    |choices| == |plain| && forall k :: 0 <= k < |plain| ==> Allowed(plain[k], choices[k])
  }

  function Encode(plain: string, choices: seq<Choice>): string
    requires Encoding(plain, choices)
  {
    if plain == "" then "" else Encoded(plain[0], choices[0]) + Encode(plain[1..], choices[1..])
  }

  /** The reserved characters are among those that may be escaped. */
  lemma EveryCharHasChoice(c: char)
    ensures Allowed(c, Raw) || Allowed(c, Escape(false, true))
  {
  }

  /** So every string has an encoding. */
  lemma {:induction false} EveryStringHasEncoding(plain: string)
    ensures exists choices :: Encoding(plain, choices)
  {
    if plain == "" {
      assert Encoding(plain, []);
    } else {
      EveryStringHasEncoding(plain[1..]);
      EveryCharHasChoice(plain[0]);
      var rest :| Encoding(plain[1..], rest);
      var first := if Allowed(plain[0], Raw) then Raw else Escape(false, true);
      assert Encoding(plain, [first] + rest);
    }
  }

  lemma DigitValue(n: nat, lower: bool)
    requires n < 16
    ensures IsHex(UpperChar(Digit(n, lower))) && HexValue(UpperChar(Digit(n, lower))) == n
    ensures Digit(n, lower) !in RESERVED
  {
  }

  lemma DecodeOne(c: char, choice: Choice, rest: string)
    requires Allowed(c, choice)
    ensures Decode(Encoded(c, choice) + rest) == [c] + Decode(rest)
  {
    var s := Encoded(c, choice) + rest;
    match choice
    case Raw =>
      assert s[1..] == rest;
    case Plus =>
      assert s[1..] == rest;
    case Escape(l1, l2) =>
      DigitValue(c as int / 16, l1);
      DigitValue(c as int % 16, l2);
      assert s[3..] == rest;
  }

  /** Decoding undoes every legal encoding of every string. */
  lemma {:induction false} DecodeUndoesEncode(plain: string, choices: seq<Choice>)
    requires Encoding(plain, choices)
    ensures Decode(Encode(plain, choices)) == plain
  {
    if plain != "" {
      DecodeUndoesEncode(plain[1..], choices[1..]);
      DecodeOne(plain[0], choices[0], Encode(plain[1..], choices[1..]));
    }
  }

  /** The characters that split a URL do not occur in an encoding. */
  const SPLITTERS: set<char> := {'?', '&', '='}

  lemma {:induction false} EncodeAvoids(plain: string, choices: seq<Choice>)
    requires Encoding(plain, choices)
    ensures Avoids(Encode(plain, choices), SPLITTERS)
  {
    if plain != "" {
      EncodeAvoids(plain[1..], choices[1..]);
      if choices[0].Escape? {
        DigitValue(plain[0] as int / 16, choices[0].lower1);
        DigitValue(plain[0] as int % 16, choices[0].lower2);
      }
      assert Avoids(Encoded(plain[0], choices[0]), SPLITTERS);
    }
  }

  // ---------- URLParser ----------

  type Args = map<string, string>

  /** The arguments that the chunks of a query string add. */
  function AddChunks(chunks: seq<string>, args: Args): Args {
    if chunks == [] then args
    else
      var fv := Split(chunks[0], {'='});
      AddChunks(chunks[1..], if |fv| == 2 then args[Decode(fv[0]) := Decode(fv[1])] else args)
  }

  lemma FirstChunk(chunk: string, chunks: seq<string>, args: Args)
    ensures var fv := Split(chunk, {'='});
      AddChunks([chunk] + chunks, args) ==
      AddChunks(chunks, if |fv| == 2 then args[Decode(fv[0]) := Decode(fv[1])] else args)
  {
    assert ([chunk] + chunks)[1..] == chunks;
  }

  /** A chunk with one equals sign adds an argument. */
  lemma ChunkCounts(field: string, value: string, chunks: seq<string>, args: Args)
    requires '=' !in field && '=' !in value
    ensures AddChunks([field + "=" + value] + chunks, args) == AddChunks(chunks, args[Decode(field) := Decode(value)])
  {
    SplitPiece(field, '=', value, {'='});
    SplitWhole(value, {'='});
    FirstChunk(field + "=" + value, chunks, args);
  }

  /** A chunk without an equals sign adds nothing. */
  lemma BareChunkIsIgnored(chunk: string, chunks: seq<string>, args: Args)
    requires '=' !in chunk
    ensures AddChunks([chunk] + chunks, args) == AddChunks(chunks, args)
  {
    SplitWhole(chunk, {'='});
    FirstChunk(chunk, chunks, args);
  }

  /** Neither does one with more than one. */
  lemma LongChunkIsIgnored(a: string, b: string, rest: string, chunks: seq<string>, args: Args)
    requires '=' !in a && '=' !in b
    ensures AddChunks([a + "=" + (b + "=" + rest)] + chunks, args) == AddChunks(chunks, args)
  {
    SplitPiece(a, '=', b + "=" + rest, {'='});
    SplitPiece(b, '=', rest, {'='});
    FirstChunk(a + "=" + (b + "=" + rest), chunks, args);
  }

  /** What follows a second question mark is ignored. */
  lemma SecondQueryIsIgnored(path: string, query: string, rest: string)
    requires '?' !in path && '?' !in query
    ensures |Split(path + "?" + (query + "?" + rest), {'?'})| >= 2
    ensures Split(path + "?" + (query + "?" + rest), {'?'})[..2] == Split(path + "?" + query, {'?'}) == [path, query]
  {
    SplitPiece(path, '?', query + "?" + rest, {'?'});
    SplitPiece(query, '?', rest, {'?'});
    SplitPiece(path, '?', query, {'?'});
    SplitWhole(query, {'?'});
  }

  class URLParser {
    var url: string
    var path: string
    var args: Args

    constructor ()
      ensures path == "" && args == map[]
    {
      url, path, args := "", "", map[];
    }

    /** Adds to the arguments already there: they are never cleared. */
    method Parse(url: string)
      modifies this
      ensures this.url == url && path == Decode(Split(url, {'?'})[0])
      ensures var ps := Split(url, {'?'});
        args == if |ps| < 2 then old(args) else AddChunks(Split(ps[1], {'&'}), old(args))
    {
      this.url := url;
      var ps := Split(url, {'?'});
      path := DecodeURI(ps[0]);
      if |ps| < 2 {
        return;
      }
      var vals := Split(ps[1], {'&'});
      var i := 0;
      while i < |vals|
        invariant 0 <= i <= |vals| && this.url == url && path == Decode(ps[0])
        invariant AddChunks(vals[i..], args) == AddChunks(vals, old(args))
      {
        var fv := Split(vals[i], {'='});
        if |fv| == 2 {
          var field := DecodeURI(fv[0]);
          var value := DecodeURI(fv[1]);
          args := args[field := value];
        }
        i := i + 1;
      }
    }
  }

  /** A query field with its text and the encoder's choices for both sides. */
  datatype Param = Param(field: string, value: string, fieldChoices: seq<Choice>, valueChoices: seq<Choice>)

  predicate WellEncoded(p: Param) {
    Encoding(p.field, p.fieldChoices) && Encoding(p.value, p.valueChoices)
  }

  function Chunk(p: Param): string
    requires WellEncoded(p)
  {
    Encode(p.field, p.fieldChoices) + "=" + Encode(p.value, p.valueChoices)
  }

  function Query(ps: seq<Param>): string
    requires forall k :: 0 <= k < |ps| ==> WellEncoded(ps[k])
  {
    if ps == [] then "" else if |ps| == 1 then Chunk(ps[0]) else Chunk(ps[0]) + "&" + Query(ps[1..])
  }

  /** The last parameter of a name wins. */
  function LastWins(ps: seq<Param>, args: Args): Args {
    if ps == [] then args else LastWins(ps[1..], args[ps[0].field := ps[0].value])
  }

  lemma ChunkAvoids(p: Param)
    requires WellEncoded(p)
    ensures Avoids(Chunk(p), {'?', '&'})
    ensures Split(Chunk(p), {'='}) == [Encode(p.field, p.fieldChoices), Encode(p.value, p.valueChoices)]
  {
    EncodeAvoids(p.field, p.fieldChoices);
    EncodeAvoids(p.value, p.valueChoices);
    SplitPiece(Encode(p.field, p.fieldChoices), '=', Encode(p.value, p.valueChoices), {'='});
    SplitWhole(Encode(p.value, p.valueChoices), {'='});
  }

  lemma {:induction false} QueryAvoids(ps: seq<Param>)
    requires forall k :: 0 <= k < |ps| ==> WellEncoded(ps[k])
    ensures Avoids(Query(ps), {'?'})
  {
    if ps != [] {
      ChunkAvoids(ps[0]);
      QueryAvoids(ps[1..]);
    }
  }

  lemma {:induction false} QueryArgs(ps: seq<Param>, args: Args)
    requires forall k :: 0 <= k < |ps| ==> WellEncoded(ps[k])
    ensures AddChunks(Split(Query(ps), {'&'}), args) == LastWins(ps, args)
  {
    if ps != [] {
      var p := ps[0];
      ChunkAvoids(p);
      DecodeUndoesEncode(p.field, p.fieldChoices);
      DecodeUndoesEncode(p.value, p.valueChoices);
      var next := args[p.field := p.value];
      if |ps| == 1 {
        SplitWhole(Chunk(p), {'&'});
        assert AddChunks([Chunk(p)], args) == AddChunks([Chunk(p)][1..], next);
      } else {
        SplitPiece(Chunk(p), '&', Query(ps[1..]), {'&'});
        var rest := Split(Query(ps[1..]), {'&'});
        assert ([Chunk(p)] + rest)[1..] == rest;
        QueryArgs(ps[1..], next);
      }
    }
  }

  /** A URL built by any encoder that escapes at least the reserved characters is taken apart
      again: parsing it gives the path, and adds the parameters to the arguments there were. */
  lemma ParseUndoesEncode(plain: string, choices: seq<Choice>, ps: seq<Param>, args: Args)
    requires Encoding(plain, choices) && forall k :: 0 <= k < |ps| ==> WellEncoded(ps[k])
    ensures var parts := Split(Encode(plain, choices) + "?" + Query(ps), {'?'});
      |parts| == 2 && Decode(parts[0]) == plain && AddChunks(Split(parts[1], {'&'}), args) == LastWins(ps, args)
    ensures Split(Encode(plain, choices), {'?'}) == [Encode(plain, choices)] && Decode(Encode(plain, choices)) == plain
  {
    EncodeAvoids(plain, choices);
    QueryAvoids(ps);
    SplitPiece(Encode(plain, choices), '?', Query(ps), {'?'});
    SplitWhole(Query(ps), {'?'});
    SplitWhole(Encode(plain, choices), {'?'});
    QueryArgs(ps, args);
    DecodeUndoesEncode(plain, choices);
  }

  /** In the resulting map, each name has the value of its last parameter. */
  lemma {:induction false} LastParamWins(ps: seq<Param>, args: Args, k: nat)
    requires k < |ps| && forall j :: k < j < |ps| ==> ps[j].field != ps[k].field
    ensures ps[k].field in LastWins(ps, args) && LastWins(ps, args)[ps[k].field] == ps[k].value
  {
    var next := args[ps[0].field := ps[0].value];
    if k > 0 {
      LastParamWins(ps[1..], next, k - 1);
    } else {
      OtherNamesKeep(ps[1..], next, ps[0].field);
    }
  }

  lemma {:induction false} OtherNamesKeep(ps: seq<Param>, args: Args, name: string)
    requires forall j :: 0 <= j < |ps| ==> ps[j].field != name
    ensures name in LastWins(ps, args) <==> name in args
    ensures name in args ==> LastWins(ps, args)[name] == args[name]
  {
    if ps != [] {
      OtherNamesKeep(ps[1..], args[ps[0].field := ps[0].value], name);
    }
  }

  // ---------- escape_html ----------

  /** boost::replace_all of one character: replacements are not scanned again. */
  function ReplaceAll(s: string, c: char, text: string): string {
    if s == "" then "" else (if s[0] == c then text else [s[0]]) + ReplaceAll(s[1..], c, text)
  }

  function Entity(c: char): string {
    if c == '&' then "&amp;"
    else if c == '>' then "&gt;"
    else if c == '<' then "&lt;"
    else if c == '\'' then "&apos;"
    else if c == '"' then "&quot;"
    else [c]
  }

  /** Each character replaced on its own, in one pass. */
  function Escaped(s: string): string {
    if s == "" then "" else Entity(s[0]) + Escaped(s[1..])
  }

  lemma {:induction false} ReplaceConcat(s: string, t: string, c: char, text: string)
    ensures ReplaceAll(s + t, c, text) == ReplaceAll(s, c, text) + ReplaceAll(t, c, text)
  {
    if s == "" {
      assert s + t == t;
    } else {
      assert (s + t)[1..] == s[1..] + t;
      ReplaceConcat(s[1..], t, c, text);
    }
  }

  function FiveReplacements(s: string): string {
    ReplaceAll(ReplaceAll(ReplaceAll(ReplaceAll(ReplaceAll(s,
      '&', "&amp;"), '>', "&gt;"), '<', "&lt;"), '\'', "&apos;"), '"', "&quot;")
  }

  lemma FiveConcat(s: string, t: string)
    ensures FiveReplacements(s + t) == FiveReplacements(s) + FiveReplacements(t)
  {
    ReplaceConcat(s, t, '&', "&amp;");
    var s1, t1 := ReplaceAll(s, '&', "&amp;"), ReplaceAll(t, '&', "&amp;");
    ReplaceConcat(s1, t1, '>', "&gt;");
    var s2, t2 := ReplaceAll(s1, '>', "&gt;"), ReplaceAll(t1, '>', "&gt;");
    ReplaceConcat(s2, t2, '<', "&lt;");
    var s3, t3 := ReplaceAll(s2, '<', "&lt;"), ReplaceAll(t2, '<', "&lt;");
    ReplaceConcat(s3, t3, '\'', "&apos;");
    var s4, t4 := ReplaceAll(s3, '\'', "&apos;"), ReplaceAll(t3, '\'', "&apos;");
    ReplaceConcat(s4, t4, '"', "&quot;");
  }

  lemma {:induction false} ReplaceNothing(s: string, c: char, text: string)
    requires c !in s
    ensures ReplaceAll(s, c, text) == s
  {
    if s != "" {
      ReplaceNothing(s[1..], c, text);
      assert s == [s[0]] + s[1..];
    }
  }

  lemma ReplaceFrom(c: char, d: char, text: string)
    ensures ReplaceAll([c], d, text) == if c == d then text else [c]
  {
    assert [c][1..] == "";
  }

  /** The later passes leave the text of an entity alone. */
  lemma EntityStays(done: string)
    requires '>' !in done && '<' !in done && '\'' !in done && '"' !in done
    ensures ReplaceAll(done, '>', "&gt;") == done && ReplaceAll(done, '<', "&lt;") == done
    ensures ReplaceAll(done, '\'', "&apos;") == done && ReplaceAll(done, '"', "&quot;") == done
  {
    ReplaceNothing(done, '>', "&gt;");
    ReplaceNothing(done, '<', "&lt;");
    ReplaceNothing(done, '\'', "&apos;");
    ReplaceNothing(done, '"', "&quot;");
  }

  lemma FiveOfOne(c: char)
    ensures FiveReplacements([c]) == Entity(c)
  {
    ReplaceFrom(c, '&', "&amp;");
    ReplaceFrom(c, '>', "&gt;");
    ReplaceFrom(c, '<', "&lt;");
    ReplaceFrom(c, '\'', "&apos;");
    ReplaceFrom(c, '"', "&quot;");
    if c == '&' {
      EntityStays("&amp;");
    } else if c == '>' {
      EntityStays("&gt;");
    } else if c == '<' {
      EntityStays("&lt;");
    } else if c == '\'' {
      EntityStays("&apos;");
    }
  }

  /** The five whole-string passes, of which the first rewrites the very character that the
      others introduce, come to the one-pass map. */
  lemma {:induction false} FivePassesAreOne(s: string)
    ensures FiveReplacements(s) == Escaped(s)
  {
    if s != "" {
      assert s == [s[0]] + s[1..];
      FiveConcat([s[0]], s[1..]);
      FiveOfOne(s[0]);
      FivePassesAreOne(s[1..]);
    }
  }

  method EscapeHtml(from: string) returns (ret: string)
    ensures ret == Escaped(from)
  {
    ret := from;
    ret := ReplaceAll(ret, '&', "&amp;");
    ret := ReplaceAll(ret, '>', "&gt;");
    ret := ReplaceAll(ret, '<', "&lt;");
    ret := ReplaceAll(ret, '\'', "&apos;");
    ret := ReplaceAll(ret, '"', "&quot;");
    FivePassesAreOne(from);
  }

  lemma {:induction false} EscapedConcat(s: string, t: string)
    ensures Escaped(s + t) == Escaped(s) + Escaped(t)
  {
    if s == "" {
      assert s + t == t;
    } else {
      assert (s + t)[1..] == s[1..] + t;
      EscapedConcat(s[1..], t);
    }
  }

  /** What an XML reader makes of the text: the five predefined entities stand for their
      characters. */
  function Unescaped(s: string): string {
    if s == "" then ""
    else if "&amp;" <= s then "&" + Unescaped(s[5..])
    else if "&gt;" <= s then ">" + Unescaped(s[4..])
    else if "&lt;" <= s then "<" + Unescaped(s[4..])
    else if "&apos;" <= s then "'" + Unescaped(s[6..])
    else if "&quot;" <= s then "\"" + Unescaped(s[6..])
    else [s[0]] + Unescaped(s[1..])
  }

  lemma UnescapeOne(c: char, rest: string)
    ensures Unescaped(Entity(c) + rest) == [c] + Unescaped(rest)
  {
    var s := Entity(c) + rest;
    assert s[|Entity(c)|..] == rest;
    if c == '&' {
      assert s[1] == 'a' && s[2] == 'm';
    } else if c == '>' {
      assert s[1] == 'g';
    } else if c == '<' {
      assert s[1] == 'l';
    } else if c == '\'' {
      assert s[1] == 'a' && s[2] == 'p';
    } else if c == '"' {
      assert s[1] == 'q';
    }
  }

  /** Escaping loses nothing. */
  lemma {:induction false} UnescapeUndoesEscape(s: string)
    ensures Unescaped(Escaped(s)) == s
  {
    if s != "" {
      UnescapeOne(s[0], Escaped(s[1..]));
      UnescapeUndoesEscape(s[1..]);
      assert s == [s[0]] + s[1..];
    }
  }

  predicate StartsEntity(s: string) {
    "&amp;" <= s || "&gt;" <= s || "&lt;" <= s || "&apos;" <= s || "&quot;" <= s
  }

  lemma EntityIsSafe(c: char, k: nat)
    requires k < |Entity(c)|
    ensures Entity(c)[k] !in {'<', '>', '\'', '"'}
    ensures Entity(c)[k] == '&' ==> k == 0 && c in {'&', '<', '>', '\'', '"'}
  {
  }

  /** No markup character is left, and each ampersand starts one of the five entities. */
  lemma {:induction false} EscapedIsSafe(s: string, k: nat)
    requires k < |Escaped(s)|
    ensures Escaped(s)[k] !in {'<', '>', '\'', '"'}
    ensures Escaped(s)[k] == '&' ==> StartsEntity(Escaped(s)[k..])
  {
    var n := |Entity(s[0])|;
    if k >= n {
      EscapedIsSafe(s[1..], k - n);
      assert Escaped(s)[k..] == Escaped(s[1..])[k - n..];
    } else {
      EntityIsSafe(s[0], k);
      assert Escaped(s)[0..] == Escaped(s);
    }
  }

  // ---------- wrapped_write ----------

  /** What one write() does: it takes some of the bytes, none, or fails. */
  datatype WriteResult = Took(n: nat) | Again | Fatal

  /** The socket: the outcome of its next writes, and what it has been given. */
  class Sink {
    var script: seq<WriteResult>
    var sent: string

    constructor (script: seq<WriteResult>)
      ensures this.script == script && sent == ""
    {
      this.script := script;
      sent := "";
    }

    /** write(): it takes at most what it is given, and all of it where the script is silent. */
    method Write(data: string) returns (r: WriteResult)
      modifies this
      ensures r == Next(old(script), |data|)
      ensures script == if old(script) == [] then [] else old(script)[1..]
      ensures sent == old(sent) + if r.Took? then data[..r.n] else ""
    {
      r := Next(script, |data|);
      if script != [] {
        script := script[1..];
      }
      if r.Took? {
        sent := sent + data[..r.n];
      }
    }
  }

  function Next(script: seq<WriteResult>, asked: nat): (r: WriteResult)
    ensures r.Took? ==> r.n <= asked
  {
    if script == [] then Took(asked)
    else if script[0].Took? && script[0].n > asked then Took(asked)
    else script[0]
  }

  /** wrapped_write: whatever the socket does, it has been given exactly the prefix of the
      returned length, and that is less than everything only after a fatal error or a write
      that took nothing; either of these is the last write. */
  method WrappedWrite(fd: Sink, buf: string) returns (written: nat)
    modifies fd
    ensures written <= |buf| && fd.sent == old(fd.sent) + buf[..written]
    ensures |fd.script| <= |old(fd.script)| && fd.script == old(fd.script)[|old(fd.script)| - |fd.script|..]
    ensures written < |buf| ==>
      |fd.script| < |old(fd.script)| &&
      old(fd.script)[|old(fd.script)| - |fd.script| - 1] in {Fatal, Took(0)}
    ensures forall k :: 0 <= k < |old(fd.script)| - |fd.script| - 1 ==> old(fd.script)[k] !in {Fatal, Took(0)}
  {
    written := 0;
    ghost var script := fd.script;
    while written < |buf|
      invariant written <= |buf| && fd.sent == old(fd.sent) + buf[..written]
      invariant |fd.script| <= |script| && fd.script == script[|script| - |fd.script|..]
      invariant forall k :: 0 <= k < |script| - |fd.script| ==> script[k] !in {Fatal, Took(0)}
      decreases |fd.script|, |buf| - written
    {
      var res := fd.Write(buf[written..]);
      match res {
        case Again => continue;
        case Fatal => break;
        case Took(n) =>
          if n == 0 {
            break;
          }
          assert buf[..written] + buf[written..][..n] == buf[..written + n];
          written := written + n;
      }
    }
  }
}
