/** The operations of std::string and of Boost's string algorithms that the server uses.  A byte
    is a `char`; classification is that of the "C" locale. */
module Text {

  // ---------- Characters ----------

  predicate IsAlpha(c: char) {
    'a' <= c <= 'z' || 'A' <= c <= 'Z'
  }

  predicate IsSpace(c: char) {
    c == ' ' || '\t' <= c <= '\r'
  }

  function LowerChar(c: char): char {
    if 'A' <= c <= 'Z' then 'a' + (c - 'A') else c
  }

  /** boost::to_lower */
  function Lower(s: string): (r: string)
    ensures |r| == |s|
  {
    seq(|s|, k requires 0 <= k < |s| => LowerChar(s[k]))
  }

  /** l is c as to_lower leaves it: a capital moves up by 32 codes, anything else stays. */
  predicate Spells(c: char, l: char) {
    l as int == if 65 <= c as int <= 90 then c as int + 32 else c as int
  }

  lemma LowerSpells(s: string, k: nat)
    requires k < |s|
    ensures Spells(s[k], Lower(s)[k])
  {
  }

  /** Nothing else spells the same. */
  lemma SpelledIsLower(s: string, w: string)
    requires |w| == |s|
    ensures Lower(s) == w <==> forall k :: 0 <= k < |s| ==> Spells(s[k], w[k])
  {
    forall k | 0 <= k < |s| ensures Spells(s[k], w[k]) <==> Lower(s)[k] == w[k] {
      LowerSpells(s, k);
    }
  }

  /** The letters of the "C" locale, by their codes */
  predicate Letter(c: char) {
    65 <= c as int <= 90 || 97 <= c as int <= 122
  }

  lemma AlphaIsLetter(c: char)
    ensures IsAlpha(c) <==> Letter(c)
  {
  }

  // ---------- Trimming ----------

  function TrimLeft(s: string): string {
    if s != "" && IsSpace(s[0]) then TrimLeft(s[1..]) else s
  }

  function TrimRight(s: string): string {
    if s != "" && IsSpace(s[|s| - 1]) then TrimRight(s[..|s| - 1]) else s
  }

  /** boost::trim */
  function Trim(s: string): string {
    TrimRight(TrimLeft(s))
  }

  /** The blanks of the "C" locale, by their codes */
  predicate Blank(c: char) {
    c as int in {9, 10, 11, 12, 13, 32}
  }

  lemma SpaceIsBlank(c: char)
    ensures IsSpace(c) <==> Blank(c)
  {
  }

  lemma {:induction false} TrimLeftIs(s: string) returns (a: nat)
    ensures a <= |s| && TrimLeft(s) == s[a..]
    ensures (forall k :: 0 <= k < a ==> Blank(s[k])) && (a < |s| ==> !Blank(s[a]))
  {
    if s != "" {
      SpaceIsBlank(s[0]);
    }
    if s != "" && IsSpace(s[0]) {
      a := TrimLeftIs(s[1..]);
      a := a + 1;
      assert s[1..][a - 1..] == s[a..];
      assert forall k :: 0 < k < |s| ==> s[k] == s[1..][k - 1];
    } else {
      a := 0;
    }
  }

  lemma {:induction false} TrimRightIs(s: string) returns (b: nat)
    ensures b <= |s| && TrimRight(s) == s[..b]
    ensures (forall k :: b <= k < |s| ==> Blank(s[k])) && (b > 0 ==> !Blank(s[b - 1]))
  {
    if s != "" {
      SpaceIsBlank(s[|s| - 1]);
    }
    if s != "" && IsSpace(s[|s| - 1]) {
      var t := s[..|s| - 1];
      b := TrimRightIs(t);
      assert t[..b] == s[..b];
    } else {
      b := |s|;
    }
  }

  /** Trimming takes all the blanks off both ends and nothing else. */
  lemma TrimIs(s: string) returns (a: nat, b: nat)
    ensures a <= b <= |s| && Trim(s) == s[a..b]
    ensures forall k :: 0 <= k < a || b <= k < |s| ==> Blank(s[k])
    ensures a < b ==> !Blank(s[a]) && !Blank(s[b - 1])
  {
    a := TrimLeftIs(s);
    var t := s[a..];
    var c := TrimRightIs(t);
    b := a + c;
    assert t[..c] == s[a..b];
    assert forall k :: a <= k < |s| ==> s[k] == t[k - a];
  }

  // ---------- Searching ----------

  /** Whether p occurs in s at position k. */
  predicate At(s: string, k: nat, p: string) {
    k + |p| <= |s| && s[k..k + |p|] == p
  }

  lemma AtRest(s: string, k: nat, p: string)
    requires s != "" && k > 0
    ensures At(s, k, p) <==> At(s[1..], k - 1, p)
  {
    if k + |p| <= |s| {
      var here, there := s[k..k + |p|], s[1..][k - 1..k - 1 + |p|];
      assert |here| == |there|;
      assert forall j :: 0 <= j < |here| ==> here[j] == there[j];
      assert here == there;
    }
  }

  datatype Position = NotFound | Found(pos: nat)

  /** std::string::find: the first position at which p occurs. */
  function Find(s: string, p: string): (r: Position)
    requires p != ""
    ensures r.NotFound? ==> forall k: nat :: !At(s, k, p)
    ensures r.Found? ==> At(s, r.pos, p) && forall k: nat :: k < r.pos ==> !At(s, k, p)
    decreases |s|
  {
    if |s| < |p| then NotFound
    else if s[..|p|] == p then
      assert s[0..|p|] == s[..|p|];
      Found(0)
    else
      assert !At(s, 0, p);
      var r := Find(s[1..], p);
      assert forall k: nat :: k > 0 ==> (At(s, k, p) <==> At(s[1..], k - 1, p)) by {
        forall k: nat | k > 0 ensures At(s, k, p) <==> At(s[1..], k - 1, p) {
          AtRest(s, k, p);
        }
      }
      if r.NotFound? then NotFound else Found(r.pos + 1)
  }

  /** The first occurrence is the only position with an occurrence there and none before. */
  lemma FindIs(s: string, p: string, k: nat)
    requires p != "" && At(s, k, p) && forall j: nat :: j < k ==> !At(s, j, p)
    ensures Find(s, p) == Found(k)
  {
  }

  /** What is appended later does not move the first occurrence. */
  lemma FindAppend(s: string, t: string, p: string)
    requires p != "" && Find(s, p).Found?
    ensures Find(s + t, p) == Find(s, p)
  {
    var k := Find(s, p).pos;
    assert forall j: nat :: j <= k ==> (At(s, j, p) <==> At(s + t, j, p)) by {
      forall j: nat | j <= k ensures At(s, j, p) <==> At(s + t, j, p) {
        assert (s + t)[j..j + |p|] == s[j..j + |p|];
      }
    }
    FindIs(s + t, p, k);
  }

  /** A character that the first part lacks is found right after it. */
  lemma FindAfter(a: string, c: char, b: string)
    requires c !in a
    ensures Find(a + [c] + b, [c]) == Found(|a|)
  {
    var s := a + [c] + b;
    assert s[|a|..|a| + 1] == [c];
    forall j: nat | j < |a| ensures !At(s, j, [c]) {
      assert s[j..j + 1][0] == a[j];
    }
    FindIs(s, [c], |a|);
  }

  // ---------- Splitting ----------

  /** boost::split with is_any_of(seps) and without token compression: the pieces between
      separators, empty ones included. */
  function Split(s: string, seps: set<char>): (r: seq<string>)
    ensures r != []
  {
    if s == "" then [""]
    else
      var rest := Split(s[1..], seps);
      if s[0] in seps then [""] + rest else [[s[0]] + rest[0]] + rest[1..]
  }

  predicate Avoids(s: string, seps: set<char>) {
    forall k :: 0 <= k < |s| ==> s[k] !in seps
  }

  lemma {:induction false} SplitWhole(s: string, seps: set<char>)
    requires Avoids(s, seps)
    ensures Split(s, seps) == [s]
  {
    if s != "" {
      SplitWhole(s[1..], seps);
      assert s == [s[0]] + s[1..];
    }
  }

  /** A piece that avoids the separators is split off at the separator after it. */
  lemma {:induction false} SplitPiece(piece: string, c: char, rest: string, seps: set<char>)
    requires Avoids(piece, seps) && c in seps
    ensures Split(piece + [c] + rest, seps) == [piece] + Split(rest, seps)
  {
    var s := piece + [c] + rest;
    if piece == "" {
      assert s[1..] == rest;
    } else {
      assert s[1..] == piece[1..] + [c] + rest;
      SplitPiece(piece[1..], c, rest, seps);
      assert [s[0]] + piece[1..] == piece;
    }
  }

  function NonEmpty(pieces: seq<string>): seq<string> {
    if pieces == [] then []
    else (if pieces[0] == "" then [] else [pieces[0]]) + NonEmpty(pieces[1..])
  }

  lemma {:induction false} SplitAlone(s: string, seps: set<char>)
    ensures |Split(s, seps)| == 1 <==> Avoids(s, seps)
  {
    if s != "" {
      SplitAlone(s[1..], seps);
      if Avoids(s[1..], seps) && s[0] !in seps {
        forall k | 0 <= k < |s| ensures s[k] !in seps {
          assert k > 0 ==> s[k] == s[1..][k - 1];
        }
      }
    }
  }

  predicate Only(s: string, seps: set<char>) {
    forall k :: 0 <= k < |s| ==> s[k] in seps
  }

  lemma {:induction false} SplitAllEmpty(s: string, seps: set<char>)
    ensures NonEmpty(Split(s, seps)) == [] <==> Only(s, seps)
  {
    if s != "" {
      var rest := Split(s[1..], seps);
      SplitAllEmpty(s[1..], seps);
      if s[0] in seps {
        assert ([""] + rest)[1..] == rest;
        if Only(s[1..], seps) {
          forall k | 0 <= k < |s| ensures s[k] in seps {
            assert k > 0 ==> s[k] == s[1..][k - 1];
          }
        }
      }
    }
  }
}
