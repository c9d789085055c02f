/** The tokenizer against the text: what the crawler records of a file is its maximal runs of
    letters. */
module CrawlTheorems {
  import opened Text
  import opened WordIndexes
  import opened CrawlFileTree

  // ---------- Words in a text ----------

  /** A maximal run of letters starts at i and spells w letter by letter, whatever its case. */
  predicate IsRun(s: string, i: int, w: string) {
    && 0 <= i < i + |w| <= |s|
    && (forall k :: 0 <= k < |w| ==> SpelledAt(s, i, w, k))
    && (i > 0 ==> !Letter(s[i - 1]))
    && (i + |w| < |s| ==> !Letter(s[i + |w|]))
  }

  predicate SpelledAt(s: string, i: int, w: string, k: nat)
    requires 0 <= i <= i + |w| <= |s| && k < |w|
  {
    Letter(s[i + k]) && Spells(s[i + k], w[k])
  }

  /** Where the runs that spell w start */
  function Runs(s: string, w: string): set<int> {
    set i | 0 <= i < |s| && IsRun(s, i, w)
  }

  /** The same in terms of the library's functions */
  predicate IsLowerRun(s: string, i: int, w: string) {
    && 0 <= i < i + |w| <= |s|
    && (forall k :: i <= k < i + |w| ==> IsAlpha(s[k]))
    && (i > 0 ==> !IsAlpha(s[i - 1]))
    && (i + |w| < |s| ==> !IsAlpha(s[i + |w|]))
    && Lower(s[i..i + |w|]) == w
  }

  lemma RunIsLowerRun(s: string, i: int, w: string)
    ensures IsRun(s, i, w) <==> IsLowerRun(s, i, w)
  {
    if 0 <= i < i + |w| <= |s| {
      var piece := s[i..i + |w|];
      SpelledIsLower(piece, w);
      forall k | 0 <= k < |w| ensures SpelledAt(s, i, w, k) <==> IsAlpha(s[i + k]) && Spells(piece[k], w[k]) {
        AlphaIsLetter(s[i + k]);
      }
      if forall k :: 0 <= k < |w| ==> SpelledAt(s, i, w, k) {
        forall k | i <= k < i + |w| ensures IsAlpha(s[k]) {
          assert SpelledAt(s, i, w, k - i);
        }
      }
    }
  }

  function RunsFrom(s: string, w: string, i: nat): nat
    requires i <= |s|
    decreases |s| - i
  {
    if i == |s| then 0 else (if IsLowerRun(s, i, w) then 1 else 0) + RunsFrom(s, w, i + 1)
  }

  function RunsUpTo(s: string, w: string, i: nat): set<int> {
    set k | i <= k < |s| && IsLowerRun(s, k, w)
  }

  lemma {:induction false} RunsFromCounts(s: string, w: string, i: nat)
    requires i <= |s|
    ensures RunsFrom(s, w, i) == |RunsUpTo(s, w, i)|
    decreases |s| - i
  {
    if i < |s| {
      RunsFromCounts(s, w, i + 1);
      if IsLowerRun(s, i, w) {
        assert RunsUpTo(s, w, i) == RunsUpTo(s, w, i + 1) + {i};
      } else {
        assert RunsUpTo(s, w, i) == RunsUpTo(s, w, i + 1);
      }
    } else {
      assert RunsUpTo(s, w, i) == {};
    }
  }

  lemma {:induction false} SkipTo(s: string, w: string, i: nat, j: nat)
    requires i <= j <= |s| && forall k :: i <= k < j ==> !IsLowerRun(s, k, w)
    ensures RunsFrom(s, w, i) == RunsFrom(s, w, j)
    decreases j - i
  {
    if i < j {
      SkipTo(s, w, i + 1, j);
    }
  }

  lemma RunAfter(s: string, w: string, c: nat, i: nat)
    requires c <= |s| && c + i <= |s| && (c > 0 ==> !IsAlpha(s[c - 1]))
    ensures IsLowerRun(s, c + i, w) <==> IsLowerRun(s[c..], i, w)
  {
    if c + i + |w| <= |s| {
      assert s[c + i..c + i + |w|] == s[c..][i..i + |w|];
    }
  }

  /** What is before a character that is no letter does not matter to the runs after it. */
  lemma {:induction false} RunsAfter(s: string, w: string, c: nat, i: nat)
    requires c <= |s| && c + i <= |s| && (c > 0 ==> !IsAlpha(s[c - 1]))
    ensures RunsFrom(s, w, c + i) == RunsFrom(s[c..], w, i)
    decreases |s| - i
  {
    if c + i < |s| {
      RunAfter(s, w, c, i);
      RunsAfter(s, w, c, i + 1);
    }
  }

  lemma RunBefore(s: string, w: string, i: nat)
    requires s != "" && i < |s| && !IsAlpha(s[|s| - 1])
    ensures IsLowerRun(s, i, w) <==> IsLowerRun(s[..|s| - 1], i, w)
  {
    if i + |w| < |s| {
      assert s[i..i + |w|] == s[..|s| - 1][i..i + |w|];
    }
    if w != "" && i + |w| == |s| {
      assert !IsAlpha(s[i + |w| - 1]);
    }
  }

  lemma {:induction false} RunsBefore(s: string, w: string, i: nat)
    requires s != "" && i < |s| && !IsAlpha(s[|s| - 1])
    ensures RunsFrom(s, w, i) == RunsFrom(s[..|s| - 1], w, i)
    decreases |s| - i
  {
    RunBefore(s, w, i);
    if i < |s| - 1 {
      RunsBefore(s, w, i + 1);
    } else {
      assert RunsFrom(s, w, i + 1) == 0;
    }
  }

  lemma {:induction false} TrimLeftKeepsRuns(s: string, w: string)
    ensures RunsFrom(TrimLeft(s), w, 0) == RunsFrom(s, w, 0)
    decreases |s|
  {
    if s != "" && IsSpace(s[0]) {
      TrimLeftKeepsRuns(s[1..], w);
      RunsAfter(s, w, 1, 0);
    }
  }

  lemma {:induction false} TrimRightKeepsRuns(s: string, w: string)
    ensures RunsFrom(TrimRight(s), w, 0) == RunsFrom(s, w, 0)
    decreases |s|
  {
    if s != "" && IsSpace(s[|s| - 1]) {
      TrimRightKeepsRuns(s[..|s| - 1], w);
      RunsBefore(s, w, 0);
    }
  }

  // ---------- Words in a log ----------

  lemma {:induction false} CountOfJoin(h: History, g: History, w: string, d: string)
    ensures Count(h + g, w, d) == Count(h, w, d) + Count(g, w, d)
  {
    if g == [] {
      assert h + g == h;
    } else {
      CountOfJoin(h, Before(g), w, d);
      assert Before(h + g) == h + Before(g);
    }
  }

  /** How many of the pieces are w once in lower case */
  function Spelled(pieces: seq<string>, w: string): nat {
    if pieces == [] then 0
    else (if pieces[0] != "" && Lower(pieces[0]) == w then 1 else 0) + Spelled(pieces[1..], w)
  }

  lemma CountOfPiece(path: string, piece: string, w: string, d: string)
    ensures Count(PieceLog(path, piece), w, d) == if d == path then Spelled([piece], w) else 0
  {
    assert [piece][1..] == [];
    assert Before([Record(Lower(piece), path)]) == [];
  }

  lemma {:induction false} SpelledStep(pieces: seq<string>, w: string)
    requires pieces != []
    ensures Spelled(pieces, w) == Spelled(pieces[..|pieces| - 1], w) + Spelled([pieces[|pieces| - 1]], w)
  {
    if |pieces| == 1 {
      assert pieces == [pieces[0]];
    } else {
      SpelledStep(pieces[1..], w);
      assert pieces[1..][..|pieces| - 2] == pieces[..|pieces| - 1][1..];
    }
  }

  lemma {:induction false} CountOfPieces(path: string, pieces: seq<string>, w: string, d: string)
    ensures Count(PiecesLog(path, pieces), w, d) == if d == path then Spelled(pieces, w) else 0
  {
    if pieces != [] {
      var n := |pieces| - 1;
      CountOfPieces(path, pieces[..n], w, d);
      CountOfPiece(path, pieces[n], w, d);
      CountOfJoin(PiecesLog(path, pieces[..n]), PieceLog(path, pieces[n]), w, d);
      SpelledStep(pieces, w);
    }
  }

  /** The first piece is the run that starts the text, if any. */
  lemma FirstPiece(s: string, w: string)
    ensures IsLowerRun(s, 0, w) <==> s[..Letters(s)] != "" && Lower(s[..Letters(s)]) == w
  {
    var k := Letters(s);
    if IsLowerRun(s, 0, w) {
      assert |w| == k;
    }
  }

  /** Where the second piece starts, if the text has one */
  function Second(s: string): nat {
    Letters(s) + Others(s[Letters(s)..])
  }

  /** No run starts between the starts of the first and the second piece. */
  lemma NoRunBetween(s: string, w: string, i: nat)
    requires 0 < i < Second(s) && Letters(s) < |s|
    ensures i < |s| && !IsLowerRun(s, i, w)
  {
    if i <= Letters(s) {
      assert IsAlpha(s[i - 1]);
    } else {
      OtherAt(s, i);
    }
  }

  lemma OtherAt(s: string, i: nat)
    requires Letters(s) <= i < Second(s) && Letters(s) < |s|
    ensures i < |s| && !IsAlpha(s[i])
  {
    assert s[i] == s[Letters(s)..][i - Letters(s)];
  }

  lemma {:induction false} PiecesAreRuns(s: string, w: string)
    ensures Spelled(Pieces(s), w) == RunsFrom(s, w, 0)
    decreases |s|
  {
    if Letters(s) == |s| {
      OnePiece(s, w);
    } else {
      PiecesOfRest(s, w);
      RunsOfRest(s, w);
      PiecesAreRuns(s[Second(s)..], w);
    }
  }

  lemma PiecesOfRest(s: string, w: string)
    requires Letters(s) < |s|
    ensures 0 < Second(s) <= |s|
    ensures Spelled(Pieces(s), w) == (if IsLowerRun(s, 0, w) then 1 else 0) + Spelled(Pieces(s[Second(s)..]), w)
  {
    var c := Second(s);
    FirstPiece(s, w);
    assert Pieces(s) == [s[..Letters(s)]] + Pieces(s[c..]);
    assert Pieces(s)[1..] == Pieces(s[c..]);
  }

  lemma OnePiece(s: string, w: string)
    requires Letters(s) == |s|
    ensures Spelled(Pieces(s), w) == RunsFrom(s, w, 0)
  {
    FirstPiece(s, w);
    assert s[..|s|] == s;
    assert [s][1..] == [];
    if s != "" {
      SkipTo(s, w, 1, |s|);
    }
  }

  lemma RunsOfRest(s: string, w: string)
    requires Letters(s) < |s|
    ensures RunsFrom(s, w, 0) == (if IsLowerRun(s, 0, w) then 1 else 0) + RunsFrom(s[Second(s)..], w, 0)
  {
    var c := Second(s);
    forall i | 0 < i < c ensures !IsLowerRun(s, i, w) {
      NoRunBetween(s, w, i);
    }
    SkipTo(s, w, 1, c);
    assert !IsAlpha(s[c - 1]) by {
      assert c > Letters(s);
      assert s[c - 1] == s[Letters(s)..][c - 1 - Letters(s)];
    }
    RunsAfter(s, w, c, 0);
  }

  /** The records of a file: one under its path for each maximal run of letters, in lower case. */
  lemma CountOfFile(path: string, text: string, w: string, d: string)
    ensures Count(FileLog(path, text), w, d) == if d == path then |Runs(text, w)| else 0
  {
    CountOfPieces(path, Pieces(Trim(text)), w, d);
    PiecesAreRuns(Trim(text), w);
    TrimRightKeepsRuns(TrimLeft(text), w);
    TrimLeftKeepsRuns(text, w);
    RunsFromCounts(text, w, 0);
    forall i ensures IsRun(text, i, w) <==> IsLowerRun(text, i, w) {
      RunIsLowerRun(text, i, w);
    }
    assert RunsUpTo(text, w, 0) == Runs(text, w);
  }
}
