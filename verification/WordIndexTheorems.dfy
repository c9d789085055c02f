/** Search against the record log: what queries depend on, and when the word counter is right. */
module WordIndexTheorems {
  import opened WordIndexes

  // ---------- Counts ----------

  function Positions(h: History, w: string, d: string): set<int> {
    set k | 0 <= k < |h| && h[k] == Record(w, d)
  }

  /** A count is the number of records of that word for that document. */
  lemma {:induction false} CountIsPositions(h: History, w: string, d: string)
    ensures Count(h, w, d) == |Positions(h, w, d)|
  {
    if h == [] {
      assert Positions(h, w, d) == {};
    } else {
      var g, n := Before(h), |h| - 1;
      CountIsPositions(g, w, d);
      if h[n] == Record(w, d) {
        assert Positions(h, w, d) == Positions(g, w, d) + {n};
      } else {
        assert Positions(h, w, d) == Positions(g, w, d);
      }
    }
  }

  // ---------- The tables ----------

  /** The two tables are redundant: either one determines membership in the other. */
  lemma TablesAgree(index: map<string, Bucket>, docToWords: map<string, set<string>>, h: History, w: string, d: string)
    requires IndexAgrees(index, h) && WordsAgree(docToWords, h)
    ensures (d in docToWords && w in docToWords[d]) <==> (w in index && d in index[w])
    ensures w in index && d in index[w] ==> index[w][d] == Result(d, Count(h, w, d))
  {
    CountedIsRecorded(h, w, d);
  }

  // ---------- Queries ----------

  lemma {:induction false} RankOfJoin(h: History, a: seq<string>, b: seq<string>, d: string)
    ensures QueryRank(h, a + b, d) == QueryRank(h, a, d) + QueryRank(h, b, d)
  {
    if a == [] {
      assert a + b == b;
    } else {
      assert (a + b)[1..] == a[1..] + b;
      RankOfJoin(h, a[1..], b, d);
    }
  }

  lemma RankWithout(h: History, a: seq<string>, w: string, b: seq<string>, d: string)
    ensures QueryRank(h, a + [w] + b, d) == Count(h, w, d) + QueryRank(h, a + b, d)
  {
    RankOfJoin(h, a + [w], b, d);
    RankOfJoin(h, a, [w], d);
    RankOfJoin(h, a, b, d);
  }

  lemma {:induction false} PermutedRank(h: History, q: seq<string>, p: seq<string>, d: string)
    requires multiset(q) == multiset(p)
    ensures QueryRank(h, q, d) == QueryRank(h, p, d)
  {
    if q == [] {
      assert |multiset(p)| == 0;
    } else {
      assert q == [q[0]] + q[1..];
      assert q[0] in multiset(p);
      var i :| 0 <= i < |p| && p[i] == q[0];
      assert p == p[..i] + [p[i]] + p[i + 1..];
      assert multiset(q[1..]) == multiset(q) - multiset{q[0]};
      assert multiset(p[..i] + p[i + 1..]) == multiset(p) - multiset{q[0]};
      PermutedRank(h, q[1..], p[..i] + p[i + 1..], d);
      RankWithout(h, p[..i], p[i], p[i + 1..], d);
    }
  }

  lemma PermutedHasAll(h: History, q: seq<string>, p: seq<string>, d: string)
    requires multiset(q) == multiset(p) && HasAll(h, q, d)
    ensures HasAll(h, p, d)
  {
    forall k | 0 <= k < |p| ensures Count(h, p[k], d) > 0 {
      assert p[k] in multiset(q);
      assert p[k] in q;
    }
  }

  lemma SameResults(docs: set<string>, f: string -> int, g: string -> int)
    requires forall d :: d in docs ==> f(d) == g(d)
    ensures Results(docs, f) == Results(docs, g)
  {
    forall r ensures r in Results(docs, f) <==> r in Results(docs, g) {
      if r.docName in docs {
        assert f(r.docName) == g(r.docName);
      }
    }
  }

  /** The order of the words in a query does not matter; how often each occurs does. */
  lemma QueriesPermute(h: History, q: seq<string>, p: seq<string>)
    requires multiset(q) == multiset(p)
    ensures Answers(h, q) == Answers(h, p)
  {
    forall d ensures HasAll(h, q, d) <==> HasAll(h, p, d) {
      if HasAll(h, q, d) { PermutedHasAll(h, q, p, d); }
      if HasAll(h, p, d) { PermutedHasAll(h, p, q, d); }
    }
    assert Matches(h, q, Docs(h)) == Matches(h, p, Docs(h));
    forall d ensures QueryScore(h, q)(d) == QueryScore(h, p)(d) {
      PermutedRank(h, q, p, d);
    }
    SameResults(Matches(h, q, Docs(h)), QueryScore(h, q), QueryScore(h, p));
  }

  /** A query of one word is that word's lookup, though they read different tables. */
  lemma OneWordQuery(h: History, w: string)
    ensures Answers(h, [w]) == WordAnswers(h, w)
  {
    forall d ensures HasAll(h, [w], d) <==> Count(h, w, d) > 0 {
      if HasAll(h, [w], d) { assert Count(h, [w][0], d) > 0; }
    }
    assert Matches(h, [w], Docs(h)) == Holders(h, w);
    forall d ensures QueryScore(h, [w])(d) == WordScore(h, w)(d) {
      assert QueryRank(h, [w][1..], d) == 0;
    }
    SameResults(Holders(h, w), QueryScore(h, [w]), WordScore(h, w));
  }

  /** Adding a word to a query narrows it to the documents that hold the word, and raises their ranks. */
  lemma LongerQuery(h: History, q: seq<string>, w: string, d: string, rank: int)
    ensures Result(d, rank) in Answers(h, q + [w]) <==>
            Count(h, w, d) > 0 && Result(d, rank - Count(h, w, d)) in Answers(h, q)
  {
    RankOfJoin(h, q, [w], d);
    assert QueryRank(h, [w], d) == Count(h, w, d) + QueryRank(h, [w][1..], d);
    assert HasAll(h, q + [w], d) <==> HasAll(h, q, d) && Count(h, w, d) > 0 by {
      if HasAll(h, q + [w], d) {
        forall k | 0 <= k < |q| ensures Count(h, q[k], d) > 0 {
          assert (q + [w])[k] == q[k];
        }
        assert (q + [w])[|q|] == w;
      }
    }
    InAnswers(h, q + [w], d, rank);
    InAnswers(h, q, d, rank - Count(h, w, d));
  }

  lemma InAnswers(h: History, q: seq<string>, d: string, rank: int)
    ensures Result(d, rank) in Answers(h, q) <==> d in Docs(h) && HasAll(h, q, d) && rank == QueryRank(h, q, d)
  {
    var docs := Matches(h, q, Docs(h));
    if d in docs {
      assert Result(d, QueryScore(h, q)(d)) in Results(docs, QueryScore(h, q));
    }
  }

  // ---------- Histories with the same counts ----------

  ghost predicate SameCounts(h: History, g: History) {
    forall w, d :: Count(h, w, d) == Count(g, w, d)
  }

  lemma {:induction false} RecordedIsCounted(h: History, d: string)
    requires d in Docs(h)
    ensures exists w :: Count(h, w, d) > 0
  {
    if d in Docs(Before(h)) {
      RecordedIsCounted(Before(h), d);
      var w :| Count(Before(h), w, d) > 0;
      assert Count(h, w, d) > 0;
    } else {
      assert Count(h, Last(h).word, d) > 0;
    }
  }

  lemma SameDocs(h: History, g: History)
    requires SameCounts(h, g)
    ensures Docs(h) <= Docs(g)
  {
    forall d | d in Docs(h) ensures d in Docs(g) {
      RecordedIsCounted(h, d);
      var w :| Count(h, w, d) > 0;
      CountedIsRecorded(g, w, d);
    }
  }

  lemma {:induction false} SameRank(h: History, g: History, q: seq<string>, d: string)
    requires SameCounts(h, g)
    ensures QueryRank(h, q, d) == QueryRank(g, q, d)
  {
    if q != [] {
      SameRank(h, g, q[1..], d);
    }
  }

  /** Answers depend on the counts alone, whatever the order of the records and the lookups between. */
  lemma CountsDecideAnswers(h: History, g: History, q: seq<string>)
    requires SameCounts(h, g)
    ensures Answers(h, q) == Answers(g, q)
  {
    SameDocs(h, g);
    SameDocs(g, h);
    assert Matches(h, q, Docs(h)) == Matches(g, q, Docs(g));
    forall d ensures QueryScore(h, q)(d) == QueryScore(g, q)(d) {
      SameRank(h, g, q, d);
    }
    SameResults(Matches(h, q, Docs(h)), QueryScore(h, q), QueryScore(g, q));
  }

  // ---------- The counter ----------

  /** Some word was looked up before it was first recorded, and recorded later. */
  ghost predicate LookedUpEarly(h: History) {
    exists i, j :: 0 <= i < j < |h| && IsEarly(h, i, j)
  }

  predicate Records(c: Call, w: string) {
    c.Record? && c.word == w
  }

  ghost predicate IsEarly(h: History, i: nat, j: nat)
    requires i < j < |h|
  {
    h[i].LookupWord? && Records(h[j], h[i].word) && forall k :: 0 <= k < i ==> !Records(h[k], h[i].word)
  }

  lemma {:induction false} WordsAre(h: History, w: string)
    ensures w in Words(h) <==> exists k :: 0 <= k < |h| && Records(h[k], w)
  {
    if h != [] {
      WordsAre(Before(h), w);
      if w in Words(Before(h)) {
        var k :| 0 <= k < |h| - 1 && Records(Before(h)[k], w);
        assert Records(h[k], w);
      }
      if exists k :: 0 <= k < |h| && Records(h[k], w) {
        var k :| 0 <= k < |h| && Records(h[k], w);
        if k < |h| - 1 {
          assert Records(Before(h)[k], w);
        }
      }
    }
  }

  ghost predicate Unseen(h: History, i: nat, w: string)
    requires i < |h|
  {
    h[i] == LookupWord(w) && forall k :: 0 <= k < i ==> !Records(h[k], w)
  }

  lemma UnseenIs(h: History, i: nat, w: string)
    requires i < |h|
    ensures Unseen(h, i, w) <==> w in PlantedBy(h[..i], h[i])
  {
    WordsAre(h[..i], w);
    forall k | 0 <= k < i ensures Records(h[k], w) <==> Records(h[..i][k], w) {
    }
  }

  lemma {:induction false} PlantedAre(h: History, w: string)
    ensures w in Planted(h) <==> exists i :: 0 <= i < |h| && Unseen(h, i, w)
  {
    if h != [] {
      var n := |h| - 1;
      PlantedAre(Before(h), w);
      UnseenIs(h, n, w);
      if w in Planted(Before(h)) {
        var i :| 0 <= i < n && Unseen(Before(h), i, w);
        UnseenBefore(h, i, w);
      } else if exists i :: 0 <= i < n && Unseen(h, i, w) {
        var i :| 0 <= i < n && Unseen(h, i, w);
        UnseenBefore(h, i, w);
      }
    }
  }

  lemma UnseenBefore(h: History, i: nat, w: string)
    requires i < |h| - 1
    ensures Unseen(h, i, w) <==> Unseen(Before(h), i, w)
  {
    UnseenIs(h, i, w);
    UnseenIs(Before(h), i, w);
    assert Before(h)[..i] == h[..i];
  }

  lemma EarlyIs(h: History)
    ensures LookedUpEarly(h) <==> Words(h) * Planted(h) != {}
  {
    if LookedUpEarly(h) {
      var i, j :| 0 <= i < j < |h| && IsEarly(h, i, j);
      var w := h[i].word;
      assert Unseen(h, i, w) && Records(h[j], w);
      WordsAre(h, w);
      PlantedAre(h, w);
      assert w in Words(h) * Planted(h);
    }
    if Words(h) * Planted(h) != {} {
      var w :| w in Words(h) * Planted(h);
      WordsAre(h, w);
      PlantedAre(h, w);
      var i :| 0 <= i < |h| && Unseen(h, i, w);
      var j :| 0 <= j < |h| && Records(h[j], w);
      assert IsEarly(h, i, j);
    }
  }

  /** num_words counts the distinct recorded words unless one was looked up before it was recorded;
      then it is short by the number of such words. */
  lemma CounterIsExact(h: History)
    ensures FirstRecords(h) == |Words(h)| - |Words(h) * Planted(h)|
    ensures FirstRecords(h) == |Words(h)| <==> !LookedUpEarly(h)
  {
    EarlyIs(h);
    FirstRecordsAreNew(h);
    assert Words(h) == (Words(h) - Planted(h)) + Words(h) * Planted(h);
  }

  /** Looking up a word and then recording it leaves the counter at 0. */
  lemma CounterCanBeShort(w: string, d: string)
    ensures FirstRecords([LookupWord(w), Record(w, d)]) == 0 && |Words([LookupWord(w), Record(w, d)])| == 1
  {
    var h := [LookupWord(w), Record(w, d)];
    assert Before(h) == [LookupWord(w)] && Before(Before(h)) == [];
    assert Last(Before(h)) == LookupWord(w) && Last(h) == Record(w, d);
    assert Words(Before(h)) == {} && Words(h) == {w};
    assert FirstRecords(Before(h)) == 0 && w in Planted(Before(h));
  }

  /** Without lookups of single words the counter is the number of distinct recorded words. */
  lemma CounterOfQueries(h: History)
    requires forall k :: 0 <= k < |h| ==> !h[k].LookupWord?
    ensures FirstRecords(h) == |Words(h)|
  {
    CounterIsExact(h);
  }
}
