/** The inverted index: two redundant tables and a counter, against the plain history of calls. */
module WordIndexes {

  datatype Result = Result(docName: string, rank: int)

  /** The calls made on an index so far. */
  datatype Call = Record(word: string, doc: string) | LookupWord(word: string) | LookupQuery(query: seq<string>)

  type History = seq<Call>

  // ---------- What a history says ----------

  function Last(h: History): Call
    requires h != []
  {
    h[|h| - 1]
  }

  function Before(h: History): History
    requires h != []
  {
    h[..|h| - 1]
  }

  /** How often word was recorded for doc. */
  function Count(h: History, word: string, doc: string): nat {
    if h == [] then 0 else Count(Before(h), word, doc) + if Last(h) == Record(word, doc) then 1 else 0
  }

  /** The words that were recorded. */
  function Words(h: History): set<string> {
    if h == [] then {} else Words(Before(h)) + if Last(h).Record? then {Last(h).word} else {}
  }

  /** The documents for which something was recorded. */
  function Docs(h: History): set<string> {
    if h == [] then {} else Docs(Before(h)) + if Last(h).Record? then {Last(h).doc} else {}
  }

  /** The words that lookup_word was asked for before they were recorded, if ever they were. */
  function Planted(h: History): set<string> {
    if h == [] then {} else Planted(Before(h)) + PlantedBy(Before(h), Last(h))
  }

  function PlantedBy(h: History, c: Call): set<string> {
    if c.LookupWord? && c.word !in Words(h) then {c.word} else {}
  }

  /** How many records met a word that no call before had mentioned, as far as the index knows. */
  function FirstRecords(h: History): nat {
    if h == [] then 0 else FirstRecords(Before(h)) + if IsFirst(Before(h), Last(h)) then 1 else 0
  }

  predicate IsFirst(h: History, c: Call) {
    c.Record? && c.word !in Words(h) + Planted(h)
  }

  function QueryRank(h: History, query: seq<string>, doc: string): nat {
    if query == [] then 0 else Count(h, query[0], doc) + QueryRank(h, query[1..], doc)
  }

  predicate HasAll(h: History, query: seq<string>, doc: string) {
    forall k :: 0 <= k < |query| ==> Count(h, query[k], doc) > 0
  }

  function QueryScore(h: History, query: seq<string>): string -> int {
    (doc: string) => QueryRank(h, query, doc)
  }

  function WordScore(h: History, word: string): string -> int {
    (doc: string) => Count(h, word, doc)
  }

  /** One result for each of these documents. */
  function Results(docs: set<string>, score: string -> int): set<Result> {
    set d | d in docs :: Result(d, score(d))
  }

  /** Those of the documents that hold every word of the query. */
  function Matches(h: History, query: seq<string>, docs: set<string>): set<string> {
    set d | d in docs && HasAll(h, query, d)
  }

  function Holders(h: History, word: string): set<string> {
    set d | d in Docs(h) && Count(h, word, d) > 0
  }

  /** The documents that hold every word of the query, each once, with the sum of the ranks. */
  function Answers(h: History, query: seq<string>): set<Result> {
    Results(Matches(h, query, Docs(h)), QueryScore(h, query))
  }

  function WordAnswers(h: History, word: string): set<Result> {
    Results(Holders(h, word), WordScore(h, word))
  }

  lemma OneMoreResult(docs: set<string>, score: string -> int, d: string)
    requires d !in docs
    ensures multiset(Results(docs + {d}, score)) == multiset(Results(docs, score)) + multiset{Result(d, score(d))}
  {
    var more := Results(docs, score) + {Result(d, score(d))};
    assert Results(docs + {d}, score) == more;
    assert Result(d, score(d)) !in Results(docs, score);
  }

  /** The answers found among these documents */
  ghost function Found(h: History, query: seq<string>, docs: set<string>): multiset<Result> {
    multiset(Results(Matches(h, query, docs), QueryScore(h, query)))
  }

  lemma OneMoreFound(h: History, query: seq<string>, docs: set<string>, d: string)
    requires d !in docs
    ensures Found(h, query, docs + {d}) ==
            Found(h, query, docs) +
            if HasAll(h, query, d) then multiset{Result(d, QueryRank(h, query, d))} else multiset{}
  {
    if HasAll(h, query, d) {
      OneMoreResult(Matches(h, query, docs), QueryScore(h, query), d);
      assert Matches(h, query, docs + {d}) == Matches(h, query, docs) + {d};
    } else {
      assert Matches(h, query, docs + {d}) == Matches(h, query, docs);
    }
  }

  lemma BeforeLast(h: History, c: Call)
    ensures Before(h + [c]) == h && Last(h + [c]) == c
  {
  }

  lemma {:induction false} CountedIsRecorded(h: History, word: string, doc: string)
    ensures Count(h, word, doc) > 0 ==> word in Words(h) && doc in Docs(h)
  {
    if h != [] {
      CountedIsRecorded(Before(h), word, doc);
    }
  }

  // ---------- Results in order ----------

  predicate Ranked(rs: seq<Result>) {
    forall j, k :: 0 <= j < k < |rs| ==> rs[j].rank >= rs[k].rank
  }

  function Insert(rs: seq<Result>, r: Result): seq<Result> {
    if rs == [] || rs[0].rank < r.rank then [r] + rs else [rs[0]] + Insert(rs[1..], r)
  }

  lemma {:induction false} InsertAdds(rs: seq<Result>, r: Result)
    ensures multiset(Insert(rs, r)) == multiset(rs) + multiset{r}
  {
    if rs != [] && rs[0].rank >= r.rank {
      InsertAdds(rs[1..], r);
      assert rs == [rs[0]] + rs[1..];
    }
  }

  lemma {:induction false} InsertIsRanked(rs: seq<Result>, r: Result)
    requires Ranked(rs)
    ensures Ranked(Insert(rs, r))
  {
    if rs != [] && rs[0].rank >= r.rank {
      InsertIsRanked(rs[1..], r);
      InsertAdds(rs[1..], r);
      var tail := Insert(rs[1..], r);
      forall k | 0 <= k < |tail| ensures tail[k].rank <= rs[0].rank {
        assert tail[k] in multiset(tail);
        assert tail[k] in rs[1..] || tail[k] == r;
      }
    }
  }

  /** std::sort with Result's order: callers may rely on no more than this contract. */
  method Sort(rs: seq<Result>) returns (sorted: seq<Result>)
    ensures multiset(sorted) == multiset(rs) && Ranked(sorted)
  {
    sorted := [];
    var i := 0;
    while i < |rs|
      invariant 0 <= i <= |rs| && multiset(sorted) == multiset(rs[..i]) && Ranked(sorted)
    {
      InsertAdds(sorted, rs[i]);
      InsertIsRanked(sorted, rs[i]);
      sorted := Insert(sorted, rs[i]);
      assert rs[..i + 1] == rs[..i] + [rs[i]];
      i := i + 1;
    }
    assert rs[..|rs|] == rs;
  }

  // ---------- The index ----------

  type Bucket = map<string, Result>

  /** index_ holds the count of every recorded pair, and an empty bucket for a planted word. */
  ghost predicate IndexAgrees(index: map<string, Bucket>, h: History) {
    && index.Keys == Words(h) + Planted(h)
    && (forall w :: w in index ==> BucketAgrees(index[w], h, w))
  }

  ghost predicate BucketAgrees(bucket: Bucket, h: History, word: string) {
    forall d ::
      && (d in bucket <==> Count(h, word, d) > 0)
      && (d in bucket ==> bucket[d] == Result(d, Count(h, word, d)))
  }

  /** doc_to_words_ holds the words of every document. */
  ghost predicate WordsAgree(docToWords: map<string, set<string>>, h: History) {
    && docToWords.Keys == Docs(h)
    && (forall d :: d in docToWords ==> DocAgrees(docToWords[d], h, d))
  }

  ghost predicate DocAgrees(words: set<string>, h: History, doc: string) {
    forall w :: w in words <==> Count(h, w, doc) > 0
  }

  // ---------- What record does to each table ----------

  function GetBucket(index: map<string, Bucket>, word: string): Bucket {
    if word in index then index[word] else map[]
  }

  function Recorded(index: map<string, Bucket>, word: string, doc: string): map<string, Bucket> {
    var bucket := GetBucket(index, word);
    var rank := if doc in bucket then bucket[doc].rank else 0;
    index[word := bucket[doc := Result(doc, rank + 1)]]
  }

  function Noted(docToWords: map<string, set<string>>, word: string, doc: string): map<string, set<string>> {
    docToWords[doc := (if doc in docToWords then docToWords[doc] else {}) + {word}]
  }

  lemma RecordedAgrees(index: map<string, Bucket>, h: History, word: string, doc: string)
    requires IndexAgrees(index, h)
    ensures IndexAgrees(Recorded(index, word, doc), h + [Record(word, doc)])
  {
    var g := h + [Record(word, doc)];
    BeforeLast(h, Record(word, doc));
    if word !in index {
      forall d ensures Count(h, word, d) == 0 {
        CountedIsRecorded(h, word, d);
      }
    }
    assert Recorded(index, word, doc).Keys == Words(g) + Planted(g);
  }

  lemma NotedAgrees(docToWords: map<string, set<string>>, h: History, word: string, doc: string)
    requires WordsAgree(docToWords, h)
    ensures WordsAgree(Noted(docToWords, word, doc), h + [Record(word, doc)])
  {
    BeforeLast(h, Record(word, doc));
    if doc !in docToWords {
      forall w ensures Count(h, w, doc) == 0 {
        CountedIsRecorded(h, w, doc);
      }
    }
  }

  lemma CountedAgrees(index: map<string, Bucket>, h: History, word: string, doc: string)
    requires IndexAgrees(index, h)
    ensures FirstRecords(h + [Record(word, doc)]) == FirstRecords(h) + if word in index then 0 else 1
  {
    BeforeLast(h, Record(word, doc));
  }

  // ---------- What a lookup does to them ----------

  /** A call that records nothing changes no count. */
  lemma QuietCall(h: History, c: Call)
    requires !c.Record?
    ensures forall w, d :: Count(h + [c], w, d) == Count(h, w, d)
    ensures Words(h + [c]) == Words(h) && Docs(h + [c]) == Docs(h)
    ensures Planted(h + [c]) == Planted(h) + PlantedBy(h, c)
  {
    BeforeLast(h, c);
  }

  lemma QuietTables(docToWords: map<string, set<string>>, h: History, c: Call)
    requires WordsAgree(docToWords, h) && !c.Record?
    ensures WordsAgree(docToWords, h + [c]) && FirstRecords(h + [c]) == FirstRecords(h)
  {
    QuietCall(h, c);
    BeforeLast(h, c);
  }

  lemma PlantAgrees(index: map<string, Bucket>, h: History, word: string)
    requires IndexAgrees(index, h)
    ensures IndexAgrees(index[word := GetBucket(index, word)], h + [LookupWord(word)])
  {
    QuietCall(h, LookupWord(word));
    if word !in index {
      forall d ensures Count(h, word, d) == 0 {
        CountedIsRecorded(h, word, d);
      }
    }
  }

  lemma QueryAgrees(index: map<string, Bucket>, h: History, query: seq<string>)
    requires IndexAgrees(index, h)
    ensures IndexAgrees(index, h + [LookupQuery(query)])
  {
    QuietCall(h, LookupQuery(query));
  }

  lemma {:induction false} FirstRecordsAreNew(h: History)
    ensures FirstRecords(h) == |Words(h) - Planted(h)|
  {
    if h != [] {
      var g := Before(h);
      FirstRecordsAreNew(g);
      if IsFirst(g, Last(h)) {
        assert Words(h) - Planted(h) == Words(g) - Planted(g) + {Last(h).word};
      } else {
        assert Words(h) - Planted(h) == Words(g) - Planted(g);
      }
    }
  }

  class WordIndex {
    var index: map<string, Bucket>
    var numWords: nat
    var docToWords: map<string, set<string>>
    ghost var history: History

    ghost predicate Valid()
      reads this
    {
      IndexAgrees(index, history) && WordsAgree(docToWords, history) && numWords == FirstRecords(history)
    }

    constructor ()
      ensures Valid() && history == []
    {
      index, numWords, docToWords, history := map[], 0, map[], [];
    }

    /** operator[] on the outer table: it inserts an empty bucket for a new word. */
    method Bucketed(word: string) returns (bucket: Bucket)
      modifies `index
      ensures bucket == GetBucket(old(index), word) && index == old(index)[word := bucket]
    {
      if word !in index {
        index := index[word := map[]];
      }
      bucket := index[word];
    }

    /** The statements of record */
    method Update(word: string, docName: string)
      modifies `index, `numWords, `docToWords
      ensures index == Recorded(old(index), word, docName)
      ensures docToWords == Noted(old(docToWords), word, docName)
      ensures numWords == if word in old(index) then old(numWords) else old(numWords) + 1
    {
      if word !in index {
        numWords := numWords + 1;
      }
      var bucket := Bucketed(word);
      var entry := if docName in bucket then bucket[docName] else Result("", 0);
      entry := entry.(rank := entry.rank + 1);
      entry := entry.(docName := docName);
      index := index[word := bucket[docName := entry]];
      var words := if docName in docToWords then docToWords[docName] else {};
      docToWords := docToWords[docName := words + {word}];
    }

    method Record(word: string, docName: string)
      requires Valid()
      modifies this
      ensures Valid() && history == old(history) + [Call.Record(word, docName)]
    {
      RecordedAgrees(index, history, word, docName);
      NotedAgrees(docToWords, history, word, docName);
      CountedAgrees(index, history, word, docName);
      Update(word, docName);
      history := history + [Call.Record(word, docName)];
    }

    /** Iterates over a bucket, in any order */
    method Collect(bucket: Bucket, ghost score: string -> int) returns (results: seq<Result>)
      requires forall d :: d in bucket ==> bucket[d] == Result(d, score(d))
      ensures multiset(results) == multiset(Results(bucket.Keys, score))
    {
      results := [];
      var left := bucket.Keys;
      ghost var done: set<string> := {};
      while left != {}
        invariant left !! done && left + done == bucket.Keys
        invariant multiset(results) == multiset(Results(done, score))
        decreases |left|
      {
        var d :| d in left;
        OneMoreResult(done, score, d);
        results := results + [bucket[d]];
        done := done + {d};
        left := left - {d};
      }
      assert done == bucket.Keys;
    }

    /** lookup_word: exact, but it leaves an empty bucket for a word that is not there. */
    method LookupWord(word: string) returns (results: seq<Result>)
      requires Valid()
      modifies this
      ensures Valid() && history == old(history) + [Call.LookupWord(word)]
      ensures multiset(results) == multiset(WordAnswers(old(history), word)) && Ranked(results)
    {
      PlantAgrees(index, history, word);
      QuietTables(docToWords, history, Call.LookupWord(word));
      BucketIsAnswer(index, history, word);
      ghost var h := history;
      var bucket := Bucketed(word);
      history := history + [Call.LookupWord(word)];
      results := Collect(bucket, WordScore(h, word));
      results := Sort(results);
    }

    /** The inner loop of lookup_query: whether a document's words include the query's, and the
        sum of the ranks.  Its operator[] never meets a word that is not in the index. */
    method Score(words: set<string>, docName: string, query: seq<string>, ghost h: History)
      returns (contains: bool, count: int)
      requires IndexAgrees(index, h) && DocAgrees(words, h, docName)
      modifies `index
      ensures index == old(index) && contains == HasAll(h, query, docName)
      ensures contains ==> count == QueryRank(h, query, docName)
    {
      count := 0;
      contains := true;
      var i := 0;
      while i < |query|
        invariant 0 <= i <= |query| && index == old(index)
        invariant forall k :: 0 <= k < i ==> Count(h, query[k], docName) > 0
        invariant count + QueryRank(h, query[i..], docName) == QueryRank(h, query, docName)
      {
        var word := query[i];
        if word !in words {
          return false, count;
        }
        CountedIsRecorded(h, word, docName);
        var bucket := Bucketed(word);
        count := count + bucket[docName].rank;
        assert query[i..][1..] == query[i + 1..];
        i := i + 1;
      }
    }

    /** lookup_query: iterates over the documents, in any order, and changes no table. */
    method LookupQuery(query: seq<string>) returns (results: seq<Result>)
      requires Valid()
      modifies this
      ensures Valid() && history == old(history) + [Call.LookupQuery(query)]
      ensures index == old(index) && docToWords == old(docToWords) && numWords == old(numWords)
      ensures multiset(results) == multiset(Answers(old(history), query)) && Ranked(results)
    {
      ghost var h, g := history, history + [Call.LookupQuery(query)];
      assert IndexAgrees(index, g) by { QueryAgrees(index, h, query); }
      assert WordsAgree(docToWords, g) && FirstRecords(g) == FirstRecords(h) by {
        QuietTables(docToWords, h, Call.LookupQuery(query));
      }
      results := Gather(query, h);
      results := Sort(results);
      history := g;
    }

    /** One document of lookup_query's loop */
    method Visit(d: string, query: seq<string>, ghost h: History, ghost left: set<string>, results: seq<Result>)
      returns (more: seq<Result>)
      requires IndexAgrees(index, h) && WordsAgree(docToWords, h)
      requires d in left && left <= docToWords.Keys && multiset(results) == Found(h, query, docToWords.Keys - left)
      modifies `index
      ensures index == old(index) && multiset(more) == Found(h, query, docToWords.Keys - (left - {d}))
    {
      var contains, count := Score(docToWords[d], d, query, h);
      ghost var done := docToWords.Keys - left;
      OneMoreFound(h, query, done, d);
      assert docToWords.Keys - (left - {d}) == done + {d};
      more := if contains then results + [Result(d, count)] else results;
    }

    /** The loop of lookup_query */
    method Gather(query: seq<string>, ghost h: History) returns (results: seq<Result>)
      requires IndexAgrees(index, h) && WordsAgree(docToWords, h)
      modifies `index
      ensures index == old(index) && multiset(results) == Found(h, query, docToWords.Keys)
    {
      results := [];
      var left := docToWords.Keys;
      while left != {}
        invariant left <= docToWords.Keys && index == old(index)
        invariant multiset(results) == Found(h, query, docToWords.Keys - left)
        decreases left
      {
        var d :| d in left;
        results := Visit(d, query, h, left, results);
        left := left - {d};
      }
      assert docToWords.Keys - left == docToWords.Keys;
    }

    /** num_words: the words that were recorded, less those that lookup_word met first. */
    method NumWords() returns (n: nat)
      requires Valid()
      ensures n == |Words(history) - Planted(history)|
    {
      FirstRecordsAreNew(history);
      n := numWords;
    }
  }

  lemma BucketIsAnswer(index: map<string, Bucket>, h: History, word: string)
    requires IndexAgrees(index, h)
    ensures GetBucket(index, word).Keys == Holders(h, word)
    ensures forall d :: d in GetBucket(index, word) ==> GetBucket(index, word)[d] == Result(d, WordScore(h, word)(d))
  {
    forall d ensures Count(h, word, d) > 0 ==> word in index && d in Docs(h) {
      CountedIsRecorded(h, word, d);
    }
  }
}
