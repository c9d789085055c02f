/** Crawl and search end to end: paths name files, ranks count words in them, and the order of the
    listings is no matter. */
module CrawlSearch {
  import opened Text
  import opened WordIndexes
  import opened WordIndexTheorems
  import opened CrawlFileTree
  import opened CrawlTheorems

  // ---------- Trees and routes ----------

  predicate GoodName(name: string) {
    name != "" && '/' !in name
  }

  predicate SelfOrParent(name: string) {
    name == "." || name == ".."
  }

  predicate Lists(listing: seq<Entry>, name: string) {
    exists k :: 0 <= k < |listing| && listing[k].name == name
  }

  /** What a file system guarantees: in a directory, names are distinct, not empty, and without a slash. */
  predicate GoodTree(tree: Tree)
    decreases tree
  {
    tree.Dir? ==> GoodListing(tree.listing)
  }

  predicate GoodListing(listing: seq<Entry>)
    decreases listing
  {
    listing != [] ==>
      && GoodName(listing[0].name) && !Lists(listing[1..], listing[0].name)
      && (SelfOrParent(listing[0].name) || GoodTree(listing[0].tree))
      && GoodListing(listing[1..])
  }

  datatype Lookup = NoFile | FileIs(text: string)

  /** The file that a route of names leads to, if there is one that can be read and every directory
      on the way can be opened */
  function FileAt(tree: Tree, route: seq<string>): Lookup
    decreases tree
  {
    match tree
    case File(text) => if route == [] then FileIs(text) else NoFile
    case Dir(listing) => if route == [] then NoFile else FileIn(listing, route[0], route[1..])
    case _ => NoFile
  }

  function FileIn(listing: seq<Entry>, name: string, route: seq<string>): Lookup
    decreases listing
  {
    if listing == [] || SelfOrParent(name) then NoFile
    else if listing[0].name == name then FileAt(listing[0].tree, route)
    else FileIn(listing[1..], name, route)
  }

  /** The path that the crawler builds along a route */
  function PathOf(root: string, route: seq<string>): (path: string)
    requires root != ""
    ensures path != ""
    decreases |route|
  {
    if route == [] then root else PathOf(Join(root, route[0]), route[1..])
  }

  predicate GoodRoute(route: seq<string>) {
    forall k :: 0 <= k < |route| ==> GoodName(route[k])
  }

  // ---------- What a path looks like ----------

  /** The names of a route with slashes between them */
  function Slashed(route: seq<string>): string
    requires route != []
  {
    if |route| == 1 then route[0] else route[0] + "/" + Slashed(route[1..])
  }

  lemma JoinIs(dir: string, name: string)
    requires dir != ""
    ensures Join(dir, name) == if dir[|dir| - 1] == '/' then dir + name else dir + "/" + name
  {
  }

  /** A path is the root, one slash, and the names with a slash between each two; the root's own
      slash, if it ends in one, is that slash. */
  lemma {:induction false} PathIs(root: string, route: seq<string>)
    requires root != "" && route != [] && GoodRoute(route)
    ensures PathOf(root, route) ==
            (if root[|root| - 1] == '/' then root else root + "/") + Slashed(route)
    decreases |route|
  {
    var p := Join(root, route[0]);
    JoinIs(root, route[0]);
    if |route| > 1 {
      PathIs(p, route[1..]);
      assert GoodName(route[0]) && p[|p| - 1] == route[0][|route[0]| - 1] != '/';
      Slashes(if root[|root| - 1] == '/' then root else root + "/", route[0], Slashed(route[1..]));
    } else {
      assert PathOf(p, route[1..]) == p;
    }
  }

  lemma Slashes(a: string, b: string, c: string)
    ensures a + b + "/" + c == a + (b + "/" + c)
  {
  }

  /** A slash at the end of the root makes no difference to what is found below it. */
  lemma SlashIsOptional(root: string, route: seq<string>)
    requires root != "" && root[|root| - 1] != '/' && route != [] && GoodRoute(route)
    ensures PathOf(root + "/", route) == PathOf(root, route)
  {
    PathIs(root, route);
    PathIs(root + "/", route);
  }

  // ---------- Paths name files ----------

  /** path is base + name, or goes on with a slash after it. */
  predicate Under(path: string, base: string, name: string) {
    && |base| + |name| <= |path| && path[..|base|] == base && path[|base|..|base| + |name|] == name
    && (|base| + |name| < |path| ==> path[|base| + |name|] == '/')
  }

  lemma UnderShorter(path: string, base: string, a: string, b: string)
    requires Under(path, base, a) && Under(path, base, b) && |a| < |b|
    ensures '/' in b
  {
    var n := |base|;
    assert b[|a|] == path[n..n + |b|][|a|] == path[n + |a|];
  }

  lemma UnderOne(path: string, base: string, a: string, b: string)
    requires GoodName(a) && GoodName(b) && Under(path, base, a) && Under(path, base, b)
    ensures a == b
  {
    if |a| < |b| {
      UnderShorter(path, base, a, b);
    } else if |b| < |a| {
      UnderShorter(path, base, b, a);
    }
  }

  /** What is under a joined path's entry is under the entry. */
  lemma UnderDeeper(path: string, dir: string, a: string, b: string)
    requires dir != "" && GoodName(a) && Under(path, Base(Join(dir, a)), b)
    ensures Under(path, Base(dir), a)
  {
    BaseOfJoin(dir, a);
    StartsUnder(path, Base(dir), a);
  }

  lemma BaseOfJoin(dir: string, a: string)
    requires dir != "" && GoodName(a)
    ensures Base(Join(dir, a)) == Base(dir) + a + "/"
  {
    var p := Join(dir, a);
    assert p[|p| - 1] == a[|a| - 1];
  }

  lemma StartsUnder(path: string, base: string, a: string)
    requires |base| + |a| + 1 <= |path| && path[..|base| + |a| + 1] == base + a + "/"
    ensures Under(path, base, a)
  {
    var n, start := |base|, path[..|base| + |a| + 1];
    assert path[..n] == start[..n] == base;
    assert path[n..n + |a|] == start[n..n + |a|] == a;
    assert path[n + |a|] == start[n + |a|] == '/';
  }

  lemma {:induction false} PathIsUnder(dir: string, route: seq<string>)
    requires dir != "" && route != [] && GoodRoute(route)
    ensures Under(PathOf(dir, route), Base(dir), route[0])
    decreases |route|
  {
    var p := Join(dir, route[0]);
    if |route| == 1 {
      assert PathOf(p, route[1..]) == p;
    } else {
      PathIsUnder(p, route[1..]);
      UnderDeeper(PathOf(dir, route), dir, route[0], route[1]);
    }
  }

  lemma LongerPath(dir: string, route: seq<string>)
    requires dir != "" && route != [] && GoodRoute(route)
    ensures |PathOf(dir, route)| > |dir|
  {
    PathIsUnder(dir, route);
  }

  lemma SameFirstName(dir: string, a: seq<string>, b: seq<string>)
    requires dir != "" && a != [] && b != [] && GoodRoute(a) && GoodRoute(b) && PathOf(dir, a) == PathOf(dir, b)
    ensures a[0] == b[0]
  {
    PathIsUnder(dir, a);
    PathIsUnder(dir, b);
    UnderOne(PathOf(dir, a), Base(dir), a[0], b[0]);
  }

  lemma SameRoute(a: seq<string>, b: seq<string>)
    requires a != [] && b != [] && a[0] == b[0] && a[1..] == b[1..]
    ensures a == b
  {
    assert a == [a[0]] + a[1..] && b == [b[0]] + b[1..];
  }

  /** Different routes have different paths. */
  lemma {:induction false} PathsAreDistinct(dir: string, a: seq<string>, b: seq<string>)
    requires dir != "" && GoodRoute(a) && GoodRoute(b) && PathOf(dir, a) == PathOf(dir, b)
    ensures a == b
    decreases |a|
  {
    if a == [] && b != [] {
      LongerPath(dir, b);
    } else if b == [] && a != [] {
      LongerPath(dir, a);
    } else if a != [] {
      SameFirstName(dir, a, b);
      PathsAreDistinct(Join(dir, a[0]), a[1..], b[1..]);
      SameRoute(a, b);
    }
  }

  // ---------- What a crawl counts ----------

  lemma Listed(listing: seq<Entry>, k: nat)
    requires k < |listing|
    ensures Lists(listing, listing[k].name)
  {
  }

  lemma ListsRest(listing: seq<Entry>, name: string)
    requires listing != []
    ensures Lists(listing, name) <==> listing[0].name == name || Lists(listing[1..], name)
  {
    if Lists(listing, name) && listing[0].name != name {
      var k :| 0 <= k < |listing| && listing[k].name == name;
      Listed(listing[1..], k - 1);
    }
    if Lists(listing[1..], name) {
      var k :| 0 <= k < |listing[1..]| && listing[1..][k].name == name;
      Listed(listing, k + 1);
    }
  }

  lemma {:induction false} ListedIsGood(listing: seq<Entry>, name: string)
    requires GoodListing(listing) && Lists(listing, name)
    ensures GoodName(name)
  {
    ListsRest(listing, name);
    if listing[0].name != name {
      ListedIsGood(listing[1..], name);
    }
  }

  /** Every counted document is a file's path. */
  lemma {:induction false} CountedIsFile(path: string, tree: Tree, w: string, d: string) returns (route: seq<string>)
    requires path != "" && GoodTree(tree) && Count(TreeLog(path, tree), w, d) > 0
    ensures FileAt(tree, route).FileIs? && d == PathOf(path, route)
    decreases tree
  {
    if tree.File? {
      CountOfFile(path, tree.text, w, d);
      route := [];
    } else {
      var name, rest := CountedIsIn(path, tree.listing, w, d);
      route := [name] + rest;
      assert route[1..] == rest;
    }
  }

  lemma {:induction false} CountedIsIn(path: string, listing: seq<Entry>, w: string, d: string)
    returns (name: string, route: seq<string>)
    requires path != "" && GoodListing(listing) && Count(ListingLog(path, listing), w, d) > 0
    ensures Lists(listing, name) && FileIn(listing, name, route).FileIs?
    ensures d == PathOf(Join(path, name), route)
    decreases listing
  {
    var first, rest := listing[0], listing[1..];
    CountOfJoin(EntryLog(path, first), ListingLog(path, rest), w, d);
    if Count(EntryLog(path, first), w, d) > 0 {
      name := first.name;
      route := CountedIsFile(Join(path, name), first.tree, w, d);
      Listed(listing, 0);
    } else {
      name, route := CountedIsIn(path, rest, w, d);
      ListsRest(listing, name);
    }
  }

  /** A route to a file is made of the names in the listings. */
  lemma {:induction false} RouteIsGood(tree: Tree, route: seq<string>)
    requires GoodTree(tree) && FileAt(tree, route).FileIs?
    ensures GoodRoute(route)
    decreases tree
  {
    if tree.Dir? {
      RouteInIsGood(tree.listing, route[0], route[1..]);
    }
  }

  lemma {:induction false} RouteInIsGood(listing: seq<Entry>, name: string, route: seq<string>)
    requires GoodListing(listing) && FileIn(listing, name, route).FileIs?
    ensures GoodName(name) && GoodRoute(route) && Lists(listing, name)
    decreases listing
  {
    if listing[0].name == name {
      RouteIsGood(listing[0].tree, route);
      Listed(listing, 0);
    } else {
      RouteInIsGood(listing[1..], name, route);
      ListsRest(listing, name);
    }
  }

  /** Two entries' files never share a path. */
  lemma EntriesApart(path: string, a: string, x: seq<string>, b: string, y: seq<string>)
    requires path != "" && GoodName(a) && GoodRoute(x) && GoodName(b) && GoodRoute(y)
    requires PathOf(Join(path, a), x) == PathOf(Join(path, b), y)
    ensures a == b
  {
    assert ([a] + x)[1..] == x && ([b] + y)[1..] == y;
    PathsAreDistinct(path, [a] + x, [b] + y);
    assert ([a] + x)[0] == ([b] + y)[0];
  }

  /** The counts under a file's path are those of that file alone. */
  lemma {:induction false} CountAtFile(path: string, tree: Tree, route: seq<string>, w: string)
    requires path != "" && GoodTree(tree) && FileAt(tree, route).FileIs?
    ensures Count(TreeLog(path, tree), w, PathOf(path, route)) == |Runs(FileAt(tree, route).text, w)|
    decreases tree
  {
    if tree.File? {
      CountOfFile(path, tree.text, w, path);
    } else {
      CountInListing(path, tree.listing, route[0], route[1..], w);
    }
  }

  lemma {:induction false} CountInListing(path: string, listing: seq<Entry>, name: string, route: seq<string>, w: string)
    requires path != "" && GoodListing(listing) && FileIn(listing, name, route).FileIs?
    ensures Count(ListingLog(path, listing), w, PathOf(Join(path, name), route))
            == |Runs(FileIn(listing, name, route).text, w)|
    decreases listing
  {
    var d := PathOf(Join(path, name), route);
    var first, rest := listing[0], listing[1..];
    RouteInIsGood(listing, name, route);
    CountOfJoin(EntryLog(path, first), ListingLog(path, rest), w, d);
    if first.name == name {
      CountAtFile(Join(path, name), first.tree, route, w);
      if Count(ListingLog(path, rest), w, d) > 0 {
        NotInRest(path, listing, route, w);
      }
    } else {
      CountInListing(path, rest, name, route, w);
      if Count(EntryLog(path, first), w, d) > 0 {
        NotInFirst(path, first, name, route, w);
      }
    }
  }

  lemma NotInRest(path: string, listing: seq<Entry>, route: seq<string>, w: string)
    requires path != "" && listing != [] && GoodListing(listing) && GoodRoute(route)
    ensures Count(ListingLog(path, listing[1..]), w, PathOf(Join(path, listing[0].name), route)) == 0
  {
    var d := PathOf(Join(path, listing[0].name), route);
    if Count(ListingLog(path, listing[1..]), w, d) > 0 {
      var other, y := CountedIsIn(path, listing[1..], w, d);
      RouteInIsGood(listing[1..], other, y);
      EntriesApart(path, listing[0].name, route, other, y);
    }
  }

  lemma NotInFirst(path: string, first: Entry, name: string, route: seq<string>, w: string)
    requires path != "" && GoodName(first.name) && (SelfOrParent(first.name) || GoodTree(first.tree))
    requires GoodName(name) && GoodRoute(route) && name != first.name
    ensures Count(EntryLog(path, first), w, PathOf(Join(path, name), route)) == 0
  {
    var d := PathOf(Join(path, name), route);
    if Count(EntryLog(path, first), w, d) > 0 {
      var y := CountedIsFile(Join(path, first.name), first.tree, w, d);
      RouteIsGood(first.tree, y);
      EntriesApart(path, name, route, first.name, y);
    }
  }

  // ---------- Search after a crawl ----------

  /** The documents that a search should find, and their ranks, told from the files alone */
  predicate HoldsAll(text: string, query: seq<string>) {
    forall k :: 0 <= k < |query| ==> Runs(text, query[k]) != {}
  }

  function TextRank(text: string, query: seq<string>): nat {
    if query == [] then 0 else |Runs(text, query[0])| + TextRank(text, query[1..])
  }

  ghost predicate HasWord(text: string) {
    exists w :: Runs(text, w) != {}
  }

  /** A text has a word if and only if it has a letter. */
  lemma HasWordIfLetter(text: string)
    ensures HasWord(text) <==> exists k :: 0 <= k < |text| && Letter(text[k])
  {
    if HasWord(text) {
      var w :| Runs(text, w) != {};
      var i :| i in Runs(text, w);
      assert SpelledAt(text, i, w, 0);
    } else if exists k :: 0 <= k < |text| && Letter(text[k]) {
      var k :| 0 <= k < |text| && Letter(text[k]);
      var i := RunStart(text, k);
      var w := Lower(text[i..i + Letters(text[i..])]);
      RunAt(text, i);
      assert i in Runs(text, w);
    }
  }

  lemma {:induction false} RunStart(text: string, k: nat) returns (i: nat)
    requires k < |text| && IsAlpha(text[k])
    ensures i <= k && IsAlpha(text[i]) && (i > 0 ==> !IsAlpha(text[i - 1]))
  {
    i := k;
    if k > 0 && IsAlpha(text[k - 1]) {
      i := RunStart(text, k - 1);
    }
  }

  lemma RunAt(text: string, i: nat)
    requires i < |text| && IsAlpha(text[i]) && (i > 0 ==> !IsAlpha(text[i - 1]))
    ensures IsRun(text, i, Lower(text[i..i + Letters(text[i..])]))
  {
    var w := Lower(text[i..][..Letters(text[i..])]);
    FirstPiece(text[i..], w);
    assert text[i..i + Letters(text[i..])] == text[i..][..Letters(text[i..])];
    RunAfter(text, w, i, 0);
    RunIsLowerRun(text, i, w);
  }

  ghost predicate FileAnswers(root: string, tree: Tree, query: seq<string>, d: string, rank: int, route: seq<string>)
    requires root != ""
  {
    && FileAt(tree, route).FileIs? && d == PathOf(root, route) && HasWord(FileAt(tree, route).text)
    && HoldsAll(FileAt(tree, route).text, query) && rank == TextRank(FileAt(tree, route).text, query)
  }

  lemma {:induction false} RankIsTextRank(root: string, tree: Tree, route: seq<string>, query: seq<string>)
    requires root != "" && GoodTree(tree) && FileAt(tree, route).FileIs?
    ensures QueryRank(TreeLog(root, tree), query, PathOf(root, route)) == TextRank(FileAt(tree, route).text, query)
    ensures HasAll(TreeLog(root, tree), query, PathOf(root, route)) <==> HoldsAll(FileAt(tree, route).text, query)
  {
    forall w ensures Count(TreeLog(root, tree), w, PathOf(root, route)) == |Runs(FileAt(tree, route).text, w)| {
      CountAtFile(root, tree, route, w);
    }
    if query != [] {
      RankIsTextRank(root, tree, route, query[1..]);
    }
  }

  /** A file has a word if and only if its path is among the documents of the index. */
  lemma FileIsDocument(root: string, tree: Tree, route: seq<string>)
    requires root != "" && GoodTree(tree) && FileAt(tree, route).FileIs?
    ensures PathOf(root, route) in Docs(TreeLog(root, tree)) <==> HasWord(FileAt(tree, route).text)
  {
    var h, d, text := TreeLog(root, tree), PathOf(root, route), FileAt(tree, route).text;
    forall w ensures Count(h, w, d) > 0 <==> Runs(text, w) != {} {
      CountAtFile(root, tree, route, w);
    }
    if d in Docs(h) {
      RecordedIsCounted(h, d);
    }
    if HasWord(text) {
      var w :| Runs(text, w) != {};
      CountedIsRecorded(h, w, d);
    }
  }

  /** After a crawl, a query finds exactly the readable files that have a word at all and every word
      of the query as a maximal run of letters, in any case, ranked by how many such runs there are. */
  lemma SearchFindsFiles(root: string, tree: Tree, query: seq<string>, d: string, rank: int)
    requires root != "" && GoodTree(tree)
    ensures Result(d, rank) in Answers(TreeLog(root, tree), query) <==>
            exists route :: FileAnswers(root, tree, query, d, rank, route)
  {
    var h := TreeLog(root, tree);
    InAnswers(h, query, d, rank);
    if Result(d, rank) in Answers(h, query) {
      RecordedIsCounted(h, d);
      var w :| Count(h, w, d) > 0;
      var route := CountedIsFile(root, tree, w, d);
      FileIsDocument(root, tree, route);
      RankIsTextRank(root, tree, route, query);
      assert FileAnswers(root, tree, query, d, rank, route);
    }
    if exists route :: FileAnswers(root, tree, query, d, rank, route) {
      var route :| FileAnswers(root, tree, query, d, rank, route);
      FileIsDocument(root, tree, route);
      RankIsTextRank(root, tree, route, query);
    }
  }

  // ---------- The order of the listings ----------

  /** The same directories with their entries in another order, at any depth */
  ghost predicate Reordered(t: Tree, u: Tree)
    decreases t
  {
    if t.Dir? && u.Dir? then
      && (forall j :: 0 <= j < |t.listing| ==>
            exists k :: 0 <= k < |u.listing| && t.listing[j].name == u.listing[k].name &&
                        (SelfOrParent(t.listing[j].name) || Reordered(t.listing[j].tree, u.listing[k].tree)))
      && (forall k :: 0 <= k < |u.listing| ==> Lists(t.listing, u.listing[k].name))
    else t == u
  }

  lemma {:induction false} FileInListing(listing: seq<Entry>, k: nat, route: seq<string>)
    requires GoodListing(listing) && k < |listing| && !SelfOrParent(listing[k].name)
    ensures FileIn(listing, listing[k].name, route) == FileAt(listing[k].tree, route)
    decreases listing
  {
    if k > 0 {
      Listed(listing[1..], k - 1);
      FileInListing(listing[1..], k - 1, route);
    }
  }

  lemma {:induction false} NoFileIn(listing: seq<Entry>, name: string, route: seq<string>)
    requires !Lists(listing, name)
    ensures FileIn(listing, name, route) == NoFile
    decreases listing
  {
    if listing != [] {
      ListsRest(listing, name);
      NoFileIn(listing[1..], name, route);
    }
  }

  lemma {:induction false} ReorderedHasSameFiles(t: Tree, u: Tree, route: seq<string>)
    requires GoodTree(t) && GoodTree(u) && Reordered(t, u)
    ensures FileAt(t, route) == FileAt(u, route)
    decreases t
  {
    if t.Dir? && route != [] && !SelfOrParent(route[0]) {
      var name, rest := route[0], route[1..];
      if Lists(t.listing, name) {
        var j :| 0 <= j < |t.listing| && t.listing[j].name == name;
        var k :| 0 <= k < |u.listing| && u.listing[k].name == name && Reordered(t.listing[j].tree, u.listing[k].tree);
        FileInListing(t.listing, j, rest);
        FileInListing(u.listing, k, rest);
        GoodChild(t.listing, j);
        GoodChild(u.listing, k);
        ReorderedHasSameFiles(t.listing[j].tree, u.listing[k].tree, rest);
      } else {
        NoFileIn(t.listing, name, rest);
        NoFileIn(u.listing, name, rest);
      }
    }
  }

  lemma {:induction false} GoodChild(listing: seq<Entry>, k: nat)
    requires GoodListing(listing) && k < |listing| && !SelfOrParent(listing[k].name)
    ensures GoodTree(listing[k].tree)
  {
    if k > 0 {
      GoodChild(listing[1..], k - 1);
    }
  }

  lemma SameFilesCountAlike(root: string, t: Tree, u: Tree, w: string, d: string)
    requires root != "" && GoodTree(t) && GoodTree(u)
    requires forall route :: FileAt(t, route) == FileAt(u, route)
    ensures Count(TreeLog(root, t), w, d) <= Count(TreeLog(root, u), w, d)
  {
    if Count(TreeLog(root, t), w, d) > 0 {
      var route := CountedIsFile(root, t, w, d);
      CountAtFile(root, t, route, w);
      CountAtFile(root, u, route, w);
    }
  }

  /** The order in which directories list their entries changes no count and no answer. */
  lemma OrderIsNoMatter(root: string, t: Tree, u: Tree, query: seq<string>)
    requires root != "" && GoodTree(t) && GoodTree(u) && Reordered(t, u)
    ensures SameCounts(TreeLog(root, t), TreeLog(root, u))
    ensures Answers(TreeLog(root, t), query) == Answers(TreeLog(root, u), query)
  {
    forall route ensures FileAt(t, route) == FileAt(u, route) {
      ReorderedHasSameFiles(t, u, route);
    }
    forall w, d ensures Count(TreeLog(root, t), w, d) == Count(TreeLog(root, u), w, d) {
      SameFilesCountAlike(root, t, u, w, d);
      SameFilesCountAlike(root, u, t, w, d);
    }
    CountsDecideAnswers(TreeLog(root, t), TreeLog(root, u), query);
  }

  // ---------- The server's use of the index ----------

  /** No document comes twice. */
  lemma ResultsOnce(results: seq<Result>, docs: set<string>, score: string -> int)
    requires multiset(results) == multiset(Results(docs, score))
    ensures forall j, k :: 0 <= j < k < |results| ==> results[j].docName != results[k].docName
    ensures forall r :: r in results <==> r in Results(docs, score)
  {
    forall r ensures r in results <==> r in Results(docs, score) {
      assert r in results <==> r in multiset(results);
    }
    forall j, k | 0 <= j < k < |results| ensures results[j].docName != results[k].docName {
      assert results[j] in results && results[k] in results;
      if results[j] == results[k] {
        TwiceInSeq(results, j, k);
      }
    }
  }

  lemma TwiceInSeq(results: seq<Result>, j: nat, k: nat)
    requires j < k < |results| && results[j] == results[k]
    ensures multiset(results)[results[j]] >= 2
  {
    assert results == results[..j] + [results[j]] + results[j + 1..k] + [results[k]] + results[k + 1..];
  }

  /** A server that crawls a directory when it starts and then answers a query: it lists exactly
      the readable files that have every word of the query, each once, the highest rank first; for an
      empty query, those that have a word at all. */
  method CrawlAndSearch(root: string, tree: Tree, query: seq<string>) returns (ok: bool, results: seq<Result>)
    requires GoodTree(tree) && (root == "" ==> tree.Missing?)
    ensures ok == tree.Dir? && Ranked(results) && (ok ==> root != "")
    ensures ok ==> forall d, rank ::
      Result(d, rank) in results <==> exists route :: FileAnswers(root, tree, query, d, rank, route)
    ensures forall j, k :: 0 <= j < k < |results| ==> results[j].docName != results[k].docName
  {
    var index := new WordIndex();
    ok := Crawl(root, tree, index);
    if !ok {
      return false, [];
    }
    results := index.LookupQuery(query);
    assert [] + TreeLog(root, tree) == TreeLog(root, tree);
    FoundAreFiles(root, tree, query, results);
  }

  lemma FoundAreFiles(root: string, tree: Tree, query: seq<string>, results: seq<Result>)
    requires root != "" && GoodTree(tree)
    requires multiset(results) == multiset(Answers(TreeLog(root, tree), query))
    ensures forall d, rank ::
      Result(d, rank) in results <==> exists route :: FileAnswers(root, tree, query, d, rank, route)
    ensures forall j, k :: 0 <= j < k < |results| ==> results[j].docName != results[k].docName
  {
    var h := TreeLog(root, tree);
    ResultsOnce(results, Matches(h, query, Docs(h)), QueryScore(h, query));
    forall d, rank
      ensures Result(d, rank) in results <==> exists route :: FileAnswers(root, tree, query, d, rank, route)
    {
      SearchFindsFiles(root, tree, query, d, rank);
    }
  }
}
