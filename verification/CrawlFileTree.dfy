/** The crawler: from a tree of files to records in the index. */
module CrawlFileTree {
  import opened Text
  import opened WordIndexes

  // ---------- Splitting a text into words ----------

  function Letters(s: string): (n: nat)
    ensures n <= |s| && forall k :: 0 <= k < n ==> IsAlpha(s[k])
    ensures n < |s| ==> !IsAlpha(s[n])
  {
    if s == "" || !IsAlpha(s[0]) then 0 else 1 + Letters(s[1..])
  }

  function Others(s: string): (n: nat)
    ensures n <= |s| && forall k :: 0 <= k < n ==> !IsAlpha(s[k])
    ensures n < |s| ==> IsAlpha(s[n])
  {
    if s == "" || IsAlpha(s[0]) then 0 else 1 + Others(s[1..])
  }

  /** boost::split on everything that is not alphabetic, compressing adjacent delimiters: a text
      that starts or ends with a delimiter has an empty first or last piece. */
  function Pieces(s: string): seq<string>
    decreases |s|
  {
    var k := Letters(s);
    if k == |s| then [s] else [s[..k]] + Pieces(s[k + Others(s[k..])..])
  }

  /** The records of the pieces of one file */
  function PiecesLog(path: string, pieces: seq<string>): History {
    if pieces == [] then []
    else PiecesLog(path, pieces[..|pieces| - 1]) + PieceLog(path, pieces[|pieces| - 1])
  }

  function PieceLog(path: string, piece: string): History {
    if piece == "" then [] else [Record(Lower(piece), path)]
  }

  function FileLog(path: string, text: string): History {
    PiecesLog(path, Pieces(Trim(text)))
  }

  // ---------- The file system ----------

  /** What stat, and then opening or reading, find at a path.  A listing is in any order and may
      hold "." and "..", whose trees are never looked at. */
  datatype Tree =
    | File(text: string)
    | UnreadableFile
    | Dir(listing: seq<Entry>)
    | ClosedDir
    | Other
    | Missing

  datatype Entry = Entry(name: string, tree: Tree)

  predicate IsDot(name: string) {
    name == "." || name == ".."
  }

  /** dir with a slash at its end */
  function Base(dir: string): string
    requires dir != ""
  {
    if dir[|dir| - 1] == '/' then dir else dir + "/"
  }

  function Join(dir: string, name: string): string
    requires dir != ""
  {
    Base(dir) + name
  }

  // ---------- What a crawl records ----------

  function TreeLog(path: string, tree: Tree): History
    requires path != ""
    decreases tree
  {
    match tree
    case File(text) => FileLog(path, text)
    case Dir(listing) => ListingLog(path, listing)
    case _ => []
  }

  function EntryLog(path: string, entry: Entry): History
    requires path != ""
    decreases entry
  {
    if IsDot(entry.name) then [] else TreeLog(Join(path, entry.name), entry.tree)
  }

  function ListingLog(path: string, listing: seq<Entry>): History
    requires path != ""
    decreases listing
  {
    if listing == [] then [] else EntryLog(path, listing[0]) + ListingLog(path, listing[1..])
  }

  // ---------- The crawler ----------

  lemma Regroup(a: History, b: History, c: History)
    ensures a + b + c == a + (b + c)
  {
  }

  /** One turn of handle_file's loop */
  method HandleWord(path: string, word: string, index: WordIndex)
    requires index.Valid()
    modifies index
    ensures index.Valid() && index.history == old(index.history) + PieceLog(path, word)
  {
    var lowerWord := Lower(word);
    if lowerWord == "" {
      return;
    }
    index.Record(lowerWord, path);
  }

  lemma PiecesLogStep(path: string, pieces: seq<string>, i: nat)
    requires i < |pieces|
    ensures PiecesLog(path, pieces[..i + 1]) == PiecesLog(path, pieces[..i]) + PieceLog(path, pieces[i])
  {
    assert pieces[..i + 1][..i] == pieces[..i];
  }

  /** handle_file's loop over the pieces */
  method HandleWords(path: string, words: seq<string>, index: WordIndex)
    requires index.Valid()
    modifies index
    ensures index.Valid() && index.history == old(index.history) + PiecesLog(path, words)
  {
    ghost var h := index.history;
    var i := 0;
    while i < |words|
      invariant 0 <= i <= |words| && index.Valid()
      invariant index.history == h + PiecesLog(path, words[..i])
    {
      PiecesLogStep(path, words, i);
      Regroup(h, PiecesLog(path, words[..i]), PieceLog(path, words[i]));
      HandleWord(path, words[i], index);
      i := i + 1;
    }
    assert words[..i] == words;
  }

  /** handle_file */
  method HandleFile(path: string, tree: Tree, index: WordIndex)
    requires index.Valid() && path != "" && (tree.File? || tree.UnreadableFile?)
    modifies index
    ensures index.Valid() && index.history == old(index.history) + TreeLog(path, tree)
  {
    if tree.File? {
      var words := Pieces(Trim(tree.text));
      HandleWords(path, words, index);
    }
  }

  lemma {:induction false} ListingLogStep(path: string, listing: seq<Entry>, i: nat)
    requires path != "" && i < |listing|
    ensures ListingLog(path, listing[..i + 1]) == ListingLog(path, listing[..i]) + EntryLog(path, listing[i])
  {
    if i == 0 {
      assert listing[..1] == [listing[0]];
    } else {
      ListingLogStep(path, listing[1..], i - 1);
      assert listing[..i + 1][1..] == listing[1..][..i];
      assert listing[..i][1..] == listing[1..][..i - 1];
    }
  }

  /** handle_dir: what is below is handled in the order of the listings. */
  method HandleDir(path: string, listing: seq<Entry>, index: WordIndex)
    requires index.Valid() && path != ""
    modifies index
    ensures index.Valid() && index.history == old(index.history) + ListingLog(path, listing)
    decreases listing
  {
    ghost var h := index.history;
    var i := 0;
    while i < |listing|
      invariant 0 <= i <= |listing| && index.Valid()
      invariant index.history == h + ListingLog(path, listing[..i])
    {
      ListingLogStep(path, listing, i);
      Regroup(h, ListingLog(path, listing[..i]), EntryLog(path, listing[i]));
      HandleEntry(path, listing[i], index);
      i := i + 1;
    }
    assert listing[..i] == listing;
  }

  /** One turn of handle_dir's loop */
  method HandleEntry(path: string, entry: Entry, index: WordIndex)
    requires index.Valid() && path != ""
    modifies index
    ensures index.Valid() && index.history == old(index.history) + EntryLog(path, entry)
    decreases entry
  {
    if IsDot(entry.name) {
      return;
    }
    var entryPath := path;
    if path[|path| - 1] != '/' {
      entryPath := entryPath + "/";
    }
    entryPath := entryPath + entry.name;
    var tree := entry.tree;
    if tree.File? || tree.UnreadableFile? {
      HandleFile(entryPath, tree, index);
    } else if tree.Dir? {
      HandleDir(entryPath, tree.listing, index);
    }
  }

  /** crawl_filetree: no file has an empty path, so stat finds nothing there. */
  method Crawl(root: string, tree: Tree, index: WordIndex?) returns (ok: bool)
    requires (index != null ==> index.Valid()) && (root == "" ==> tree.Missing?)
    modifies index
    ensures ok == (index != null && tree.Dir?)
    ensures index != null ==> index.Valid()
    ensures index != null ==> index.history == old(index.history) + if ok then TreeLog(root, tree) else []
  {
    if index == null {
      return false;
    }
    if !tree.Dir? {
      return false;
    }
    HandleDir(root, tree.listing, index);
    return true;
  }
}
