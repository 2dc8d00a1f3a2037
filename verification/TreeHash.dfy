/** The bytes a repository tree is hashed from (packages/changeset/src/hash.ts). Contents are sequences of
    bytes, written as characters; a path stands for its UTF-8 bytes, of which NUL is one only if the path contains it. */
module TreeHash {
  import opened FileTrees
  import opened Sequences
  import opened Text

  /** Regular files and directories, but nothing named `.git`, and no path that starts with two dots. */
  function HashRule(): Rule {
    (name: string, path: string, node: Node, depth: nat) =>
      name != ".git" && !StartsWith(path, "..") && (node.File? || node.Directory?)
  }

  function ByPath(): (Item, Item) -> bool {
    (a: Item, b: Item) => LexLe(a.path, b.path)
  }

  function ByUtf8Path(): (Item, Item) -> bool {
    (a: Item, b: Item) => PointsLe(a.path, b.path)
  }

  function Files(dir: Node): seq<Item>
    requires dir.Directory?
  {
    Sort(ByPath(), WholeListing(HashRule(), dir))
  }

  function Content(item: Item): string {
    if item.node.File? then item.node.content else ""
  }

  function Record(item: Item): string {
    item.path + "\0" + Content(item) + "\0"
  }

  function Preimage(files: seq<Item>): string {
    if files == [] then "" else Preimage(files[..|files| - 1]) + Record(files[|files| - 1])
  }

  // ----- which files are hashed -----

  /** No name on the way is `.git`, and no path on the way starts with two dots. */
  predicate Clear(prefix: string, names: seq<string>)
    decreases |names|
  {
    names == [] ||
    (names[0] != ".git" && !StartsWith(Relative(prefix, names[0]), "..") && Clear(Relative(prefix, names[0]), names[1..]))
  }

  /** The names lead to a regular file, on a clear way. */
  ghost predicate Found(dir: Node, prefix: string, item: Item, names: seq<string>) {
    Reaches(dir, names, item.node) && item.node.File? && item.path == PathFrom(prefix, names) && Clear(prefix, names)
  }

  lemma FoundInside(dir: Node, prefix: string, item: Item, i: nat, names: seq<string>)
    requires dir.Directory? && i < |dir.entries|
    requires dir.entries[i].name != ".git" && !StartsWith(Relative(prefix, dir.entries[i].name), "..")
    requires Found(dir.entries[i].node, Relative(prefix, dir.entries[i].name), item, names)
    ensures Found(dir, prefix, item, [dir.entries[i].name] + names)
  {
    var all := [dir.entries[i].name] + names;
    assert all[1..] == names && all[0] == dir.entries[i].name && Enters(dir.entries[i], all, item.node);
    hide Relative, StartsWith;
  }

  lemma FoundHere(dir: Node, prefix: string, item: Item, i: nat)
    requires dir.Directory? && i < |dir.entries| && dir.entries[i].node == item.node && item.node.File?
    requires dir.entries[i].name != ".git" && !StartsWith(Relative(prefix, dir.entries[i].name), "..")
    requires item.path == Relative(prefix, dir.entries[i].name)
    ensures Found(dir, prefix, item, [dir.entries[i].name])
  {
    var names := [dir.entries[i].name];
    assert Enters(dir.entries[i], names, item.node) && names[1..] == [];
    assert PathFrom(prefix, names) == PathFrom(Relative(prefix, names[0]), []);
    assert Clear(Relative(prefix, names[0]), []);
    hide Relative, StartsWith;
  }

  lemma {:induction false} ListedIsFound(dir: Node, prefix: string, depth: nat, item: Item) returns (names: seq<string>)
    requires dir.Directory? && item in Listing(HashRule(), dir, |dir.entries|, prefix, depth)
    ensures Found(dir, prefix, item, names)
    decreases dir
  {
    ListedSomewhere(HashRule(), dir, |dir.entries|, prefix, depth, item);
    var i :| 0 <= i < |dir.entries| && item in EntryListing(HashRule(), dir.entries[i], prefix, depth);
    var e := dir.entries[i];
    hide Found, Relative, StartsWith;
    if e.node.Directory? {
      var inner := ListedIsFound(e.node, Relative(prefix, e.name), depth + 1, item);
      FoundInside(dir, prefix, item, i, inner);
      names := [e.name] + inner;
    } else {
      FoundHere(dir, prefix, item, i);
      names := [e.name];
    }
  }

  lemma {:induction false} FoundIsListed(dir: Node, prefix: string, depth: nat, item: Item, names: seq<string>)
    requires dir.Directory? && Found(dir, prefix, item, names)
    ensures item in Listing(HashRule(), dir, |dir.entries|, prefix, depth)
    decreases dir
  {
    var i :| 0 <= i < |dir.entries| && Enters(dir.entries[i], names, item.node);
    var e, rest := dir.entries[i], names[1..];
    ListedSomewhere(HashRule(), dir, |dir.entries|, prefix, depth, item);
    hide Relative, StartsWith;
    if |names| > 1 {
      assert Reaches(e.node, rest, item.node);
      FoundIsListed(e.node, Relative(prefix, e.name), depth + 1, item, rest);
    } else {
      assert PathFrom(prefix, names) == PathFrom(Relative(prefix, names[0]), []);
    }
    assert item in EntryListing(HashRule(), e, prefix, depth);
  }

  /** Exactly these files are hashed. */
  lemma HashedExactly(root: Node, item: Item)
    requires root.Directory?
    ensures item in WholeListing(HashRule(), root) <==> exists names :: Found(root, "", item, names)
  {
    hide Found, Listing;
    if item in WholeListing(HashRule(), root) {
      var names := ListedIsFound(root, "", 0, item);
    }
    if names :| Found(root, "", item, names) {
      FoundIsListed(root, "", 0, item, names);
    }
  }

  // ----- the order of directory listings does not matter -----

  lemma ByPathIsPreorder()
    ensures TotalPreorder(ByPath())
  {
    LexOrder();
    hide LexLe;
  }

  lemma {:induction false} PathsDistinctTies(files: seq<Item>, x: Item, y: Item)
    requires Distinct(Paths(files)) && x in files && y in files && x.path == y.path
    ensures x == y
  {
    var i :| 0 <= i < |files| && files[i] == x;
    var j :| 0 <= j < |files| && files[j] == y;
    assert Paths(files)[i] == Paths(files)[j];
  }

  lemma ItemsDistinct(files: seq<Item>)
    requires Distinct(Paths(files))
    ensures Distinct(files)
  {
    forall i, j | 0 <= i < j < |files|
      ensures files[i] != files[j]
    {
      assert Paths(files)[i] != Paths(files)[j];
    }
  }

  /** Lists of the same items, with distinct paths, are sorted into the same list. */
  lemma SameFiles(a: seq<Item>, b: seq<Item>)
    requires Distinct(Paths(a)) && Distinct(Paths(b)) && forall item :: item in a <==> item in b
    ensures Sort(ByPath(), a) == Sort(ByPath(), b)
  {
    ItemsDistinct(a);
    ItemsDistinct(b);
    DistinctWithin(a, b);
    DistinctWithin(b, a);
    ByPathIsPreorder();
    LexOrder();
    forall x, y | x in a && y in a && ByPath()(x, y) && ByPath()(y, x)
      ensures x == y
    {
      PathsDistinctTies(a, x, y);
    }
    SortPermutation(ByPath(), a, b);
  }

  lemma SameFilesSamePreimage(a: Node, b: Node)
    requires a.Directory? && b.Directory? && WellNamed(a) && WellNamed(b)
    requires forall item :: item in WholeListing(HashRule(), a) <==> item in WholeListing(HashRule(), b)
    ensures Preimage(Files(a)) == Preimage(Files(b))
  {
    ListingDistinct(HashRule(), a, |a.entries|, "", 0);
    ListingDistinct(HashRule(), b, |b.entries|, "", 0);
    SameFiles(WholeListing(HashRule(), a), WholeListing(HashRule(), b));
  }

  /** The bytes do not depend on the order in which the file system lists directories. */
  lemma ListingOrderIrrelevant(a: Node, b: Node)
    requires a.Directory? && b.Directory? && WellNamed(a) && WellNamed(b) && Rearranged(a, b)
    ensures Preimage(Files(a)) == Preimage(Files(b))
  {
    assert Shallow(HashRule());
    SameListing(HashRule(), a, b);
    SameFilesSamePreimage(a, b);
  }

  /** The records come in the order of the UTF-8 paths exactly when no two paths first differ in one character beyond
      U+FFFF and one from U+E000 on. */
  lemma Utf8OrderExactly(dir: Node)
    requires dir.Directory?
    ensures SortedBy(ByUtf8Path(), Files(dir)) <==>
            forall i, j :: 0 <= i < j < |Files(dir)| ==> !Straddling(Files(dir)[i].path, Files(dir)[j].path)
  {
    var files := Files(dir);
    ByPathIsPreorder();
    SortSorted(ByPath(), WholeListing(HashRule(), dir));
    hide LexLe, PointsLe, Straddling, Files, Sort;
    forall i, j | 0 <= i < j < |files|
      ensures PointsLe(files[i].path, files[j].path) <==> !Straddling(files[i].path, files[j].path)
    {
      OrdersAgreeExactly(files[i].path, files[j].path);
    }
  }

  // ----- the bytes determine the files, unless a file contains NUL -----

  predicate NulFree(files: seq<Item>) {
    forall i :: 0 <= i < |files| ==> '\0' !in files[i].path && '\0' !in Content(files[i])
  }

  /** The records from the front. */
  lemma {:induction false} PreimageFront(files: seq<Item>)
    requires files != []
    ensures Preimage(files) == Record(files[0]) + Preimage(files[1..])
  {
    if |files| == 1 {
      assert files[..0] == [] && files[1..] == [];
    } else {
      var front := files[..|files| - 1];
      PreimageFront(front);
      assert front[1..] == files[1..][..|files| - 2] && front[0] == files[0];
      Associative(Record(files[0]), Preimage(front[1..]), Record(files[|files| - 1]));
    }
  }

  lemma RecordCode(a: Item, b: Item, x: string, y: string)
    requires '\0' !in a.path && '\0' !in Content(a) && '\0' !in b.path && '\0' !in Content(b)
    requires Record(a) + x == Record(b) + y
    ensures a.path == b.path && Content(a) == Content(b) && x == y
  {
    var p, q, c, d := a.path, b.path, Content(a), Content(b);
    hide Content;
    assert Record(a) + x == p + "\0" + (c + "\0" + x);
    assert Record(b) + y == q + "\0" + (d + "\0" + y);
    hide Record;
    FirstField(p, c + "\0" + x, q, d + "\0" + y, '\0');
    FirstField(c, x, d, y, '\0');
  }

  lemma PreimageEmpty(files: seq<Item>)
    ensures Preimage(files) == "" <==> files == []
  {
  }

  /** Lists of files without NUL can be read back from their records. */
  lemma {:induction false} Decodable(a: seq<Item>, b: seq<Item>)
    requires NulFree(a) && NulFree(b) && Preimage(a) == Preimage(b)
    ensures |a| == |b| && forall i :: 0 <= i < |a| ==> a[i].path == b[i].path && Content(a[i]) == Content(b[i])
  {
    PreimageEmpty(a);
    PreimageEmpty(b);
    hide Preimage, Record, Content;
    if a != [] {
      PreimageFront(a);
      PreimageFront(b);
      RecordCode(a[0], b[0], Preimage(a[1..]), Preimage(b[1..]));
      Decodable(a[1..], b[1..]);
    }
  }

  lemma {:induction false} ListedFile(dir: Node, n: nat, prefix: string, depth: nat, k: nat)
    requires dir.Directory? && n <= |dir.entries| && WellNamed(dir) && '\0' !in prefix
    requires k < |Listing(HashRule(), dir, n, prefix, depth)|
    ensures var item := Listing(HashRule(), dir, n, prefix, depth)[k]; item.node.File? && '\0' !in item.path
    decreases dir, n
  {
    var e := dir.entries[n - 1];
    var before := Listing(HashRule(), dir, n - 1, prefix, depth);
    if k < |before| {
      ListedFile(dir, n - 1, prefix, depth, k);
    } else if e.node.Directory? {
      ListedFile(e.node, |e.node.entries|, Relative(prefix, e.name), depth + 1, k - |before|);
    }
  }

  ghost predicate ContentsNulFree(dir: Node)
    requires dir.Directory?
  {
    forall item :: item in WholeListing(HashRule(), dir) ==> '\0' !in Content(item)
  }

  lemma FilesOf(dir: Node)
    requires dir.Directory? && WellNamed(dir)
    ensures forall item :: item in Files(dir) <==> item in WholeListing(HashRule(), dir)
    ensures forall item :: item in Files(dir) ==> item.node.File?
    ensures ContentsNulFree(dir) ==> NulFree(Files(dir))
  {
    var listing := WholeListing(HashRule(), dir);
    ByPathIsPreorder();
    SortSorted(ByPath(), listing);
    hide ByPath, Sort;
    forall item
      ensures item in Files(dir) <==> item in listing
      ensures item in listing ==> item.node.File? && '\0' !in item.path
    {
      assert item in multiset(Files(dir)) <==> item in multiset(listing);
      if item in listing {
        var k :| 0 <= k < |listing| && listing[k] == item;
        ListedFile(dir, |dir.entries|, "", 0, k);
      }
    }
    if ContentsNulFree(dir) {
      forall i | 0 <= i < |Files(dir)|
        ensures '\0' !in Files(dir)[i].path && '\0' !in Content(Files(dir)[i])
      {
        assert Files(dir)[i] in Files(dir);
      }
    }
  }

  /** The same files are hashed. */
  ghost predicate SameTree(a: Node, b: Node)
    requires a.Directory? && b.Directory?
  {
    forall item :: item in WholeListing(HashRule(), a) <==> item in WholeListing(HashRule(), b)
  }

  /** Two trees whose files contain no NUL are hashed from the same bytes exactly when they have the same files. */
  lemma PreimageDetermines(a: Node, b: Node)
    requires a.Directory? && b.Directory? && WellNamed(a) && WellNamed(b) && ContentsNulFree(a) && ContentsNulFree(b)
    ensures Preimage(Files(a)) == Preimage(Files(b)) <==> SameTree(a, b)
  {
    FilesOf(a);
    FilesOf(b);
    hide WholeListing, ContentsNulFree, WellNamed;
    if Preimage(Files(a)) == Preimage(Files(b)) {
      Decodable(Files(a), Files(b));
      forall i | 0 <= i < |Files(a)|
        ensures Files(a)[i] == Files(b)[i]
      {
        assert Files(a)[i] in Files(a) && Files(b)[i] in Files(b);
      }
      assert Files(a) == Files(b);
    }
    if SameTree(a, b) {
      SameFilesSamePreimage(a, b);
    }
  }

  // ----- when the bytes determine the files -----

  /** The tree with the content of the file at `p` replaced and the file at `q` turned into a link, which is not hashed. */
  function Merged(node: Node, path: string, p: string, c: string, q: string): Node {
    match node
    case File(_) => if path == p then File(c) else if path == q then Link else node
    case Directory(entries) =>
      Directory(seq(|entries|, i requires 0 <= i < |entries| =>
        Entry(entries[i].name, Merged(entries[i].node, Relative(path, entries[i].name), p, c, q))))
    case _ => node
  }

  function MergedItem(item: Item, p: string, c: string, q: string): seq<Item> {
    if item.path == p then [Item(p, File(c))] else if item.path == q then [] else [item]
  }

  function MergedItems(items: seq<Item>, p: string, c: string, q: string): seq<Item> {
    if items == [] then []
    else MergedItems(items[..|items| - 1], p, c, q) + MergedItem(items[|items| - 1], p, c, q)
  }

  lemma {:induction false} MergedAppend(a: seq<Item>, b: seq<Item>, p: string, c: string, q: string)
    ensures MergedItems(a + b, p, c, q) == MergedItems(a, p, c, q) + MergedItems(b, p, c, q)
  {
    if b == [] {
      assert a + b == a;
    } else {
      var before, last := b[..|b| - 1], b[|b| - 1];
      MergedAppend(a, before, p, c, q);
      assert (a + b)[..|a + b| - 1] == a + before && (a + b)[|a + b| - 1] == last;
      Associative(MergedItems(a, p, c, q), MergedItems(before, p, c, q), MergedItem(last, p, c, q));
    }
  }

  lemma {:induction false} MergedMembers(items: seq<Item>, p: string, c: string, q: string, item: Item)
    ensures item in MergedItems(items, p, c, q) <==> exists k :: 0 <= k < |items| && item in MergedItem(items[k], p, c, q)
  {
    if items != [] {
      var before := items[..|items| - 1];
      MergedMembers(before, p, c, q, item);
      hide MergedItem;
      if k :| 0 <= k < |items| && item in MergedItem(items[k], p, c, q) {
        assert k < |before| ==> before[k] == items[k];
      }
      if k :| 0 <= k < |before| && item in MergedItem(before[k], p, c, q) {
        assert before[k] == items[k];
      }
    }
  }

  lemma OneMerged(item: Item, p: string, c: string, q: string)
    ensures MergedItems([item], p, c, q) == MergedItem(item, p, c, q)
  {
    assert [item][..0] == [];
  }

  lemma ListingEntry(dir: Node, n: nat, prefix: string, depth: nat)
    requires dir.Directory? && 0 < n <= |dir.entries|
    ensures Listing(HashRule(), dir, n, prefix, depth) ==
            Listing(HashRule(), dir, n - 1, prefix, depth) + EntryListing(HashRule(), dir.entries[n - 1], prefix, depth)
  {
  }

  function MergedEntry(e: Entry, path: string, p: string, c: string, q: string): Entry {
    Entry(e.name, Merged(e.node, Relative(path, e.name), p, c, q))
  }

  lemma EntryMerged(e: Entry, prefix: string, depth: nat, p: string, c: string, q: string)
    requires var path := Relative(prefix, e.name);
             e.node.Directory? ==>
               Listing(HashRule(), Merged(e.node, path, p, c, q), |e.node.entries|, path, depth + 1) ==
               MergedItems(Listing(HashRule(), e.node, |e.node.entries|, path, depth + 1), p, c, q)
    ensures EntryListing(HashRule(), MergedEntry(e, prefix, p, c, q), prefix, depth) ==
            MergedItems(EntryListing(HashRule(), e, prefix, depth), p, c, q)
  {
    OneMerged(Item(Relative(prefix, e.name), e.node), p, c, q);
    assert MergedItems([], p, c, q) == [];
    hide Listing, StartsWith, Relative, MergedItems;
  }

  lemma MergedEntries(dir: Node, prefix: string, p: string, c: string, q: string, i: nat)
    requires dir.Directory? && i < |dir.entries|
    ensures var dir' := Merged(dir, prefix, p, c, q);
            dir'.Directory? && |dir'.entries| == |dir.entries| && dir'.entries[i] == MergedEntry(dir.entries[i], prefix, p, c, q)
  {
  }

  lemma {:induction false} ListingMerged(dir: Node, n: nat, prefix: string, depth: nat, p: string, c: string, q: string)
    requires dir.Directory? && n <= |dir.entries|
    ensures Listing(HashRule(), Merged(dir, prefix, p, c, q), n, prefix, depth) ==
            MergedItems(Listing(HashRule(), dir, n, prefix, depth), p, c, q)
    decreases dir, n
  {
    if n > 0 {
      var e := dir.entries[n - 1];
      var dir' := Merged(dir, prefix, p, c, q);
      hide Listing, EntryListing, MergedItems, Merged, MergedEntry, StartsWith, Relative, HashRule;
      MergedEntries(dir, prefix, p, c, q, n - 1);
      ListingMerged(dir, n - 1, prefix, depth, p, c, q);
      if e.node.Directory? {
        ListingMerged(e.node, |e.node.entries|, Relative(prefix, e.name), depth + 1, p, c, q);
      }
      EntryMerged(e, prefix, depth, p, c, q);
      ListingEntry(dir, n, prefix, depth);
      ListingEntry(dir', n, prefix, depth);
      MergedAppend(Listing(HashRule(), dir, n - 1, prefix, depth), EntryListing(HashRule(), e, prefix, depth), p, c, q);
    }
  }

  lemma {:induction false} MergedWellNamed(node: Node, path: string, p: string, c: string, q: string)
    requires WellNamed(node)
    ensures WellNamed(Merged(node, path, p, c, q))
  {
    if node.Directory? {
      forall i | 0 <= i < |node.entries|
        ensures WellNamed(Merged(node.entries[i].node, Relative(path, node.entries[i].name), p, c, q))
      {
        MergedWellNamed(node.entries[i].node, Relative(path, node.entries[i].name), p, c, q);
      }
    }
  }

  lemma DistinctFiles(dir: Node)
    requires dir.Directory? && WellNamed(dir)
    ensures Distinct(Paths(Files(dir))) && SortedBy(ByPath(), Files(dir))
  {
    var listing, files := WholeListing(HashRule(), dir), Files(dir);
    ListingDistinct(HashRule(), dir, |dir.entries|, "", 0);
    ByPathIsPreorder();
    SortSorted(ByPath(), listing);
    hide ByPath, Sort, Listing;
    ItemsDistinct(listing);
    DistinctPermutation(listing, files);
    forall i, j | 0 <= i < j < |files|
      ensures files[i].path != files[j].path
    {
      assert files[i] in multiset(listing) && files[j] in multiset(listing);
      if files[i].path == files[j].path {
        PathsDistinctTies(listing, files[i], files[j]);
      }
    }
  }

  lemma MergedEach(x: Item, y: Item, rest: seq<Item>, c: string, o: Item)
    requires Distinct(Paths([x, y] + rest)) && o in [x, y] + rest
    ensures MergedItem(o, x.path, c, y.path) == if o == x then [Item(x.path, File(c))] else if o == y then [] else [o]
    ensures o in rest ==> o != x && o != y
    ensures x != y
  {
    var files := [x, y] + rest;
    assert Paths(files)[0] == x.path && Paths(files)[1] == y.path;
    if o in rest {
      var i :| 0 <= i < |rest| && rest[i] == o;
      assert files[i + 2] == o && Paths(files)[i + 2] == o.path;
    }
  }

  /** What merging the first two of the files comes to. */
  lemma MergedFirst(items: seq<Item>, x: Item, y: Item, rest: seq<Item>, c: string, item: Item)
    requires Distinct(Paths([x, y] + rest)) && forall o :: o in items <==> o in [x, y] + rest
    ensures item in MergedItems(items, x.path, c, y.path) <==> item in [Item(x.path, File(c))] + rest
  {
    MergedMembers(items, x.path, c, y.path, item);
    hide MergedItems, MergedItem, Paths, Distinct;
    if item in MergedItems(items, x.path, c, y.path) {
      var k :| 0 <= k < |items| && item in MergedItem(items[k], x.path, c, y.path);
      assert items[k] in items;
      MergedEach(x, y, rest, c, items[k]);
    }
    if item in [Item(x.path, File(c))] + rest {
      var o := if item in rest then item else x;
      assert o in [x, y] + rest;
      MergedEach(x, y, rest, c, o);
      var k :| 0 <= k < |items| && items[k] == o;
      assert item in MergedItem(items[k], x.path, c, y.path);
    }
  }

  lemma MergedPaths(x: Item, y: Item, rest: seq<Item>, m: Item)
    requires m.path == x.path && Distinct(Paths([x, y] + rest)) && SortedBy(ByPath(), [x, y] + rest)
    ensures Distinct(Paths([m] + rest)) && SortedBy(ByPath(), [m] + rest)
  {
    var files := [x, y] + rest;
    forall i, j | 0 <= i < j < |rest| + 1
      ensures Paths([m] + rest)[i] != Paths([m] + rest)[j] && ByPath()(([m] + rest)[i], ([m] + rest)[j])
    {
      var h := if i == 0 then 0 else i + 1;
      assert Paths(files)[h] != Paths(files)[j + 1] && ByPath()(files[h], files[j + 1]);
      assert files[h].path == ([m] + rest)[i].path && files[j + 1] == ([m] + rest)[j];
    }
  }

  lemma MergedFiles(a: Node, x: Item, y: Item, rest: seq<Item>, c: string) returns (b: Node)
    requires a.Directory? && WellNamed(a) && Files(a) == [x, y] + rest
    ensures b.Directory? && WellNamed(b) && Files(b) == [Item(x.path, File(c))] + rest
  {
    b := Merged(a, "", x.path, c, y.path);
    var m := Item(x.path, File(c));
    MergedWellNamed(a, "", x.path, c, y.path);
    ListingMerged(a, |a.entries|, "", 0, x.path, c, y.path);
    FilesOf(a);
    DistinctFiles(a);
    ListingDistinct(HashRule(), b, |b.entries|, "", 0);
    MergedPaths(x, y, rest, m);
    hide HashRule, ByPath, Listing, Merged, MergedItems, Sort, WellNamed, Distinct, SortedBy, Paths;
    var listing := WholeListing(HashRule(), b);
    assert listing == MergedItems(WholeListing(HashRule(), a), x.path, c, y.path);
    forall item
      ensures item in listing <==> item in [m] + rest
    {
      MergedFirst(WholeListing(HashRule(), a), x, y, rest, c, item);
    }
    SameFiles(listing, [m] + rest);
    SortOfSorted(ByPath(), [m] + rest);
  }

  lemma JoinedRecords(p: string, c: string, q: string, d: string)
    ensures p + "\0" + (c + "\0" + q + "\0" + d) + "\0" == (p + "\0" + c + "\0") + (q + "\0" + d + "\0")
  {
  }

  lemma RecordFirst(x: Item, rest: seq<Item>)
    ensures Preimage([x] + rest) == Record(x) + Preimage(rest)
  {
    hide Preimage, Record;
    PreimageFront([x] + rest);
    assert ([x] + rest)[1..] == rest;
  }

  function Joined(x: Item, y: Item): Item {
    Item(x.path, File(Content(x) + "\0" + y.path + "\0" + Content(y)))
  }

  lemma JoinedRecord(x: Item, y: Item)
    ensures Record(Joined(x, y)) == Record(x) + Record(y)
  {
    JoinedRecords(x.path, Content(x), y.path, Content(y));
  }

  lemma MergedRecord(x: Item, y: Item, rest: seq<Item>)
    ensures Preimage([Joined(x, y)] + rest) == Preimage([x, y] + rest)
  {
    hide Preimage, Record, Joined;
    RecordFirst(Joined(x, y), rest);
    RecordFirst(y, rest);
    RecordFirst(x, [y] + rest);
    assert [x] + ([y] + rest) == [x, y] + rest;
    JoinedRecord(x, y);
    Associative(Record(x), Record(y), Preimage(rest));
  }

  /** The first two files of a tree can be read as one. */
  lemma TwoFilesCollide(a: Node) returns (b: Node)
    requires a.Directory? && WellNamed(a) && ContentsNulFree(a) && |Files(a)| >= 2
    ensures b.Directory? && WellNamed(b) && Preimage(Files(b)) == Preimage(Files(a)) && !SameTree(a, b)
  {
    var x, y, rest := Files(a)[0], Files(a)[1], Files(a)[2..];
    assert Files(a) == [x, y] + rest;
    var c := Content(x) + "\0" + y.path + "\0" + Content(y);
    b := MergedFiles(a, x, y, rest, c);
    MergedRecord(x, y, rest);
    FilesOf(b);
    var m := Joined(x, y);
    assert Files(b)[0] == m && m in Files(b);
    assert Content(m) == c && c[|Content(x)|] == '\0';
  }

  lemma OneRecord(x: Item, y: Item, more: string)
    requires '\0' !in x.path && '\0' !in Content(x) && '\0' !in y.path && Record(x) == Record(y) + more
    ensures x.path == y.path && Content(x) == Content(y) && more == ""
  {
    var p, q, c, d := x.path, y.path, Content(x), Content(y);
    hide Content;
    assert Record(x) == p + "\0" + (c + "\0");
    assert Record(y) + more == q + "\0" + (d + "\0" + more);
    hide Record;
    FirstField(p, c + "\0", q, d + "\0" + more, '\0');
    assert (c + "\0")[|d|] == (d + "\0" + more)[|d|] == '\0';
    assert |d| == |c| && |c + "\0"| == |d + "\0" + more|;
    assert c == (c + "\0")[..|c|] && d == (d + "\0" + more)[..|d|];
  }

  lemma FilesNamed(dir: Node)
    requires dir.Directory? && WellNamed(dir)
    ensures forall item :: item in Files(dir) ==> item.node.File? && '\0' !in item.path
  {
    FilesOf(dir);
    hide Files;
    forall item | item in Files(dir)
      ensures '\0' !in item.path
    {
      var listing := WholeListing(HashRule(), dir);
      var k :| 0 <= k < |listing| && listing[k] == item;
      ListedFile(dir, |dir.entries|, "", 0, k);
    }
  }

  lemma OneFileDetermined(a: Node, b: Node)
    requires a.Directory? && WellNamed(a) && ContentsNulFree(a) && |Files(a)| <= 1
    requires b.Directory? && WellNamed(b) && Preimage(Files(b)) == Preimage(Files(a))
    ensures SameTree(a, b)
  {
    FilesOf(a);
    FilesOf(b);
    FilesNamed(a);
    FilesNamed(b);
    PreimageEmpty(Files(a));
    PreimageEmpty(Files(b));
    hide Files, WholeListing, ContentsNulFree, WellNamed, Preimage;
    if Files(a) != [] {
      var x, y := Files(a)[0], Files(b)[0];
      assert x in Files(a) && y in Files(b);
      PreimageFront(Files(a));
      PreimageFront(Files(b));
      PreimageEmpty(Files(a)[1..]);
      PreimageEmpty(Files(b)[1..]);
      hide Record;
      assert Record(x) + "" == Record(x);
      OneRecord(x, y, Preimage(Files(b)[1..]));
      assert Files(a) == [x] && Files(b) == [y];
    }
  }

  /** A tree whose files contain no NUL is determined by its bytes, among all trees, exactly when it has at most one
      file. */
  lemma BytesDetermineExactly(a: Node)
    requires a.Directory? && WellNamed(a) && ContentsNulFree(a)
    ensures (forall b: Node :: b.Directory? && WellNamed(b) && Preimage(Files(b)) == Preimage(Files(a)) ==> SameTree(a, b)) <==>
              |Files(a)| <= 1
  {
    hide Files, WellNamed, Preimage, SameTree, ContentsNulFree;
    if |Files(a)| <= 1 {
      forall b: Node | b.Directory? && WellNamed(b) && Preimage(Files(b)) == Preimage(Files(a))
        ensures SameTree(a, b)
      {
        OneFileDetermined(a, b);
      }
    } else {
      var b := TwoFilesCollide(a);
    }
  }

  /** With NUL in a file the bytes do not determine the files: one file, or two, give the same bytes. */
  lemma NulCollides()
    ensures var one := Directory([Entry("a", File("x\0b\0y"))]);
            var two := Directory([Entry("a", File("x")), Entry("b", File("y"))]);
            && WellNamed(one) && WellNamed(two)
            && Preimage(Files(one)) == Preimage(Files(two)) && |Files(one)| != |Files(two)|
  {
    var one := Directory([Entry("a", File("x\0b\0y"))]);
    var two := Directory([Entry("a", File("x")), Entry("b", File("y"))]);
    var a, x, y := Item("a", File("x\0b\0y")), Item("a", File("x")), Item("b", File("y"));
    OneListed(one, a);
    assert LexLe("a", "b");
    TwoListed(two, x, y);
    hide Preimage, Files;
    SameRecords(a, x, y);
  }

  lemma RecordAlone(a: Item)
    ensures Preimage([a]) == Record(a)
  {
    assert [a][..0] == [];
  }

  lemma RecordAfter(files: seq<Item>, a: Item)
    ensures Preimage(files + [a]) == Preimage(files) + Record(a)
  {
    assert (files + [a])[..|files|] == files;
  }

  lemma SameRecords(a: Item, x: Item, y: Item)
    requires a == Item("a", File("x\0b\0y")) && x == Item("a", File("x")) && y == Item("b", File("y"))
    ensures Preimage([a]) == Preimage([x, y])
  {
    RecordAlone(a);
    RecordAlone(x);
    RecordAfter([x], y);
    hide Preimage;
    assert [x] + [y] == [x, y];
    assert Record(a) == "a\0x\0b\0y\0";
    assert Record(x) == "a\0x\0" && Record(y) == "b\0y\0";
  }

  lemma OneListed(dir: Node, a: Item)
    requires dir == Directory([Entry("a", a.node)]) && a == Item("a", File("x\0b\0y"))
    ensures Files(dir) == [a]
  {
    assert Listing(HashRule(), dir, 0, "", 0) == [];
    assert Listing(HashRule(), dir, 1, "", 0) == [a];
    assert Sort(ByPath(), [a]) == [a] by { assert [a][1..] == []; }
  }

  lemma TwoListed(dir: Node, x: Item, y: Item)
    requires dir == Directory([Entry(x.path, x.node), Entry(y.path, y.node)]) && x.node.File? && y.node.File?
    requires forall item :: item in [x, y] ==> item.path != ".git" && !StartsWith(item.path, "..")
    requires LexLe(x.path, y.path)
    ensures Files(dir) == [x, y]
  {
    assert x in [x, y] && y in [x, y];
    assert Listing(HashRule(), dir, 0, "", 0) == [];
    assert Listing(HashRule(), dir, 1, "", 0) == [x];
    assert Listing(HashRule(), dir, 2, "", 0) == [x, y];
    assert [x, y][1..] == [y] && [y][1..] == [];
    assert Sort(ByPath(), [y]) == [y];
  }

  lemma StraddlingNames(p: string, q: string)
    requires p == "\U{10000}" && q == "\U{E000}"
    ensures IsName(p) && IsName(q) && !StartsWith(p, "..") && !StartsWith(q, "..")
    ensures LexLe(p, q) && Straddling(p, q)
  {
  }

  /** Two files whose records do not come in the order of their UTF-8 paths. */
  lemma OutOfUtf8Order()
    ensures var dir := Directory([Entry("\U{10000}", File("")), Entry("\U{E000}", File(""))]);
            WellNamed(dir) && !SortedBy(ByUtf8Path(), Files(dir))
  {
    StraddlingNames("\U{10000}", "\U{E000}");
    hide SortedBy, ByUtf8Path, Files, WellNamed;
    StraddlingFiles("\U{10000}", "\U{E000}");
  }

  lemma StraddlingFiles(p: string, q: string)
    requires IsName(p) && IsName(q) && !StartsWith(p, "..") && !StartsWith(q, "..") && p != ".git" && q != ".git"
    requires p != q && LexLe(p, q) && Straddling(p, q)
    ensures var dir := Directory([Entry(p, File("")), Entry(q, File(""))]);
            WellNamed(dir) && !SortedBy(ByUtf8Path(), Files(dir))
  {
    var dir := Directory([Entry(p, File("")), Entry(q, File(""))]);
    hide SortedBy, ByUtf8Path, Files, LexLe, StartsWith, IsName;
    TwoListed(dir, Item(p, File("")), Item(q, File("")));
    Utf8OrderExactly(dir);
    assert Files(dir)[0].path == p && Files(dir)[1].path == q;
  }

  // ----- the computation -----

  /** What the walk adds for one entry. */
  lemma ListingStep(dir: Node, i: nat, prefix: string, depth: nat)
    requires dir.Directory? && i < |dir.entries|
    ensures var Entry(name, node) := dir.entries[i];
            var relative := Relative(prefix, name);
            Listing(HashRule(), dir, i + 1, prefix, depth) == Listing(HashRule(), dir, i, prefix, depth) +
              if name == ".git" || StartsWith(relative, "..") || node == Link then []
              else if node.Directory? then Listing(HashRule(), node, |node.entries|, relative, depth + 1)
              else if node.File? then [Item(relative, node)]
              else []
  {
  }

  class FileLister {
    var files: seq<Item>

    constructor ()
      ensures files == []
    {
      files := [];
    }

    method Walk(dir: Node, prefix: string, depth: nat)
      requires dir.Directory?
      modifies this
      ensures files == old(files) + Listing(HashRule(), dir, |dir.entries|, prefix, depth)
      decreases dir
    {
      assert files == old(files) + Listing(HashRule(), dir, 0, prefix, depth);
      hide Listing, StartsWith, Relative;
      for i := 0 to |dir.entries|
        invariant files == old(files) + Listing(HashRule(), dir, i, prefix, depth)
      {
        var Entry(name, node) := dir.entries[i];
        var relative := Relative(prefix, name);
        ListingStep(dir, i, prefix, depth);
        if name != ".git" && !StartsWith(relative, "..") && node != Link {
          if node.Directory? {
            Walk(node, relative, depth + 1);
          } else if node.File? {
            files := files + [Item(relative, node)];
          }
        }
      }
    }
  }

  /** What `hash.update` is given, in order. */
  method HashRepositoryTree(root: Node) returns (bytes: string)
    requires root.Directory?
    ensures bytes == Preimage(Files(root))
  {
    var lister := new FileLister();
    lister.Walk(root, "", 0);
    assert [] + WholeListing(HashRule(), root) == WholeListing(HashRule(), root);
    var files := Sort(ByPath(), lister.files);
    bytes := "";
    for i := 0 to |files|
      invariant bytes == Preimage(files[..i])
    {
      assert files[..i + 1][..i] == files[..i];
      var record := files[i].path + "\0" + Content(files[i]) + "\0";
      bytes := bytes + record;
    }
    assert files[..|files|] == files;
  }
}
