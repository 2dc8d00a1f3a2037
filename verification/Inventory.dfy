/** The bounded walk that takes stock of a repository (packages/scanner/src/inventory.ts). Categories and extensions, which
    are computed from the path alone, are left out. */
module Inventory {
  import opened FileTrees
  import opened Options
  import opened Sequences
  import opened Text

  datatype Limits = Limits(maxFiles: int, maxDepth: int, maxFileBytes: int, maxTotalBytes: int)

  datatype Reason = SYMLINK | FILE_TOO_LARGE | BINARY | TOTAL_BYTES_CAP

  /** A file of the inventory; the text of an analyzed one is its content. */
  datatype Inventoried = Inventoried(path: string, sizeBytes: nat, skipReason: Option<Reason>, text: Option<string>)

  const SKIP_DIRECTORIES := {
    ".git", "node_modules", "lib", "dist", "build", "coverage", "cache", "artifacts", "out", ".next", "target", ".turbo",
    ".pnpm-store", ".openzeppelin", "broadcast", "deployments", "typechain", "typechain-types"
  }

  /** Directories that are not skipped and not too deep; of the rest, links and regular files. */
  function InventoryRule(maxDepth: int): Rule {
    (name: string, path: string, node: Node, depth: nat) =>
      if node.Directory? then name !in SKIP_DIRECTORIES && depth + 1 <= maxDepth else node != Special
  }

  /** All that could be reported, in the order of the walk. */
  function Candidates(limits: Limits, root: Node): seq<Item>
    requires root.Directory?
  {
    if 0 > limits.maxDepth then [] else WholeListing(InventoryRule(limits.maxDepth), root)
  }

  predicate IsBinary(content: string) {
    '\0' in content[..if |content| < 8000 then |content| else 8000]
  }

  // ----- what the walk makes of its candidates -----

  /** The inventory so far, and how many bytes of it are analyzed. */
  datatype Tally = Tally(files: seq<Inventoried>, analyzedBytes: nat)

  /** What becomes of a candidate when so many bytes are analyzed already. */
  function Verdict(limits: Limits, analyzedBytes: nat, item: Item): Inventoried {
    if item.node.File? then
      var size := |item.node.content|;
      if size > limits.maxFileBytes then Inventoried(item.path, size, Some(FILE_TOO_LARGE), None)
      else if IsBinary(item.node.content) then Inventoried(item.path, size, Some(BINARY), None)
      else if analyzedBytes + size > limits.maxTotalBytes then Inventoried(item.path, size, Some(TOTAL_BYTES_CAP), None)
      else Inventoried(item.path, size, None, Some(item.node.content))
    else Inventoried(item.path, 0, Some(SYMLINK), None)
  }

  function AnalyzedSize(file: Inventoried): nat {
    if file.text.Some? then file.sizeBytes else 0
  }

  function Add(limits: Limits, tally: Tally, item: Item): Tally {
    if |tally.files| >= limits.maxFiles then tally
    else
      var file := Verdict(limits, tally.analyzedBytes, item);
      Tally(tally.files + [file], tally.analyzedBytes + AnalyzedSize(file))
  }

  function AddAll(limits: Limits, tally: Tally, items: seq<Item>): Tally {
    if items == [] then tally else Add(limits, AddAll(limits, tally, items[..|items| - 1]), items[|items| - 1])
  }

  lemma {:induction false} AddAllAppend(limits: Limits, tally: Tally, a: seq<Item>, b: seq<Item>)
    ensures AddAll(limits, tally, a + b) == AddAll(limits, AddAll(limits, tally, a), b)
  {
    if b == [] {
      assert a + b == a;
    } else {
      AddAllAppend(limits, tally, a, b[..|b| - 1]);
      assert (a + b)[..|a + b| - 1] == a + b[..|b| - 1];
    }
  }

  lemma {:induction false} FullStaysFull(limits: Limits, tally: Tally, items: seq<Item>)
    requires |tally.files| >= limits.maxFiles
    ensures AddAll(limits, tally, items) == tally
  {
    if items != [] {
      FullStaysFull(limits, tally, items[..|items| - 1]);
    }
  }

  // ----- what the inventory is -----

  function AnalyzedTotal(files: seq<Inventoried>): nat {
    if files == [] then 0 else AnalyzedTotal(files[..|files| - 1]) + AnalyzedSize(files[|files| - 1])
  }

  /** The first candidates, as many as allowed, each with the verdict that the bytes analyzed before it call for. */
  ghost predicate FirstAdmitted(limits: Limits, items: seq<Item>, files: seq<Inventoried>) {
    && |files| == (if limits.maxFiles < 0 then 0 else if limits.maxFiles < |items| then limits.maxFiles else |items|)
    && forall i :: 0 <= i < |files| ==> files[i] == Verdict(limits, AnalyzedTotal(files[..i]), items[i])
  }

  lemma {:induction false} AddAllAdmits(limits: Limits, items: seq<Item>)
    ensures var tally := AddAll(limits, Tally([], 0), items);
            FirstAdmitted(limits, items, tally.files) && tally.analyzedBytes == AnalyzedTotal(tally.files)
  {
    if items != [] {
      var before := AddAll(limits, Tally([], 0), items[..|items| - 1]);
      var after := AddAll(limits, Tally([], 0), items);
      AddAllAdmits(limits, items[..|items| - 1]);
      hide Verdict;
      if |before.files| < limits.maxFiles {
        OneMoreAdmitted(limits, items, before.files, Verdict(limits, before.analyzedBytes, items[|items| - 1]));
        assert after.files[..|before.files|] == before.files;
      }
    }
  }

  lemma OneMoreAdmitted(limits: Limits, items: seq<Item>, files: seq<Inventoried>, file: Inventoried)
    requires items != [] && FirstAdmitted(limits, items[..|items| - 1], files) && |files| < limits.maxFiles
    requires file == Verdict(limits, AnalyzedTotal(files), items[|items| - 1])
    ensures FirstAdmitted(limits, items, files + [file])
  {
    var all := files + [file];
    hide Verdict, AnalyzedTotal;
    assert all[..|files|] == files;
    forall i | 0 <= i < |all|
      ensures all[i] == Verdict(limits, AnalyzedTotal(all[..i]), items[i])
    {
      if i < |files| {
        assert all[..i] == files[..i];
      }
    }
  }

  lemma {:induction false} TotalWithinCap(limits: Limits, items: seq<Item>, files: seq<Inventoried>, n: nat)
    requires FirstAdmitted(limits, items, files) && n <= |files|
    ensures AnalyzedTotal(files[..n]) <= if limits.maxTotalBytes < 0 then 0 else limits.maxTotalBytes
  {
    if n > 0 {
      TotalWithinCap(limits, items, files, n - 1);
      assert files[..n][..n - 1] == files[..n - 1];
      assert files[n - 1] == Verdict(limits, AnalyzedTotal(files[..n - 1]), items[n - 1]);
    }
  }

  /** The inventory of a repository: the first `maxFiles` candidates, each path once; a text is analyzed exactly when it is
      small enough, not binary, and still fits; and never more bytes than allowed. */
  ghost predicate InventoryOf(limits: Limits, root: Node, files: seq<Inventoried>)
    requires root.Directory?
  {
    && FirstAdmitted(limits, Candidates(limits, root), files)
    && AnalyzedTotal(files) <= (if limits.maxTotalBytes < 0 then 0 else limits.maxTotalBytes)
    && (WellNamed(root) ==> forall i, j :: 0 <= i < j < |files| ==> files[i].path != files[j].path)
  }

  lemma PathsOnce(limits: Limits, items: seq<Item>, files: seq<Inventoried>)
    requires FirstAdmitted(limits, items, files) && Distinct(Paths(items))
    ensures forall i, j :: 0 <= i < j < |files| ==> files[i].path != files[j].path
  {
    forall i | 0 <= i < |files|
      ensures files[i].path == Paths(items)[i]
    {
      assert files[i] == Verdict(limits, AnalyzedTotal(files[..i]), items[i]);
    }
    hide FirstAdmitted, Paths;
  }

  lemma AdmittedIsInventory(limits: Limits, root: Node)
    requires root.Directory?
    ensures InventoryOf(limits, root, AddAll(limits, Tally([], 0), Candidates(limits, root)).files)
  {
    var items := Candidates(limits, root);
    var files := AddAll(limits, Tally([], 0), items).files;
    AddAllAdmits(limits, items);
    TotalWithinCap(limits, items, files, |files|);
    assert files[..|files|] == files;
    if WellNamed(root) {
      ListingDistinct(InventoryRule(limits.maxDepth), root, |root.entries|, "", 0);
      assert Distinct(Paths(items));
      PathsOnce(limits, items, files);
    }
    hide FirstAdmitted, AddAll, Candidates, AnalyzedTotal, WellNamed;
  }

  /** NUL among the first 8,000 bytes. */
  predicate HasNul(content: string) {
    exists i :: 0 <= i < |content| && i < 8_000 && content[i] == '\0'
  }

  lemma BinaryIs(content: string)
    ensures IsBinary(content) <==> HasNul(content)
  {
    var n := if |content| < 8000 then |content| else 8000;
    if HasNul(content) {
      var i :| 0 <= i < |content| && i < 8_000 && content[i] == '\0';
      assert content[..n][i] == '\0';
    }
    if IsBinary(content) {
      var i :| 0 <= i < n && content[..n][i] == '\0';
      assert content[i] == '\0';
    }
  }

  /** When a text is analyzed, and why it is not. */
  lemma AnalyzedExactlyWhen(limits: Limits, items: seq<Item>, files: seq<Inventoried>, i: nat)
    requires FirstAdmitted(limits, items, files) && i < |files|
    ensures files[i].path == items[i].path
    ensures files[i].skipReason == Some(SYMLINK) <==> !items[i].node.File?
    ensures !items[i].node.File? ==> files[i].sizeBytes == 0 && files[i].text == None
    ensures items[i].node.File? ==>
              var content := items[i].node.content;
              var small, fits := |content| <= limits.maxFileBytes, AnalyzedTotal(files[..i]) + |content| <= limits.maxTotalBytes;
              && files[i].sizeBytes == |content|
              && (files[i].text.Some? <==> small && !HasNul(content) && fits)
              && (files[i].text.Some? ==> files[i].text.value == content)
              && (files[i].skipReason == None <==> files[i].text.Some?)
              && (files[i].skipReason == Some(FILE_TOO_LARGE) <==> !small)
              && (files[i].skipReason == Some(BINARY) <==> small && HasNul(content))
              && (files[i].skipReason == Some(TOTAL_BYTES_CAP) <==> small && !HasNul(content) && !fits)
  {
    if items[i].node.File? {
      BinaryIs(items[i].node.content);
    }
    assert files[i] == Verdict(limits, AnalyzedTotal(files[..i]), items[i]);
    hide IsBinary, HasNul;
  }

  // ----- what the candidates are -----

  /** The names lead to a file or a link, through no skipped directory, and not too deep. */
  ghost predicate Found(maxDepth: int, dir: Node, prefix: string, depth: nat, item: Item, names: seq<string>) {
    && Reaches(dir, names, item.node) && (item.node.File? || item.node == Link) && item.path == PathFrom(prefix, names)
    && depth + |names| - 1 <= maxDepth && forall i :: 0 <= i < |names| - 1 ==> names[i] !in SKIP_DIRECTORIES
  }

  lemma FoundInside(maxDepth: int, dir: Node, prefix: string, depth: nat, item: Item, i: nat, names: seq<string>)
    requires dir.Directory? && i < |dir.entries| && dir.entries[i].name !in SKIP_DIRECTORIES
    requires Found(maxDepth, dir.entries[i].node, Relative(prefix, dir.entries[i].name), depth + 1, item, names)
    ensures Found(maxDepth, dir, prefix, depth, item, [dir.entries[i].name] + names)
  {
    var all := [dir.entries[i].name] + names;
    assert all[1..] == names && all[0] == dir.entries[i].name && Enters(dir.entries[i], all, item.node);
    assert forall j :: 0 < j < |all| - 1 ==> all[j] == names[j - 1];
    hide Relative;
  }

  lemma FoundHere(maxDepth: int, dir: Node, prefix: string, depth: nat, item: Item, i: nat)
    requires dir.Directory? && i < |dir.entries| && depth <= maxDepth
    requires dir.entries[i].node == item.node && (item.node.File? || item.node == Link)
    requires item.path == Relative(prefix, dir.entries[i].name)
    ensures Found(maxDepth, dir, prefix, depth, item, [dir.entries[i].name])
  {
    var names := [dir.entries[i].name];
    assert names[1..] == [];
    assert Enters(dir.entries[i], names, item.node);
    assert PathFrom(prefix, names) == PathFrom(Relative(prefix, names[0]), []);
    hide Relative;
  }

  lemma {:induction false} ListedIsFound(maxDepth: int, dir: Node, prefix: string, depth: nat, item: Item) returns (names: seq<string>)
    requires dir.Directory? && depth <= maxDepth && item in Listing(InventoryRule(maxDepth), dir, |dir.entries|, prefix, depth)
    ensures Found(maxDepth, dir, prefix, depth, item, names)
    decreases dir
  {
    ListedSomewhere(InventoryRule(maxDepth), dir, |dir.entries|, prefix, depth, item);
    var i :| 0 <= i < |dir.entries| && item in EntryListing(InventoryRule(maxDepth), dir.entries[i], prefix, depth);
    var e := dir.entries[i];
    hide Found, Relative;
    if e.node.Directory? {
      var inner := ListedIsFound(maxDepth, e.node, Relative(prefix, e.name), depth + 1, item);
      FoundInside(maxDepth, dir, prefix, depth, item, i, inner);
      names := [e.name] + inner;
    } else {
      FoundHere(maxDepth, dir, prefix, depth, item, i);
      names := [e.name];
    }
  }

  lemma {:induction false} FoundIsListed(maxDepth: int, dir: Node, prefix: string, depth: nat, item: Item, names: seq<string>)
    requires dir.Directory? && depth <= maxDepth && Found(maxDepth, dir, prefix, depth, item, names)
    ensures item in Listing(InventoryRule(maxDepth), dir, |dir.entries|, prefix, depth)
    decreases dir
  {
    var i :| 0 <= i < |dir.entries| && Enters(dir.entries[i], names, item.node);
    var e, rest := dir.entries[i], names[1..];
    ListedSomewhere(InventoryRule(maxDepth), dir, |dir.entries|, prefix, depth, item);
    if |names| > 1 {
      assert names[0] !in SKIP_DIRECTORIES && Reaches(e.node, rest, item.node);
      assert item.path == PathFrom(Relative(prefix, e.name), rest);
      assert forall j :: 0 <= j < |rest| - 1 ==> rest[j] == names[j + 1];
      hide Relative;
      FoundIsListed(maxDepth, e.node, Relative(prefix, e.name), depth + 1, item, rest);
    } else {
      assert PathFrom(prefix, names) == PathFrom(Relative(prefix, e.name), []);
    }
    assert item in EntryListing(InventoryRule(maxDepth), e, prefix, depth);
  }

  /** The candidates are exactly the files and links that can be reached through directories that are not skipped and not
      too deep; the root has depth 0. */
  lemma CandidatesAre(limits: Limits, root: Node, item: Item)
    requires root.Directory?
    ensures item in Candidates(limits, root) <==>
              limits.maxDepth >= 0 && exists names :: Found(limits.maxDepth, root, "", 0, item, names)
  {
    hide Found, Listing;
    if limits.maxDepth >= 0 {
      if item in Candidates(limits, root) {
        var names := ListedIsFound(limits.maxDepth, root, "", 0, item);
      }
      if names :| Found(limits.maxDepth, root, "", 0, item, names) {
        FoundIsListed(limits.maxDepth, root, "", 0, item, names);
      }
    }
  }

  // ----- the walk -----

  lemma {:induction false} ListingExtends(rule: Rule, dir: Node, i: nat, prefix: string, depth: nat) returns (rest: seq<Item>)
    requires dir.Directory? && i <= |dir.entries|
    ensures Listing(rule, dir, |dir.entries|, prefix, depth) == Listing(rule, dir, i, prefix, depth) + rest
    decreases |dir.entries| - i
  {
    if i == |dir.entries| {
      rest := [];
    } else {
      rest := ListingExtends(rule, dir, i + 1, prefix, depth);
      rest := EntryListing(rule, dir.entries[i], prefix, depth) + rest;
    }
  }

  class Scanner {
    const limits: Limits
    var files: seq<Inventoried>
    var analyzedBytes: nat

    ghost function Value(): Tally
      reads this
    {
      Tally(files, analyzedBytes)
    }

    constructor (limits: Limits)
      ensures this.limits == limits && Value() == Tally([], 0)
    {
      this.limits, files, analyzedBytes := limits, [], 0;
    }

    method Report(item: Item)
      requires |files| < limits.maxFiles && !item.node.Directory?
      modifies this
      ensures Value() == Add(limits, old(Value()), item)
    {
      if !item.node.File? {
        files := files + [Inventoried(item.path, 0, Some(SYMLINK), None)];
        return;
      }
      var content := item.node.content;
      if |content| > limits.maxFileBytes {
        files := files + [Inventoried(item.path, |content|, Some(FILE_TOO_LARGE), None)];
        return;
      }
      if IsBinary(content) {
        files := files + [Inventoried(item.path, |content|, Some(BINARY), None)];
        return;
      }
      if analyzedBytes + |content| > limits.maxTotalBytes {
        files := files + [Inventoried(item.path, |content|, Some(TOTAL_BYTES_CAP), None)];
        return;
      }
      analyzedBytes := analyzedBytes + |content|;
      files := files + [Inventoried(item.path, |content|, None, Some(content))];
    }

    method Walk(dir: Node, prefix: string, depth: nat)
      requires dir.Directory?
      modifies this
      ensures Value() == AddAll(limits, old(Value()), if depth > limits.maxDepth then []
                                else Listing(InventoryRule(limits.maxDepth), dir, |dir.entries|, prefix, depth))
      decreases dir
    {
      ghost var rule := InventoryRule(limits.maxDepth);
      if |files| >= limits.maxFiles {
        FullStaysFull(limits, Value(), Listing(rule, dir, |dir.entries|, prefix, depth));
        return;
      }
      if depth > limits.maxDepth {
        return;
      }
      for i := 0 to |dir.entries|
        invariant Value() == AddAll(limits, old(Value()), Listing(rule, dir, i, prefix, depth))
      {
        ghost var listed := Listing(rule, dir, i, prefix, depth);
        if |files| >= limits.maxFiles {
          var rest := ListingExtends(rule, dir, i, prefix, depth);
          AddAllAppend(limits, old(Value()), listed, rest);
          FullStaysFull(limits, Value(), rest);
          return;
        }
        AddAllAppend(limits, old(Value()), listed, EntryListing(rule, dir.entries[i], prefix, depth));
        WalkEntry(dir.entries[i], prefix, depth);
      }
    }

    method WalkEntry(entry: Entry, prefix: string, depth: nat)
      requires depth <= limits.maxDepth && |files| < limits.maxFiles
      modifies this
      ensures Value() == AddAll(limits, old(Value()), EntryListing(InventoryRule(limits.maxDepth), entry, prefix, depth))
      decreases entry
    {
      var relative := Relative(prefix, entry.name);
      if entry.node == Link || entry.node.File? {
        assert [Item(relative, entry.node)][..0] == [];
        Report(Item(relative, entry.node));
      } else if entry.node.Directory? && entry.name !in SKIP_DIRECTORIES {
        Walk(entry.node, relative, depth + 1);
      }
    }
  }

  method InventoryRepository(root: Node, limits: Limits) returns (files: seq<Inventoried>)
    requires root.Directory?
    ensures InventoryOf(limits, root, files)
  {
    var scanner := new Scanner(limits);
    scanner.Walk(root, "", 0);
    AdmittedIsInventory(limits, root);
    files := scanner.files;
  }
}
