/** Directory trees and the recursive walks over them. The entries of a directory are in the order in which the file
    system happens to list them. */
module FileTrees {
  import opened Sequences
  import opened Text

  datatype Node = File(content: string) | Link | Special | Directory(entries: seq<Entry>)

  datatype Entry = Entry(name: string, node: Node)

  /** A node that a walk reports, under its path relative to the root. */
  datatype Item = Item(path: string, node: Node)

  predicate IsName(name: string) {
    name != "" && '/' !in name && '\0' !in name
  }

  /** Names are names, and no directory has two entries with the same one. */
  predicate WellNamed(node: Node) {
    node.Directory? ==>
      && (forall i :: 0 <= i < |node.entries| ==> IsName(node.entries[i].name) && WellNamed(node.entries[i].node))
      && (forall i, j :: 0 <= i < j < |node.entries| ==> node.entries[i].name != node.entries[j].name)
  }

  function Relative(prefix: string, name: string): string {
    if prefix == "" then name else prefix + "/" + name
  }

  /** Which entries a walk goes into or reports: given the name, the relative path, the node and the depth. */
  type Rule = (string, string, Node, nat) -> bool

  /** What a walk reports of the first `n` entries of a directory, depth first. */
  function Listing(rule: Rule, dir: Node, n: nat, prefix: string, depth: nat): seq<Item>
    requires dir.Directory? && n <= |dir.entries|
    decreases dir, n
  {
    if n == 0 then []
    else
      var e := dir.entries[n - 1];
      var path := Relative(prefix, e.name);
      Listing(rule, dir, n - 1, prefix, depth) +
      if !rule(e.name, path, e.node, depth) then []
      else if e.node.Directory? then Listing(rule, e.node, |e.node.entries|, path, depth + 1)
      else [Item(path, e.node)]
  }

  function WholeListing(rule: Rule, dir: Node): seq<Item>
    requires dir.Directory?
  {
    Listing(rule, dir, |dir.entries|, "", 0)
  }

  function Paths(items: seq<Item>): seq<string> {
    seq(|items|, i requires 0 <= i < |items| => items[i].path)
  }

  // ----- each path is reported once -----

  /** The path itself, or something below it. */
  ghost predicate Under(path: string, top: string) {
    exists rest :: path + "/" == top + "/" + rest
  }

  lemma UnderItself(path: string)
    ensures Under(path, path)
  {
    assert path + "/" == path + "/" + "";
  }

  lemma UnderDeeper(path: string, top: string, name: string)
    requires Under(path, Relative(top, name)) && top != ""
    ensures Under(path, top)
  {
    var rest :| path + "/" == Relative(top, name) + "/" + rest;
    assert path + "/" == top + "/" + (name + "/" + rest);
  }

  /** No path is under two entries of the same directory. */
  lemma UnderOne(path: string, prefix: string, a: string, b: string)
    requires IsName(a) && IsName(b) && Under(path, Relative(prefix, a)) && Under(path, Relative(prefix, b))
    ensures a == b
  {
    var x :| path + "/" == Relative(prefix, a) + "/" + x;
    var y :| path + "/" == Relative(prefix, b) + "/" + y;
    if prefix != "" {
      var base := prefix + "/";
      assert path + "/" == base + (a + "/" + x);
      assert path + "/" == base + (b + "/" + y);
      assert a + "/" + x == (path + "/")[|base|..] == b + "/" + y;
    }
    FirstField(a, x, b, y, '/');
  }

  /** Every reported path is under the path of one of the entries. */
  ghost predicate UnderEntry(dir: Node, n: nat, prefix: string, path: string)
    requires dir.Directory? && n <= |dir.entries|
  {
    exists i :: 0 <= i < n && Under(path, Relative(prefix, dir.entries[i].name))
  }

  lemma UnderEntryGrows(dir: Node, n: nat, prefix: string, path: string)
    requires dir.Directory? && 0 < n <= |dir.entries|
    ensures UnderEntry(dir, n - 1, prefix, path) ==> UnderEntry(dir, n, prefix, path)
    ensures Under(path, Relative(prefix, dir.entries[n - 1].name)) ==> UnderEntry(dir, n, prefix, path)
  {
    hide Under, Relative;
    if UnderEntry(dir, n - 1, prefix, path) {
      var i :| 0 <= i < n - 1 && Under(path, Relative(prefix, dir.entries[i].name));
    }
  }

  lemma UnderEntryUnder(dir: Node, n: nat, top: string, path: string)
    requires dir.Directory? && n <= |dir.entries| && top != "" && UnderEntry(dir, n, top, path)
    ensures Under(path, top)
  {
    var i :| 0 <= i < n && Under(path, Relative(top, dir.entries[i].name));
    UnderDeeper(path, top, dir.entries[i].name);
  }

  lemma {:induction false} ListedUnderEntry(rule: Rule, dir: Node, n: nat, prefix: string, depth: nat, k: nat)
    requires dir.Directory? && n <= |dir.entries| && WellNamed(dir) && k < |Listing(rule, dir, n, prefix, depth)|
    ensures UnderEntry(dir, n, prefix, Listing(rule, dir, n, prefix, depth)[k].path)
    decreases dir, n
  {
    var e := dir.entries[n - 1];
    var path := Relative(prefix, e.name);
    var before := Listing(rule, dir, n - 1, prefix, depth);
    var item := Listing(rule, dir, n, prefix, depth)[k];
    hide Under, UnderEntry;
    if k < |before| {
      ListedUnderEntry(rule, dir, n - 1, prefix, depth, k);
    } else if e.node.Directory? {
      ListedUnderEntry(rule, e.node, |e.node.entries|, path, depth + 1, k - |before|);
      UnderEntryUnder(e.node, |e.node.entries|, path, item.path);
    } else {
      UnderItself(path);
    }
    UnderEntryGrows(dir, n, prefix, item.path);
  }

  lemma DistinctAppend(a: seq<string>, b: seq<string>)
    requires Distinct(a) && Distinct(b) && forall x :: x in a ==> x !in b
    ensures Distinct(a + b)
  {
    forall i, j | 0 <= i < j < |a + b|
      ensures (a + b)[i] != (a + b)[j]
    {
      if i < |a| <= j {
        assert a[i] in a && b[j - |a|] in b;
      }
    }
  }

  /** A walk reports no path twice. */
  lemma {:induction false} ListingDistinct(rule: Rule, dir: Node, n: nat, prefix: string, depth: nat)
    requires dir.Directory? && n <= |dir.entries| && WellNamed(dir)
    ensures Distinct(Paths(Listing(rule, dir, n, prefix, depth)))
    decreases dir, n
  {
    if n > 0 {
      var e := dir.entries[n - 1];
      var path := Relative(prefix, e.name);
      var before, all := Listing(rule, dir, n - 1, prefix, depth), Listing(rule, dir, n, prefix, depth);
      var added := all[|before|..];
      ListingDistinct(rule, dir, n - 1, prefix, depth);
      if e.node.Directory? {
        ListingDistinct(rule, e.node, |e.node.entries|, path, depth + 1);
      }
      assert Distinct(Paths(added));
      forall i, j | 0 <= i < |before| && 0 <= j < |added|
        ensures before[i].path != added[j].path
      {
        EntriesApart(rule, dir, n, prefix, depth, i, |before| + j);
      }
      assert Paths(all) == Paths(before) + Paths(added);
      DistinctAppend(Paths(before), Paths(added));
    }
  }

  lemma EntriesApart(rule: Rule, dir: Node, n: nat, prefix: string, depth: nat, i: nat, j: nat)
    requires dir.Directory? && 0 < n <= |dir.entries| && WellNamed(dir)
    requires i < |Listing(rule, dir, n - 1, prefix, depth)| <= j < |Listing(rule, dir, n, prefix, depth)|
    ensures Listing(rule, dir, n, prefix, depth)[i].path != Listing(rule, dir, n, prefix, depth)[j].path
  {
    var e := dir.entries[n - 1];
    var path := Relative(prefix, e.name);
    var before, all := Listing(rule, dir, n - 1, prefix, depth), Listing(rule, dir, n, prefix, depth);
    ListedUnderEntry(rule, dir, n - 1, prefix, depth, i);
    var h :| 0 <= h < n - 1 && Under(before[i].path, Relative(prefix, dir.entries[h].name));
    UnderLast(rule, dir, n, prefix, depth, j);
    if all[i].path == all[j].path {
      UnderOne(all[j].path, prefix, dir.entries[h].name, e.name);
    }
  }

  lemma UnderLast(rule: Rule, dir: Node, n: nat, prefix: string, depth: nat, j: nat)
    requires dir.Directory? && 0 < n <= |dir.entries| && WellNamed(dir)
    requires |Listing(rule, dir, n - 1, prefix, depth)| <= j < |Listing(rule, dir, n, prefix, depth)|
    ensures Under(Listing(rule, dir, n, prefix, depth)[j].path, Relative(prefix, dir.entries[n - 1].name))
  {
    var e := dir.entries[n - 1];
    var path := Relative(prefix, e.name);
    var before := Listing(rule, dir, n - 1, prefix, depth);
    hide Under, UnderEntry;
    if e.node.Directory? {
      var m, k := |e.node.entries|, j - |before|;
      ListedUnderEntry(rule, e.node, m, path, depth + 1, k);
      UnderEntryUnder(e.node, m, path, Listing(rule, e.node, m, path, depth + 1)[k].path);
    } else {
      UnderItself(path);
    }
  }

  // ----- where names lead -----

  /** Following these names from the directory leads to the node. */
  ghost predicate Reaches(dir: Node, names: seq<string>, node: Node)
    decreases |names|, 0
  {
    dir.Directory? && names != [] && exists i :: 0 <= i < |dir.entries| && Enters(dir.entries[i], names, node)
  }

  ghost predicate Enters(e: Entry, names: seq<string>, node: Node)
    requires names != []
    decreases |names| - 1, 1
  {
    e.name == names[0] && if |names| == 1 then e.node == node else Reaches(e.node, names[1..], node)
  }

  function PathFrom(prefix: string, names: seq<string>): string
    decreases |names|
  {
    if names == [] then prefix else PathFrom(Relative(prefix, names[0]), names[1..])
  }

  // ----- the order in which directories are listed -----

  /** Entry `i` of the one directory has the name of entry `j` of the other. */
  predicate Namesakes(a: Node, b: Node, i: int, j: int)
    requires a.Directory? && b.Directory?
  {
    0 <= i < |a.entries| && 0 <= j < |b.entries| && a.entries[i].name == b.entries[j].name
  }

  ghost predicate HasName(dir: Node, name: string)
    requires dir.Directory?
  {
    exists i :: 0 <= i < |dir.entries| && dir.entries[i].name == name
  }

  /** The same tree, up to the order in which the directories list their entries. */
  ghost predicate Rearranged(a: Node, b: Node) {
    if a.Directory? && b.Directory? then
      && (forall name :: HasName(a, name) <==> HasName(b, name))
      && (forall i, j :: Namesakes(a, b, i, j) ==> Rearranged(a.entries[i].node, b.entries[j].node))
    else a == b
  }

  /** A rule that does not look into directories. */
  ghost predicate Shallow(rule: Rule) {
    forall name, path, a: Node, b: Node, depth :: (a == b || (a.Directory? && b.Directory?)) ==>
      rule(name, path, a, depth) == rule(name, path, b, depth)
  }

  /** What the walk makes of one entry. */
  function EntryListing(rule: Rule, e: Entry, prefix: string, depth: nat): seq<Item> {
    var path := Relative(prefix, e.name);
    if !rule(e.name, path, e.node, depth) then []
    else if e.node.Directory? then Listing(rule, e.node, |e.node.entries|, path, depth + 1)
    else [Item(path, e.node)]
  }

  ghost predicate ListedBelow(rule: Rule, dir: Node, n: nat, prefix: string, depth: nat, item: Item)
    requires dir.Directory? && n <= |dir.entries|
  {
    exists i :: 0 <= i < n && item in EntryListing(rule, dir.entries[i], prefix, depth)
  }

  lemma ListedBelowLast(rule: Rule, dir: Node, n: nat, prefix: string, depth: nat, item: Item)
    requires dir.Directory? && 0 < n <= |dir.entries|
    ensures ListedBelow(rule, dir, n, prefix, depth, item) <==>
              ListedBelow(rule, dir, n - 1, prefix, depth, item) || item in EntryListing(rule, dir.entries[n - 1], prefix, depth)
  {
    hide EntryListing;
    if ListedBelow(rule, dir, n, prefix, depth, item) {
      var i :| 0 <= i < n && item in EntryListing(rule, dir.entries[i], prefix, depth);
    }
  }

  lemma {:induction false} ListedSomewhere(rule: Rule, dir: Node, n: nat, prefix: string, depth: nat, item: Item)
    requires dir.Directory? && n <= |dir.entries|
    ensures item in Listing(rule, dir, n, prefix, depth) <==> ListedBelow(rule, dir, n, prefix, depth, item)
  {
    if n > 0 {
      ListedSomewhere(rule, dir, n - 1, prefix, depth, item);
      ListedBelowLast(rule, dir, n, prefix, depth, item);
      assert Listing(rule, dir, n, prefix, depth) ==
             Listing(rule, dir, n - 1, prefix, depth) + EntryListing(rule, dir.entries[n - 1], prefix, depth);
      hide EntryListing, Listing, ListedBelow;
    }
  }

  /** Every entry of the one tree has a namesake in the other. */
  lemma Namesake(a: Node, b: Node, i: nat) returns (j: nat)
    requires a.Directory? && b.Directory? && Rearranged(a, b) && i < |a.entries|
    ensures Namesakes(a, b, i, j) && Rearranged(a.entries[i].node, b.entries[j].node)
  {
    assert HasName(a, a.entries[i].name);
    j :| 0 <= j < |b.entries| && b.entries[j].name == a.entries[i].name;
    assert Namesakes(a, b, i, j);
  }

  lemma SameRule(rule: Rule, e: Entry, f: Entry, path: string, depth: nat)
    requires e.name == f.name && Rearranged(e.node, f.node) && Shallow(rule)
    ensures rule(e.name, path, e.node, depth) == rule(f.name, path, f.node, depth)
    ensures e.node.Directory? == f.node.Directory? && (!e.node.Directory? ==> e.node == f.node)
  {
  }

  /** A shallow walk reports the same items of rearranged trees. */
  lemma {:induction false} SameItems(rule: Rule, a: Node, b: Node, prefix: string, depth: nat, item: Item)
    requires a.Directory? && b.Directory? && Rearranged(a, b) && Shallow(rule)
    requires item in Listing(rule, a, |a.entries|, prefix, depth)
    ensures item in Listing(rule, b, |b.entries|, prefix, depth)
    decreases a
  {
    hide Listing, Rearranged, Shallow;
    ListedSomewhere(rule, a, |a.entries|, prefix, depth, item);
    ListedSomewhere(rule, b, |b.entries|, prefix, depth, item);
    var i :| 0 <= i < |a.entries| && item in EntryListing(rule, a.entries[i], prefix, depth);
    var j := Namesake(a, b, i);
    var e, f := a.entries[i], b.entries[j];
    var path := Relative(prefix, e.name);
    SameRule(rule, e, f, path, depth);
    if e.node.Directory? {
      SameItems(rule, e.node, f.node, path, depth + 1, item);
    }
    assert item in EntryListing(rule, f, prefix, depth);
  }

  lemma {:induction false} RearrangedBack(a: Node, b: Node)
    requires Rearranged(a, b)
    ensures Rearranged(b, a)
  {
    if a.Directory? && b.Directory? {
      forall i, j | Namesakes(b, a, i, j)
        ensures Rearranged(b.entries[i].node, a.entries[j].node)
      {
        assert Namesakes(a, b, j, i);
        RearrangedBack(a.entries[j].node, b.entries[i].node);
      }
    }
  }

  /** Rearranged trees are reported in some order, but with the same items. */
  lemma SameListing(rule: Rule, a: Node, b: Node)
    requires a.Directory? && b.Directory? && Rearranged(a, b) && Shallow(rule)
    ensures forall item :: item in WholeListing(rule, a) <==> item in WholeListing(rule, b)
  {
    RearrangedBack(a, b);
    hide Rearranged, Shallow, Listing;
    forall item
      ensures item in WholeListing(rule, a) <==> item in WholeListing(rule, b)
    {
      if item in WholeListing(rule, a) { SameItems(rule, a, b, "", 0, item); }
      if item in WholeListing(rule, b) { SameItems(rule, b, a, "", 0, item); }
    }
  }
}
