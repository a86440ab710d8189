/**
 What the copy holds when nothing but the copy itself changes the destination: everything written so far
 stays as it was written, and in the end the copy is the source's tree with all its metadata.
 */
module CopyFrame {
  import opened Prelude
  import opened FileTrees
  import opened TreeScan

  // ---------- while the copy is being made ----------

  /**
     This inode, new since `taken`, is the copy of the node.  Its row is the node's if the source's inode was
     still the recorded one when its reading was over.
     */
  ghost predicate CopyIs(h: seq<World>, nodes: Nodes, taken: set<Ino>, ino: Ino, node: Node)
    decreases node
  {
    && ino in nodes && ino !in taken && node.seen.until < |h|
    && (Has(h, node.seen.until, node.ino, node.seen.inode) ==> RowOf(nodes[ino].body) == node.row)
    && KidsCopied(h, nodes, taken, Entries(nodes[ino]), node.kids)
  }

  /** A directory's names are these nodes' and lead to their copies. */
  ghost predicate KidsCopied(h: seq<World>, nodes: Nodes, taken: set<Ino>, entries: map<Name, Ino>, kids: seq<Node>)
    decreases kids
  {
    && (forall n :: n in entries ==> Named(kids, n))
    && forall k :: 0 <= k < |kids| ==> kids[k].name in entries && CopyIs(h, nodes, taken, entries[kids[k].name], kids[k])
  }

  ghost predicate Untouched(a: Nodes, b: Nodes, taken: set<Ino>) {
    forall i :: i !in taken ==> SameAt(a, b, i)
  }

  /** A copy stays what it is while its inodes are left alone. */
  lemma {:induction false} CopyStays(h: seq<World>, a: Nodes, taken: set<Ino>, h': seq<World>, b: Nodes, taken': set<Ino>,
                                     ino: Ino, node: Node)
    requires CopyIs(h, a, taken, ino, node) && h <= h' && taken' <= taken && Untouched(a, b, taken)
    ensures CopyIs(h', b, taken', ino, node)
    decreases node
  {
    assert SameAt(a, b, ino);
    KidsStay(h, a, taken, h', b, taken', Entries(a[ino]), node.kids);
  }

  lemma {:induction false} KidsStay(h: seq<World>, a: Nodes, taken: set<Ino>, h': seq<World>, b: Nodes, taken': set<Ino>,
                                    entries: map<Name, Ino>, kids: seq<Node>)
    requires KidsCopied(h, a, taken, entries, kids) && h <= h' && taken' <= taken && Untouched(a, b, taken)
    ensures KidsCopied(h', b, taken', entries, kids)
    decreases kids
  {
    forall k | 0 <= k < |kids| ensures CopyIs(h', b, taken', entries[kids[k].name], kids[k]) {
      CopyStays(h, a, taken, h', b, taken', entries[kids[k].name], kids[k]);
    }
  }

  ghost predicate EmptyDirectory(nodes: Nodes, dst: Ino) {
    dst in nodes && nodes[dst].body.content == Dir(map[])
  }

  /** Since `a` the directory got the copies of these nodes, all new; nothing else changed. */
  ghost predicate Filled(h: seq<World>, a: Nodes, b: Nodes, dst: Ino, kids: seq<Node>) {
    && dst in a && dst in b && b[dst].body.content.Dir? && SameBut(a, b, dst)
    && KidsCopied(h, b, a.Keys, Entries(b[dst]), kids)
  }

  /** One more name of a directory leads to the copy of its node; nothing else that was there changed. */
  ghost predicate Placed(h: seq<World>, a: Nodes, b: Nodes, dst: Ino, made: Ino, node: Node) {
    Added(a, b, dst, node.name, made) && CopyIs(h, b, a.Keys, made, node)
  }

  /** A new name leads to a new file or link with this row. */
  ghost predicate Written(a: Nodes, b: Nodes, dst: Ino, name: Name, made: Ino, row: Row) {
    Added(a, b, dst, name, made) && RowOf(b[made].body) == row
  }

  lemma LeafPlaced(h: seq<World>, a: Nodes, b: Nodes, dst: Ino, made: Ino, node: Node)
    requires node.kids == [] && !node.row.DirRow? && node.seen.until < |h|
    ensures Written(a, b, dst, node.name, made, node.row) ==> Placed(h, a, b, dst, made, node)
  {
  }

  lemma FilledNot(h: seq<World>, a: Nodes, dst: Ino)
    requires EmptyDirectory(a, dst)
    ensures Filled(h, a, a, dst, [])
  {
  }

  lemma FilledLater(h: seq<World>, a: Nodes, b: Nodes, h': seq<World>, dst: Ino, kids: seq<Node>)
    requires Filled(h, a, b, dst, kids) && h <= h'
    ensures Filled(h', a, b, dst, kids)
  {
    KidsStay(h, b, a.Keys, h', b, a.Keys, Entries(b[dst]), kids);
  }

  lemma FilledNext(h: seq<World>, a: Nodes, b: Nodes, h': seq<World>, c: Nodes, dst: Ino, kids: seq<Node>,
                   made: Ino, node: Node)
    requires Filled(h, a, b, dst, kids) && h <= h' && Placed(h', b, c, dst, made, node)
    ensures Filled(h', a, c, dst, kids + [node])
  {
    forall i | i != dst ensures SameAt(a, c, i) {
      assert SameAt(a, b, i) && SameAt(b, c, i);
    }
    forall i ensures i in a ==> i in b {
      assert i != dst ==> SameAt(a, b, i);
    }
    forall i | i !in a.Keys ensures SameAt(b, c, i) {
    }
    KidsStay(h, b, a.Keys, h', c, a.Keys, Entries(b[dst]), kids);
    CopyStays(h', c, b.Keys, h', c, a.Keys, made, node);
    KidsPlusOne(h', c, a.Keys, Entries(b[dst]), kids, made, node);
  }

  lemma KidsPlusOne(h: seq<World>, nodes: Nodes, taken: set<Ino>, entries: map<Name, Ino>, kids: seq<Node>, made: Ino, node: Node)
    requires KidsCopied(h, nodes, taken, entries, kids) && CopyIs(h, nodes, taken, made, node) && node.name !in entries
    ensures KidsCopied(h, nodes, taken, entries[node.name := made], kids + [node])
  {
    var more, longer := kids + [node], entries[node.name := made];
    forall n | n in longer ensures Named(more, n) {
      if n == node.name {
        assert more[|kids|].name == n;
      } else {
        assert Named(kids, n);
        var k :| 0 <= k < |kids| && kids[k].name == n;
        assert more[k].name == n;
      }
    }
    forall k | 0 <= k < |more| ensures more[k].name in longer && CopyIs(h, nodes, taken, longer[more[k].name], more[k]) {
      assert k < |kids| ==> more[k] == kids[k];
    }
  }

  /** The directory's metadata is set at the end. */
  lemma FilledThenSet(h: seq<World>, a: Nodes, b: Nodes, h': seq<World>, c: Nodes, dst: Ino, meta: Meta, kids: seq<Node>)
    requires Filled(h, a, b, dst, kids) && h <= h' && Rewritten(b, c, dst, b[dst].body.(meta := meta))
    ensures Filled(h', a, c, dst, kids) && c[dst].body.meta == meta
  {
    forall i | i != dst ensures SameAt(a, c, i) {
      assert SameAt(a, b, i) && SameAt(b, c, i);
    }
    forall i | i !in a.Keys ensures SameAt(b, c, i) {
    }
    KidsStay(h, b, a.Keys, h', c, a.Keys, Entries(b[dst]), kids);
  }

  /** A new inode gets its contents after it got its name. */
  lemma AddedThenWritten(a: Nodes, b: Nodes, c: Nodes, dir: Ino, name: Name, ino: Ino)
    requires Added(a, b, dir, name, ino) && SameBut(b, c, ino) && ino in c
    ensures Added(a, c, dir, name, ino)
  {
    assert SameAt(b, c, dir);
    forall i | i != dir ensures SameAt(a, c, i) {
      assert SameAt(a, b, i) && (i != ino ==> SameAt(b, c, i));
    }
  }

  /** A finished subdirectory: its metadata is the row's if the source's directory was still the recorded one. */
  lemma DirectoryPlaced(h: seq<World>, a: Nodes, b: Nodes, h': seq<World>, c: Nodes, dst: Ino, made: Ino, node: Node,
                        n: nat, childAt: nat, child: Inode)
    requires Added(a, b, dst, node.name, made) && Filled(h, b, c, made, node.kids) && c[made].body.meta == child.body.meta
    requires h <= h' && Chain(h') && Tracked(h', n, node) && node.row.DirRow?
    requires node.seen.at <= childAt <= node.seen.until && Has(h', childAt, node.ino, child)
    ensures Placed(h', a, c, dst, made, node)
  {
    AddedThenWritten(a, b, c, dst, node.name, made);
    if Has(h', node.seen.until, node.ino, node.seen.inode) {
      UntouchedBetween(h', node.seen.at, childAt, node.seen.until, node.ino, node.seen.inode);
    }
    forall i ensures i in a ==> i in b {
      assert i != dst ==> SameAt(a, b, i);
    }
    KidsStay(h, c, b.Keys, h', c, a.Keys, Entries(c[made]), node.kids);
  }

  lemma RewrittenTwice(a: Nodes, b: Nodes, c: Nodes, ino: Ino, body: Body, body': Body)
    requires Rewritten(a, b, ino, body) && Rewritten(b, c, ino, body')
    ensures Rewritten(a, c, ino, body')
  {
    forall i | i != ino ensures SameAt(a, c, i) {
      assert SameAt(a, b, i) && SameAt(b, c, i);
    }
  }

  // ---------- when the source is known to have stayed the same ----------

  /** The inode holds what the node's row says, and so does everything below it. */
  ghost predicate Exact(nodes: Nodes, ino: Ino, node: Node)
    decreases node
  {
    ino in nodes && RowOf(nodes[ino].body) == node.row && ExactBelow(nodes, Entries(nodes[ino]), node.kids)
  }

  ghost predicate ExactBelow(nodes: Nodes, entries: map<Name, Ino>, kids: seq<Node>)
    decreases kids
  {
    && DistinctNames(kids) && (forall n :: n in entries ==> Named(kids, n))
    && forall k :: 0 <= k < |kids| ==> kids[k].name in entries && Exact(nodes, entries[kids[k].name], kids[k])
  }

  /** Every node of the source was still there at `t`, so every copy is exact. */
  lemma {:induction false} CopyIsExact(h: seq<World>, h': seq<World>, t: nat, nodes: Nodes, taken: set<Ino>, ino: Ino, node: Node)
    requires CopyIs(h, nodes, taken, ino, node) && h <= h' && Chain(h') && Tracked(h', t, node) && IsTree(h'[t], node)
    ensures Exact(nodes, ino, node)
    decreases node
  {
    UntouchedBetween(h', node.seen.at, node.seen.until, t, node.ino, node.seen.inode);
    KidsAreExact(h, h', t, nodes, taken, Entries(nodes[ino]), node.kids);
  }

  lemma {:induction false} KidsAreExact(h: seq<World>, h': seq<World>, t: nat, nodes: Nodes, taken: set<Ino>,
                                        entries: map<Name, Ino>, kids: seq<Node>)
    requires KidsCopied(h, nodes, taken, entries, kids) && h <= h' && Chain(h') && DistinctNames(kids) && t < |h'|
    requires forall k :: 0 <= k < |kids| ==> Tracked(h', t, kids[k]) && IsTree(h'[t], kids[k])
    ensures ExactBelow(nodes, entries, kids)
    decreases kids
  {
    forall k | 0 <= k < |kids| ensures Exact(nodes, entries[kids[k].name], kids[k]) {
      CopyIsExact(h, h', t, nodes, taken, entries[kids[k].name], kids[k]);
    }
  }

  // ---------- an exact copy has the same manifest ----------

  /** The same nodes, with the copy's inodes. */
  ghost function Imaged(nodes: Nodes, entries: map<Name, Ino>, kids: seq<Node>): seq<Node>
    requires ExactBelow(nodes, entries, kids)
    decreases kids
  {
    seq(|kids|, k requires 0 <= k < |kids| => Image(nodes, entries[kids[k].name], kids[k]))
  }

  ghost function Image(nodes: Nodes, ino: Ino, node: Node): Node
    requires Exact(nodes, ino, node)
    decreases node
  {
    Node(node.name, ino, node.row, Imaged(nodes, Entries(nodes[ino]), node.kids), Seen(nodes[ino], 0, 0))
  }

  lemma {:induction false} ImageRows(nodes: Nodes, entries: map<Name, Ino>, kids: seq<Node>, prefix: Path)
    requires ExactBelow(nodes, entries, kids)
    ensures Rows(prefix, Imaged(nodes, entries, kids)) == Rows(prefix, kids)
    decreases kids
  {
    var images := Imaged(nodes, entries, kids);
    RowsAlike(prefix, kids, images, |kids|, nodes, entries);
    assert images[..|kids|] == images && kids[..|kids|] == kids;
  }

  lemma {:induction false} RowsAlike(prefix: Path, kids: seq<Node>, images: seq<Node>, n: nat, nodes: Nodes, entries: map<Name, Ino>)
    requires ExactBelow(nodes, entries, kids) && images == Imaged(nodes, entries, kids) && n <= |kids|
    ensures Rows(prefix, images[..n]) == Rows(prefix, kids[..n])
    decreases kids, n
  {
    if n > 0 {
      RowsAlike(prefix, kids, images, n - 1, nodes, entries);
      var node, ino := kids[n - 1], entries[kids[n - 1].name];
      ImageRows(nodes, Entries(nodes[ino]), node.kids, prefix + [node.name]);
      assert images[..n][..n - 1] == images[..n - 1] && kids[..n][..n - 1] == kids[..n - 1];
    }
  }

  lemma ImagesAreNamed(nodes: Nodes, entries: map<Name, Ino>, kids: seq<Node>)
    requires ExactBelow(nodes, entries, kids)
    ensures KidsMatch(Imaged(nodes, entries, kids), entries)
  {
    var images := Imaged(nodes, entries, kids);
    forall n | n in entries ensures Named(images, n) {
      assert Named(kids, n);
      var k :| 0 <= k < |kids| && kids[k].name == n;
      assert images[k].name == n;
    }
  }

  lemma {:induction false} ImageIsTree(w: World, ino: Ino, node: Node)
    requires Exact(w.nodes, ino, node)
    ensures IsTree(w, Image(w.nodes, ino, node))
    decreases node
  {
    var entries := Entries(w.nodes[ino]);
    ImagesAreNamed(w.nodes, entries, node.kids);
    forall k | 0 <= k < |node.kids| ensures IsTree(w, Imaged(w.nodes, entries, node.kids)[k]) {
      ImageIsTree(w, entries[node.kids[k].name], node.kids[k]);
    }
  }

  /** An exact copy has the same manifest as the source. */
  lemma ExactGivesManifest(w: World, out: Ino, kids: seq<Node>)
    requires out in w.nodes && ExactBelow(w.nodes, Entries(w.nodes[out]), kids)
    ensures ManifestOf(w, out, Rows([], kids))
  {
    var entries := Entries(w.nodes[out]);
    ImagesAreNamed(w.nodes, entries, kids);
    forall k | 0 <= k < |kids| ensures IsTree(w, Imaged(w.nodes, entries, kids)[k]) {
      ImageIsTree(w, entries[kids[k].name], kids[k]);
    }
    TreeGivesManifest(w, out, Imaged(w.nodes, entries, kids));
    ImageRows(w.nodes, entries, kids, []);
  }

  /** Trees with the same manifest have the same paths with the same contents and metadata. */
  lemma OneManifestOneTree(a: World, root: Ino, b: World, out: Ino, entries: seq<Entry>, p: Path, row: Row)
    requires ManifestOf(a, root, entries) && ManifestOf(b, out, entries) && p != []
    requires PathShows(a, root, p, row)
    ensures PathShows(b, out, p, row)
  {
    assert HasRow(entries, p);
    var e :| e in entries && e.path == p;
    assert Describes(a, root, e) && Describes(b, out, e);
  }
}
