/**
 The readback of a finished copy: `verify_destination` reads every byte again, and every recorded inode is
 seen once more.  Then the whole of `copy_tree`.
 */
module CopyReadback {
  import opened Prelude
  import opened FileTrees
  import opened TreeScan
  import opened DirectoryScan
  import opened CopyFrame
  import opened CopyTree

  /** What a row of the copy must share with its source row. */
  predicate Agree(row: Row, copy: Row) {
    match row
    case FileRow(_, _) => copy == row
    case DirRow(_) => copy.DirRow?
    case LinkRow(target, _) => copy.LinkRow? && copy.target == target
    case NoRow => false
  }

  /** The copy's nodes: the same names, agreeing rows, all the way down. */
  ghost predicate Twins(kids: seq<Node>, twins: seq<Node>)
    decreases kids
  {
    |kids| == |twins| && forall k :: 0 <= k < |kids| ==>
                           && kids[k].name == twins[k].name && Agree(kids[k].row, twins[k].row)
                           && Twins(kids[k].kids, twins[k].kids)
  }

  ghost predicate RowExpected(expected: map<Path, Row>, e: Entry) {
    e.path in expected && expected[e.path] == e.row
  }

  ghost predicate Expected(expected: map<Path, Row>, prefix: Path, kids: seq<Node>) {
    forall e :: e in Rows(prefix, kids) ==> RowExpected(expected, e)
  }

  lemma ExpectedKid(expected: map<Path, Row>, prefix: Path, kids: seq<Node>, k: nat)
    requires Expected(expected, prefix, kids) && k < |kids|
    ensures RowExpected(expected, Entry(prefix + [kids[k].name], kids[k].row))
    ensures Expected(expected, prefix + [kids[k].name], kids[k].kids)
  {
    RowsOfKid(prefix, kids, k);
    assert Entry(prefix + [kids[k].name], kids[k].row) in NodeRows(prefix, kids[k]);
  }

  ghost predicate Witnessed(copied: map<Path, Signature>, s: (Path, Signature)) {
    s.0 in copied && copied[s.0] == s.1
  }

  ghost predicate WitnessedIn(copied: map<Path, Signature>, prefix: Path, twins: seq<Node>, s: (Path, Signature)) {
    s in Sigs(prefix, twins) ==> Witnessed(copied, s)
  }

  ghost predicate AllWitnessed(copied: map<Path, Signature>, prefix: Path, twins: seq<Node>) {
    forall s :: WitnessedIn(copied, prefix, twins, s)
  }

  class Readback {
    const fs: FileSystem
    const copied: map<Path, Signature>
    const names: map<Path, seq<Name>>
    const expected: map<Path, Row>

    constructor (fs: FileSystem, copied: map<Path, Signature>, names: map<Path, seq<Name>>, expected: map<Path, Row>)
      ensures this.fs == fs && this.copied == copied && this.names == names && this.expected == expected
    {
      this.fs, this.copied, this.names, this.expected := fs, copied, names, expected;
    }

    /** One file: bytes and metadata are the row's, from the witnessed inode. */
    method VerifyFile(dir: Ino, name: Name, sig: Signature, row: Row, ghost at: nat, ghost inode: Inode)
      returns (ok: bool)
      requires fs.Valid() && at <= fs.Now() && Recorded(fs.history, at, sig.ino, inode, sig) && row.FileRow?
      modifies fs
      ensures fs.Onward() && fs.Still()
      ensures ok ==> row == RowOf(inode.body)
    {
      ok := OpenSame(fs, dir, name, sig);
      if !ok {
        return;
      }
      var data;
      ok, data := ReadAll(fs, sig.ino, |row.bytes|, at, inode);
      ghost var read := fs.Now();
      if !ok || data != row.bytes || sig.stat.owner != row.meta.owner {
        return false;
      }
      var xattrs := fs.Attributes(sig.ino);
      ghost var listed := fs.Now();
      var held := fs.Fstat(sig.ino);
      if held != Some(sig) || xattrs != Some(row.meta.xattrs) {
        return false;
      }
      UntouchedBetween(fs.history, at, read, fs.Now(), sig.ino, inode);
      UntouchedBetween(fs.history, at, listed, fs.Now(), sig.ino, inode);
      var late := fs.StatAt(dir, name);
      ok := late == Some(sig);
    }

    /** One name of the copy has been compared with its row. */
    ghost predicate Compared(h: seq<World>, n: nat, dir: Ino, dirAt: nat, dirInode: Inode, prefix: Path, kid: Node, twin: Node) {
      && EntryRead(h, n, dir, dirAt, dirInode, twin) && twin.name == kid.name
      && Agree(kid.row, twin.row) && Twins(kid.kids, twin.kids)
      && forall s :: s in NodeSigs(prefix, twin) ==> Witnessed(copied, s)
    }

    method VerifyLeaf(dir: Ino, rel: Path, sig: Signature, row: Row, ghost p: Place)
      returns (ok: bool, ghost twin: Node)
      requires fs.Valid() && rel != [] && PlaceHolds(fs.history, fs.Now(), dir, p, rel[|rel| - 1], sig)
      requires !row.DirRow?
      modifies fs
      ensures fs.Onward() && fs.Still()
      ensures ok ==> EntryRead(fs.history, fs.Now(), dir, p.dirAt, p.dir, twin) && twin.name == rel[|rel| - 1]
      ensures ok ==> twin.kids == [] && Agree(row, twin.row) && twin.ino == sig.ino && twin.seen.inode == p.inode
    {
      var name := rel[|rel| - 1];
      twin := Node(name, sig.ino, row, [], Seen(p.inode, p.at, fs.Now()));
      match row {
        case FileRow(_, _) =>
          ok := VerifyFile(dir, name, sig, row, p.at, p.inode);
        case LinkRow(target, _) =>
          var actual := fs.ReadLink(dir, name);
          ok := actual == Some(target);
          twin := twin.(row := LinkRow(target, p.inode.body.meta));
          if ok && Has(fs.history, fs.Now(), dir, p.dir) {
            UntouchedBetween(fs.history, p.dirAt, p.at, fs.Now(), dir, p.dir);
          }
        case DirRow(_) =>
          ok := false;
        case NoRow =>
          ok := false;
      }
      twin := twin.(seen := Seen(p.inode, p.at, fs.Now()));
    }

    method VerifyName(dir: Ino, prefix: Path, name: Name, depth: nat, ghost kid: Node, ghost dirAt: nat, ghost dirInode: Inode)
      returns (ok: bool, ghost twin: Node)
      requires fs.Valid() && depth <= MAX_DEPTH && kid.name == name
      requires dirAt <= fs.Now() && Has(fs.history, dirAt, dir, dirInode)
      requires PlannedNode(names, prefix, kid) && RowExpected(expected, Entry(prefix + [name], kid.row))
      requires Expected(expected, prefix + [name], kid.kids)
      modifies fs
      ensures fs.Onward() && fs.Still()
      ensures ok ==> Compared(fs.history, fs.Now(), dir, dirAt, dirInode, prefix, kid, twin)
      decreases MAX_DEPTH + 1 - depth, 1
    {
      var rel := prefix + [name];
      var row := expected[rel];
      twin := kid;
      var stat := fs.StatAt(dir, name);
      if rel !in copied || stat != Some(copied[rel]) {
        return false, twin;
      }
      var sig := stat.value;
      ghost var p := Place(dirAt, dirInode, fs.Now(), fs.world.nodes[sig.ino]);
      if row.DirRow? {
        ok, twin := VerifySubdirectory(dir, prefix, name, sig, depth, kid, p);
      } else {
        ok, twin := VerifyLeaf(dir, rel, sig, row, p);
      }
    }

    method VerifySubdirectory(dir: Ino, prefix: Path, name: Name, sig: Signature, depth: nat, ghost kid: Node, ghost p: Place)
      returns (ok: bool, ghost twin: Node)
      requires fs.Valid() && depth <= MAX_DEPTH && kid.name == name && kid.row.DirRow?
      requires PlaceHolds(fs.history, fs.Now(), dir, p, name, sig)
      requires Witnessed(copied, (prefix + [name], sig))
      requires PlannedNode(names, prefix, kid) && Expected(expected, prefix + [name], kid.kids)
      modifies fs
      ensures fs.Onward() && fs.Still()
      ensures ok ==> Compared(fs.history, fs.Now(), dir, p.dirAt, p.dir, prefix, kid, twin)
      decreases MAX_DEPTH + 1 - depth, 0
    {
      var rel := prefix + [name];
      twin := kid;
      var child := fs.OpenAt(dir, name, Directory);
      if child.None? {
        return false, twin;
      }
      ghost var twins, childAt, childInode;
      ok, twins, childAt, childInode := VerifyDirectory(child.value, rel, depth + 1, kid.kids);
      if !ok {
        return;
      }
      twin := Node(name, sig.ino, RowOf(p.inode.body), twins, Seen(p.inode, p.at, fs.Now()));
      forall s | s in NodeSigs(prefix, twin) ensures Witnessed(copied, s) {
        assert WitnessedIn(copied, rel, twins, s);
      }
      SubdirectoryRead(fs.history, fs.Now(), fs.history, fs.Now(), twin, childAt, childInode);
    }

    /** The first names of a directory have been compared. */
    ghost predicate ComparedSoFar(h: seq<World>, n: nat, dir: Ino, at: nat, inode: Inode, prefix: Path,
                                  kids: seq<Node>, i: nat, twins: seq<Node>)
    {
      && i <= |kids| && prefix in names && |names[prefix]| == |kids|
      && EntriesSoFar(h, n, dir, at, inode, names[prefix][..i], twins)
      && Twins(kids[..i], twins) && AllWitnessed(copied, prefix, twins)
    }

    lemma ComparedNext(h: seq<World>, n: nat, h': seq<World>, n': nat, dir: Ino, at: nat, inode: Inode, prefix: Path,
                       kids: seq<Node>, i: nat, twins: seq<Node>, twin: Node)
      requires ComparedSoFar(h, n, dir, at, inode, prefix, kids, i, twins) && i < |kids|
      requires h <= h' && Chain(h') && n <= n' < |h'|
      requires names[prefix][i] == kids[i].name
      requires Compared(h', n', dir, at, inode, prefix, kids[i], twin)
      ensures ComparedSoFar(h', n', dir, at, inode, prefix, kids, i + 1, twins + [twin])
    {
      EntriesSoFarNext(h, n, h', n', dir, at, inode, names[prefix], i, twins, twin);
      RowsSnoc(prefix, twins, twin);
      var more := twins + [twin];
      forall s ensures WitnessedIn(copied, prefix, more, s) {
        assert WitnessedIn(copied, prefix, twins, s);
      }
      forall k | 0 <= k < i + 1
        ensures kids[k].name == more[k].name && Agree(kids[k].row, more[k].row) && Twins(kids[k].kids, more[k].kids)
      {
        if k < i {
          assert kids[..i][k] == kids[k] && more[k] == twins[k];
        }
      }
    }

    method VerifyNames(dir: Ino, prefix: Path, depth: nat, ghost kids: seq<Node>, ghost at: nat, ghost inode: Inode)
      returns (ok: bool, ghost twins: seq<Node>)
      requires fs.Valid() && depth <= MAX_DEPTH
      requires Planned(names, prefix, kids) && Expected(expected, prefix, kids)
      requires at <= fs.Now() && Has(fs.history, at, dir, inode)
      modifies fs
      ensures fs.Onward() && fs.Still()
      ensures ok ==> EntriesSoFar(fs.history, fs.Now(), dir, at, inode, names[prefix], twins)
      ensures ok ==> Twins(kids, twins) && AllWitnessed(copied, prefix, twins)
      decreases MAX_DEPTH + 1 - depth, 2
    {
      twins := [];
      forall s ensures WitnessedIn(copied, prefix, [], s) {
      }
      var listing := names[prefix];
      for i := 0 to |listing|
        invariant fs.Onward() && fs.Still()
        invariant ComparedSoFar(fs.history, fs.Now(), dir, at, inode, prefix, kids, i, twins)
      {
        ExpectedKid(expected, prefix, kids, i);
        ghost var h, n := fs.history, fs.Now();
        ghost var twin;
        ok, twin := VerifyName(dir, prefix, listing[i], depth, kids[i], at, inode);
        if !ok {
          return;
        }
        ComparedNext(h, n, fs.history, fs.Now(), dir, at, inode, prefix, kids, i, twins, twin);
        twins := twins + [twin];
      }
      assert listing[..|kids|] == listing && kids[..|kids|] == kids;
      ok := true;
    }

    method VerifyDirectory(dir: Ino, prefix: Path, depth: nat, ghost kids: seq<Node>)
      returns (ok: bool, ghost twins: seq<Node>, ghost at: nat, ghost inode: Inode)
      requires fs.Valid() && depth <= MAX_DEPTH + 1
      requires Planned(names, prefix, kids) && Expected(expected, prefix, kids)
      modifies fs
      ensures fs.Onward() && fs.Still()
      ensures ok ==> |old(fs.history)| <= at + 1 <= |fs.history|
      ensures ok ==> prefix in copied && SigOf(dir, inode) == copied[prefix] && inode.body.content.Dir?
      ensures ok ==> DirRead(fs.history, at, fs.Now(), dir, inode, twins) && AllTracked(fs.history, fs.Now(), twins)
      ensures ok ==> Twins(kids, twins) && AllWitnessed(copied, prefix, twins)
      decreases MAX_DEPTH + 1 - depth, 3
    {
      twins, at, inode := [], 0, Inode(Body(Special, Meta(Owner(0, 0, 0, 0), map[]), 0), 0);
      var before := fs.Fstat(dir);
      if depth > MAX_DEPTH || prefix !in copied || before != Some(copied[prefix]) {
        return false, twins, at, inode;
      }
      at, inode := fs.Now(), fs.world.nodes[dir];
      var observed := fs.List(dir);
      if observed.None? || !SameNames(observed.value, names[prefix]) {
        return false, twins, at, inode;
      }
      ghost var listed := fs.Now();
      ListedAs(observed.value, names[prefix], Entries(fs.world.nodes[dir]).Keys);
      ok, twins := VerifyNames(dir, prefix, depth, kids, at, inode);
      if !ok {
        return;
      }
      ok := CloseRead(fs, dir, names[prefix], copied[prefix], at, inode, listed, twins);
      if ok {
        UntouchedBetween(fs.history, at, listed, fs.Now(), dir, inode);
      }
    }
  }

  // ---------- what the copy is at the end ----------

  /** The copy below `root` in this world: the listed paths and no others, each agreeing with its row. */
  ghost predicate CopyOf(w: World, root: Ino, entries: seq<Entry>) {
    && (forall e :: e in entries ==> CopyShows(w, root, e))
    && (forall p :: p != [] && Resolve(w, root, p).Some? ==> HasRow(entries, p))
  }

  ghost predicate CopyShows(w: World, root: Ino, e: Entry) {
    match Resolve(w, root, e.path)
    case None => false
    case Some(i) => i in w.nodes && Agree(e.row, RowOf(w.nodes[i].body))
  }

  ghost predicate HasTwinRow(rows: seq<Entry>, e: Entry) {
    exists t :: t in rows && t.path == e.path && Agree(e.row, t.row)
  }

  lemma {:induction false} RowsHaveTwins(prefix: Path, kids: seq<Node>, twins: seq<Node>, e: Entry)
    requires Twins(kids, twins) && e in Rows(prefix, kids)
    ensures HasTwinRow(Rows(prefix, twins), e)
    decreases kids
  {
    var k := RowHasKid(prefix, kids, e);
    var rel := prefix + [kids[k].name];
    RowsOfKid(prefix, twins, k);
    if e == Entry(rel, kids[k].row) {
      assert Entry(rel, twins[k].row) in NodeRows(prefix, twins[k]);
    } else {
      RowsHaveTwins(rel, kids[k].kids, twins[k].kids, e);
      var t :| t in Rows(rel, twins[k].kids) && t.path == e.path && Agree(e.row, t.row);
      assert t in NodeRows(prefix, twins[k]);
    }
  }

  lemma {:induction false} TwinsHaveRows(prefix: Path, kids: seq<Node>, twins: seq<Node>, t: Entry)
    requires Twins(kids, twins) && t in Rows(prefix, twins)
    ensures HasRow(Rows(prefix, kids), t.path)
    decreases kids
  {
    var k := RowHasKid(prefix, twins, t);
    var rel := prefix + [twins[k].name];
    RowsOfKid(prefix, kids, k);
    if t == Entry(rel, twins[k].row) {
      assert Entry(rel, kids[k].row) in NodeRows(prefix, kids[k]);
    } else {
      TwinsHaveRows(rel, kids[k].kids, twins[k].kids, t);
      var e :| e in Rows(rel, kids[k].kids) && e.path == t.path;
      assert e in NodeRows(prefix, kids[k]);
    }
  }

  lemma TwinsAreACopy(w: World, root: Ino, kids: seq<Node>, twins: seq<Node>)
    requires Twins(kids, twins) && ManifestOf(w, root, Rows([], twins))
    ensures CopyOf(w, root, Rows([], kids))
  {
    forall e | e in Rows([], kids) ensures CopyShows(w, root, e) {
      RowsHaveTwins([], kids, twins, e);
      var t :| t in Rows([], twins) && t.path == e.path && Agree(e.row, t.row);
      assert Describes(w, root, t);
    }
    forall p | p != [] && Resolve(w, root, p).Some? ensures HasRow(Rows([], kids), p) {
      assert HasRow(Rows([], twins), p);
      var t :| t in Rows([], twins) && t.path == p;
      TwinsHaveRows([], kids, twins, t);
    }
  }

  /** `expected_entries`. */
  method ByPath(entries: seq<Entry>) returns (expected: map<Path, Row>)
    requires DistinctPaths(entries)
    ensures forall e :: e in entries ==> RowExpected(expected, e)
  {
    expected := map[];
    for i := 0 to |entries|
      invariant forall k :: 0 <= k < i ==> RowExpected(expected, entries[k])
    {
      forall k | 0 <= k < i ensures entries[k].path != entries[i].path {
      }
      expected := expected[entries[i].path := entries[i].row];
    }
  }

  /** The items of `destination_witness`. */
  method Witnesses(copied: map<Path, Signature>) returns (sigs: seq<(Path, Signature)>)
    ensures forall p :: p in copied ==> (p, copied[p]) in sigs
  {
    sigs := [];
    var todo := copied.Keys;
    while todo != {}
      invariant todo <= copied.Keys
      invariant forall p :: p in copied && p !in todo ==> (p, copied[p]) in sigs
      decreases |todo|
    {
      var path :| path in todo;
      todo := todo - {path};
      sigs := sigs + [(path, copied[path])];
    }
  }

  /**
     Each listed path, and the copy itself, leads to the very inode, unchanged, whose signature was recorded when
     it was copied.
     */
  ghost predicate AsCopied(w: World, root: Ino, entries: seq<Entry>, copied: map<Path, Signature>) {
    && ([] in copied && SignatureAt(w, root, [], copied[[]]))
    && forall e :: e in entries ==> e.path in copied && SignatureAt(w, root, e.path, copied[e.path])
  }

  /** The two trees have one manifest, and their roots the same metadata. */
  ghost predicate SameTree(a: World, root: Ino, b: World, out: Ino, entries: seq<Entry>) {
    && ManifestOf(a, root, entries) && ManifestOf(b, out, entries)
    && root in a.nodes && out in b.nodes && a.nodes[root].body.meta == b.nodes[out].body.meta
  }

  /** What the source pass left: every copy is exact, and the copy's root has the source root's metadata. */
  ghost predicate CopiedExactly(a: World, root: Ino, nodes: Nodes, out: Ino, kids: seq<Node>) {
    && root in a.nodes && out in nodes && a.nodes[root].body.meta == nodes[out].body.meta
    && ExactBelow(nodes, Entries(nodes[out]), kids)
  }

  lemma SourceGivesExact(h: seq<World>, t: nat, h': seq<World>, root: Ino, kids: seq<Node>, a: Nodes, b: Nodes, out: Ino)
    requires Filled(h, a, b, out, kids) && AllTracked(h, t, kids) && h <= h' && Chain(h') && t < |h|
    requires TreeBelow(h'[t], root, kids)
    ensures ExactBelow(b, Entries(b[out]), kids)
  {
    AllTrackedLater(h, t, h', t, kids);
    forall k: nat | k < |kids| ensures Tracked(h', t, kids[k]) && IsTree(h'[t], kids[k]) {
      assert TrackedAt(h', t, kids, k);
    }
    KidsAreExact(h, h', t, b, a.Keys, Entries(b[out]), kids);
  }

  /** The pass itself, before anything is rechecked. */
  method CopyPass(copier: Copier, root: Ino, out: Ino) returns (ok: bool, ghost kids: seq<Node>, ghost inode: Inode)
    requires copier.Valid() && copier.entries == [] && copier.sigs == [] && copier.names == map[]
    requires copier.count == 0
    requires !copier.destination.disturbed ==> EmptyDirectory(copier.destination.world.nodes, out)
    modifies copier, copier.source, copier.destination
    ensures ok ==> copier.Onward() && copier.entries == Rows([], kids) && copier.sigs == Sigs([], kids)
    ensures ok ==> Planned(copier.names, [], kids) && copier.count == |copier.entries| <= copier.limits.maxFiles
    ensures ok ==> Has(copier.source.history, copier.source.Now(), root, inode) && KidsMatch(kids, Entries(inode))
    ensures ok ==> AllTracked(copier.source.history, copier.source.Now(), kids)
    ensures ok ==> copier.FilledSince(old(copier.destination.world.nodes), out, kids)
    ensures ok && !copier.destination.disturbed ==> copier.destination.world.nodes[out].body.meta == inode.body.meta
  {
    ghost var at;
    ok, kids, at, inode := copier.Visit(root, out, [], 0);
  }

  /** The recheck of the source, with what it says of a copy that nothing else has changed. */
  method RecheckSource(source: FileSystem, root: Ino, sigs: seq<(Path, Signature)>, ghost inode: Inode, ghost kids: seq<Node>,
                       ghost quiet: bool, ghost a: Nodes, ghost b: Nodes, ghost out: Ino) returns (ok: bool)
    requires source.Valid() && Has(source.history, source.Now(), root, inode) && KidsMatch(kids, Entries(inode))
    requires AllTracked(source.history, source.Now(), kids) && sigs == Sigs([], kids)
    requires quiet ==> Filled(source.history, a, b, out, kids) && b[out].body.meta == inode.body.meta
    modifies source
    ensures source.Onward()
    ensures ok ==> ManifestOf(source.history[|old(source.history)| - 1], root, Rows([], kids))
    ensures ok && quiet ==> CopiedExactly(source.history[|old(source.history)| - 1], root, b, out, kids)
  {
    ghost var h, t := source.history, source.Now();
    ok := RecheckScan(source, root, sigs, inode, kids);
    if ok && quiet {
      SourceGivesExact(h, t, source.history, root, kids, a, b, out);
    }
  }

  /** The source side: one pass and one recheck give the manifest of one instant. */
  method CopySource(copier: Copier, root: Ino, out: Ino) returns (ok: bool, ghost kids: seq<Node>, ghost t: nat)
    requires copier.Valid() && copier.entries == [] && copier.sigs == [] && copier.names == map[]
    requires copier.count == 0
    requires !copier.destination.disturbed ==> EmptyDirectory(copier.destination.world.nodes, out)
    modifies copier, copier.source, copier.destination
    ensures ok ==> copier.Onward()
    ensures ok ==> copier.entries == Rows([], kids) && Planned(copier.names, [], kids) && DistinctPaths(copier.entries)
    ensures ok ==> |old(copier.source.history)| - 1 <= t < |copier.source.history|
    ensures ok ==> ManifestOf(copier.source.history[t], root, copier.entries)
    ensures ok && !copier.destination.disturbed ==>
              CopiedExactly(copier.source.history[t], root, copier.destination.world.nodes, out, kids)
    ensures ok ==> copier.count == |copier.entries| <= copier.limits.maxFiles
  {
    t := 0;
    ghost var inode;
    ok, kids, inode := CopyPass(copier, root, out);
    if ok {
      t := copier.source.Now();
      ok := RecheckSource(copier.source, root, copier.sigs, inode, kids, !copier.destination.disturbed,
                          old(copier.destination.world.nodes), copier.destination.world.nodes, out);
    }
  }

  lemma WitnessedRows(w: World, prefix: Path, dir: Ino, kids: seq<Node>, twins: seq<Node>, copied: map<Path, Signature>, e: Entry)
    requires Twins(kids, twins) && e in Rows(prefix, kids) && TreeBelow(w, dir, twins) && AllWitnessed(copied, prefix, twins)
    ensures e.path in copied && |prefix| <= |e.path| && SignatureAt(w, dir, e.path[|prefix|..], copied[e.path])
  {
    RowsHaveTwins(prefix, kids, twins, e);
    var t :| t in Rows(prefix, twins) && t.path == e.path && Agree(e.row, t.row);
    var s := RowHasSig(prefix, twins, t);
    assert WitnessedIn(copied, prefix, twins, s);
    EverySignatureIsThere(w, prefix, dir, twins, s);
  }

  lemma {:induction false} RowHasSig(prefix: Path, twins: seq<Node>, t: Entry) returns (s: (Path, Signature))
    requires t in Rows(prefix, twins)
    ensures s in Sigs(prefix, twins) && s.0 == t.path
    decreases twins
  {
    var k := RowHasKid(prefix, twins, t);
    var rel := prefix + [twins[k].name];
    SigsOfKid(prefix, twins, k);
    s := (rel, SigOf(twins[k].ino, twins[k].seen.inode));
    if t != Entry(rel, twins[k].row) {
      s := RowHasSig(rel, twins[k].kids, t);
    }
    assert s in NodeSigs(prefix, twins[k]);
  }

  ghost predicate RootWitnessed(w: World, out: Ino, copied: map<Path, Signature>) {
    [] in copied && out in w.nodes && SigOf(out, w.nodes[out]) == copied[[]]
  }

  lemma ReadbackIsACopy(w: World, out: Ino, kids: seq<Node>, twins: seq<Node>, copied: map<Path, Signature>)
    ensures Twins(kids, twins) && TreeBelow(w, out, twins) && AllWitnessed(copied, [], twins) && RootWitnessed(w, out, copied) ==>
              CopyOf(w, out, Rows([], kids)) && AsCopied(w, out, Rows([], kids), copied)
  {
    if Twins(kids, twins) && TreeBelow(w, out, twins) && AllWitnessed(copied, [], twins) && RootWitnessed(w, out, copied) {
      TreeGivesManifest(w, out, twins);
      TwinsAreACopy(w, out, kids, twins);
      forall e | e in Rows([], kids) ensures e.path in copied && SignatureAt(w, out, e.path, copied[e.path]) {
        WitnessedRows(w, [], out, kids, twins, copied, e);
        assert e.path[0..] == e.path;
      }
    }
  }

  /** The readback pass, against the rows by path. */
  method ReadBackAll(fs: FileSystem, out: Ino, copied: map<Path, Signature>, names: map<Path, seq<Name>>,
                     entries: seq<Entry>, ghost kids: seq<Node>) returns (ok: bool, ghost twins: seq<Node>, ghost inode: Inode)
    requires fs.Valid() && Planned(names, [], kids) && entries == Rows([], kids) && DistinctPaths(entries)
    modifies fs
    ensures fs.Onward() && fs.Still()
    ensures ok ==> Has(fs.history, fs.Now(), out, inode) && KidsMatch(twins, Entries(inode))
    ensures ok ==> AllTracked(fs.history, fs.Now(), twins) && Twins(kids, twins) && AllWitnessed(copied, [], twins)
    ensures ok ==> RootWitnessed(fs.world, out, copied)
  {
    var expected := ByPath(entries);
    var readback := new Readback(fs, copied, names, expected);
    ghost var at;
    ok, twins, at, inode := readback.VerifyDirectory(out, [], 0, kids);
  }

  /** The last loop over `destination_witness`. */
  method RecheckCopied(fs: FileSystem, out: Ino, copied: map<Path, Signature>, ghost inode: Inode, ghost kids: seq<Node>,
                       ghost twins: seq<Node>) returns (ok: bool)
    requires fs.Valid() && Has(fs.history, fs.Now(), out, inode) && KidsMatch(twins, Entries(inode))
    requires AllTracked(fs.history, fs.Now(), twins) && Twins(kids, twins) && AllWitnessed(copied, [], twins)
    requires RootWitnessed(fs.world, out, copied)
    modifies fs
    ensures fs.Onward() && fs.Still()
    ensures ok ==> CopyOf(old(fs.world), out, Rows([], kids)) && AsCopied(old(fs.world), out, Rows([], kids), copied)
  {
    var sigs := Witnesses(copied);
    forall s | s in Sigs([], twins) ensures s in sigs {
      assert WitnessedIn(copied, [], twins, s);
    }
    ok := RecheckScan(fs, out, sigs, inode, twins);
    ReadbackIsACopy(old(fs.world), out, kids, twins, copied);
  }

  /**
     The destination side: after the full readback and the last recheck the copy is right at one instant, the
     one at which the readback ended, and every inode of it is as it was when it was copied.
     */
  method VerifyCopy(fs: FileSystem, out: Ino, copied: map<Path, Signature>, names: map<Path, seq<Name>>,
                    entries: seq<Entry>, ghost kids: seq<Node>) returns (ok: bool, ghost t: nat)
    requires fs.Valid() && Planned(names, [], kids) && entries == Rows([], kids) && DistinctPaths(entries)
    modifies fs
    ensures fs.Onward() && fs.Still()
    ensures ok ==> |old(fs.history)| - 1 <= t < |fs.history|
    ensures ok ==> CopyOf(fs.history[t], out, entries) && AsCopied(fs.history[t], out, entries, copied)
    ensures ok && !fs.disturbed ==> fs.history[t].nodes == fs.world.nodes
  {
    t := 0;
    ghost var twins, inode;
    ok, twins, inode := ReadBackAll(fs, out, copied, names, entries, kids);
    if ok {
      t := fs.Now();
      ghost var h, w := fs.history, fs.world;
      assert h[t] == w;
      ok := RecheckCopied(fs, out, copied, inode, kids, twins);
      assert fs.history[t] == h[t];
    }
  }

  // ---------- when the copy has the source's metadata ----------

  /** The recorded signature has the row's owner, mode and time. */
  predicate OwnerRecorded(copied: map<Path, Signature>, e: Entry) {
    e.path in copied && !e.row.NoRow? && copied[e.path].stat.owner == e.row.meta.owner
  }

  lemma SameInode(h: seq<World>, b: nat, t: nat, sig: Signature)
    requires Chain(h) && t < |h| && b < |h| && sig.ino in h[b].nodes && SigOf(sig.ino, h[b].nodes[sig.ino]) == sig
    requires sig.ino in h[t].nodes && SigOf(sig.ino, h[t].nodes[sig.ino]) == sig
    ensures h[t].nodes[sig.ino] == h[b].nodes[sig.ino]
  {
    if b <= t {
      UntouchedBetween(h, b, b, t, sig.ino, h[b].nodes[sig.ino]);
    } else {
      UntouchedBetween(h, t, t, b, sig.ino, h[t].nodes[sig.ino]);
    }
  }

  /**
     In a verified copy a path shows its whole row, all metadata included, exactly if two comparisons hold that
     `copy_tree` does not make: the recorded signature has the row's owner, mode and time, and the inode had the
     row's attributes when the signature was recorded.
     */
  lemma RowCopiedIff(h: seq<World>, since: nat, t: nat, out: Ino, entries: seq<Entry>, copied: map<Path, Signature>, e: Entry)
    returns (b: nat)
    requires Chain(h) && AllSeen(h, since, copied) && t < |h| && e in entries
    requires CopyOf(h[t], out, entries) && AsCopied(h[t], out, entries, copied)
    ensures SeenAt(h, since, b, copied[e.path])
    ensures PathShows(h[t], out, e.path, e.row) <==>
              OwnerRecorded(copied, e) && h[b].nodes[copied[e.path].ino].body.meta.xattrs == e.row.meta.xattrs
    ensures e.row.FileRow? ==> PathShows(h[t], out, e.path, e.row)
  {
    var sig := copied[e.path];
    assert CopySeen(h, since, copied, e.path);
    b :| SeenAt(h, since, b, sig);
    SameInode(h, b, t, sig);
    assert CopyShows(h[t], out, e);
  }

  ghost predicate OwnersRecorded(copied: map<Path, Signature>, entries: seq<Entry>) {
    forall e :: e in entries ==> OwnerRecorded(copied, e)
  }

  /** Nothing outside changed the destination: the copy is the source's tree, and the recorded signatures say so. */
  lemma QuietCopy(a: World, root: Ino, w: World, out: Ino, kids: seq<Node>, copied: map<Path, Signature>)
    requires ManifestOf(a, root, Rows([], kids)) && CopiedExactly(a, root, w.nodes, out, kids)
    requires CopyOf(w, out, Rows([], kids)) && AsCopied(w, out, Rows([], kids), copied)
    ensures SameTree(a, root, w, out, Rows([], kids)) && OwnersRecorded(copied, Rows([], kids))
  {
    ExactGivesManifest(w, out, kids);
    forall e | e in Rows([], kids) ensures OwnerRecorded(copied, e) {
      assert Describes(w, out, e) && CopyShows(w, out, e);
    }
  }

  /** Everything after the destination directory was made. */
  method CopyInto(limits: Limits, source: FileSystem, root: Ino, destination: FileSystem, out: Ino)
    returns (ok: bool, entries: seq<Entry>, count: nat, ghost copied: map<Path, Signature>, ghost read: nat, ghost t: nat)
    requires source != destination && source.Valid() && destination.Valid()
    requires !destination.disturbed ==> EmptyDirectory(destination.world.nodes, out)
    modifies source, destination
    ensures ok ==> source.Onward() && destination.Onward()
    ensures ok ==> |old(source.history)| - 1 <= read < |source.history| && ManifestOf(source.history[read], root, entries)
    ensures ok ==> |old(destination.history)| - 1 <= t < |destination.history|
    ensures ok ==> CopyOf(destination.history[t], out, entries) && AsCopied(destination.history[t], out, entries, copied)
    ensures ok ==> AllSeen(destination.history, |old(destination.history)| - 1, copied)
    ensures ok && !destination.disturbed ==>
              && SameTree(source.history[read], root, destination.history[t], out, entries)
              && destination.world.nodes == destination.history[t].nodes && OwnersRecorded(copied, entries)
    ensures ok ==> count == |entries| <= limits.maxFiles
  {
    var copier := new Copier(limits, root.dev, source, destination);
    ghost var kids;
    ok, kids, read := CopySource(copier, root, out);
    entries, count, copied, t := copier.entries, copier.count, copier.copied, 0;
    if !ok {
      return;
    }
    ghost var h := destination.history;
    ok, t := VerifyCopy(destination, out, copier.copied, copier.names, entries, kids);
    AllSeenLater(h, destination.history, |old(destination.history)| - 1, copied);
    if ok && !destination.disturbed {
      QuietCopy(source.history[read], root, destination.history[t], out, kids, copied);
    }
  }

  /**
     `copy_tree`.  When it succeeds there is one instant at which the whole source tree was the returned
     manifest, each node listed once, and one at which the whole copy agreed with it and had not changed since it
     was recorded, whatever anything else did to either tree meanwhile.  If nothing else changed anything in the
     destination, the copy is the source's tree with all its metadata, and is so when the call returns.
     */
  method Copy(limits: Limits, source: FileSystem, root: Ino, destination: FileSystem, parent: Ino, name: Name)
    returns (ok: bool, entries: seq<Entry>, count: nat, out: Ino, ghost copied: map<Path, Signature>, ghost read: nat, ghost t: nat)
    requires source != destination && source.Valid() && destination.Valid()
    modifies source, destination
    ensures ok ==> source.Onward() && destination.Onward()
    ensures ok ==> |old(source.history)| - 1 <= read < |source.history| && ManifestOf(source.history[read], root, entries)
    ensures ok ==> |old(destination.history)| <= t < |destination.history|
    ensures ok ==> CopyOf(destination.history[t], out, entries) && AsCopied(destination.history[t], out, entries, copied)
    ensures ok ==> AllSeen(destination.history, |old(destination.history)|, copied)
    ensures ok && !destination.disturbed ==>
              && SameTree(source.history[read], root, destination.history[t], out, entries)
              && destination.world.nodes == destination.history[t].nodes && OwnersRecorded(copied, entries)
    ensures ok && !old(destination.disturbed) && AllQuiet(old(destination.script)) ==> !destination.disturbed
    ensures ok ==> count == |entries| <= limits.maxFiles
  {
    entries, count, out, copied, read, t := [], 0, root, map[], 0, 0;
    var created := destination.Create(parent, name, Body(Dir(map[]), Meta(Owner(0, 0, 0x1C0, 0), map[]), 2));
    if created.None? {
      return false, entries, count, out, copied, read, t;
    }
    out := created.value;
    ghost var since := destination.Now();
    ok, entries, count, copied, read, t := CopyInto(limits, source, root, destination, out);
    if ok {
      AllSeenEarlier(destination.history, since, |old(destination.history)|, copied);
    }
  }
}
