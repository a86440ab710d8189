/**
 Why "record signatures, read everything, recheck everything" returns one instant's tree: what a scan
 has read of each node is tied to the inode its signature was recorded from, and an unchanged signature
 at a later recheck carries all of it to one common instant.
 */
module TreeScan {
  import opened Prelude
  import opened FileTrees

  /** One manifest row's contents. */
  datatype Row =
    | FileRow(bytes: Bytes, meta: Meta)
    | DirRow(meta: Meta)
    | LinkRow(target: string, meta: Meta)
    | NoRow

  datatype Entry = Entry(path: Path, row: Row)

  function RowOf(body: Body): Row {
    match body.content
    case File(bytes) => FileRow(bytes, body.meta)
    case Dir(_) => DirRow(body.meta)
    case Link(target) => LinkRow(target, body.meta)
    case Special => NoRow
  }

  // ---------- what the result must mean ----------

  /** The entries are the tree below `root` in this world: every path that leads somewhere is listed exactly once. */
  ghost predicate ManifestOf(w: World, root: Ino, entries: seq<Entry>) {
    && (forall j, k :: 0 <= j < k < |entries| ==> entries[j].path != entries[k].path)
    && (forall e :: e in entries ==> Describes(w, root, e))
    && (forall p :: p != [] && Resolve(w, root, p).Some? ==> HasRow(entries, p))
  }

  ghost predicate HasRow(entries: seq<Entry>, path: Path) {
    exists e :: e in entries && e.path == path
  }

  ghost predicate Describes(w: World, root: Ino, e: Entry) {
    e.path != [] && PathShows(w, root, e.path, e.row)
  }

  ghost predicate PathShows(w: World, from: Ino, path: Path, row: Row) {
    match Resolve(w, from, path)
    case None => false
    case Some(i) => i in w.nodes && RowOf(w.nodes[i].body) == row
  }

  // ---------- the scan's bookkeeping ----------

  /** When the signature was recorded, from which inode, and when the node's reading was over. */
  datatype Seen = Seen(inode: Inode, at: nat, until: nat)

  datatype Node = Node(name: Name, ino: Ino, row: Row, kids: seq<Node>, seen: Seen)

  ghost predicate KidsMatch(kids: seq<Node>, entries: map<Name, Ino>) {
    && (forall k :: 0 <= k < |kids| ==> kids[k].name in entries && entries[kids[k].name] == kids[k].ino)
    && (forall n :: n in entries ==> Named(kids, n))
    && DistinctNames(kids)
  }

  ghost predicate Named(kids: seq<Node>, name: Name) {
    exists k :: 0 <= k < |kids| && kids[k].name == name
  }

  ghost predicate DistinctNames(kids: seq<Node>) {
    forall j, k :: 0 <= j < k < |kids| ==> kids[j].name != kids[k].name
  }

  /** What was read of a node is what its recorded inode holds. */
  ghost predicate Matches(node: Node) {
    node.row == RowOf(node.seen.inode.body) && KidsMatch(node.kids, Entries(node.seen.inode))
  }

  /** At `n` the node is fully read, and what was read is right if the inode was still the recorded one at the end. */
  ghost predicate Tracked(h: seq<World>, n: nat, node: Node)
    decreases node
  {
    && node.seen.at <= node.seen.until <= n < |h|
    && Has(h, node.seen.at, node.ino, node.seen.inode)
    && (Has(h, node.seen.until, node.ino, node.seen.inode) ==> Matches(node))
    && forall k :: 0 <= k < |node.kids| ==> Tracked(h, n, node.kids[k])
  }

  lemma {:induction false} TrackedLater(h: seq<World>, n: nat, h': seq<World>, n': nat, node: Node)
    requires Tracked(h, n, node) && h <= h' && n <= n' < |h'|
    ensures Tracked(h', n', node)
    decreases node
  {
    forall k | 0 <= k < |node.kids| ensures Tracked(h', n', node.kids[k]) {
      TrackedLater(h, n, h', n', node.kids[k]);
    }
  }

  ghost predicate TrackedAt(h: seq<World>, n: nat, kids: seq<Node>, k: nat) {
    k < |kids| ==> Tracked(h, n, kids[k])
  }

  ghost predicate AllTracked(h: seq<World>, n: nat, kids: seq<Node>) {
    forall k: nat :: TrackedAt(h, n, kids, k)
  }

  lemma AllTrackedLater(h: seq<World>, n: nat, h': seq<World>, n': nat, kids: seq<Node>)
    requires AllTracked(h, n, kids) && h <= h' && n <= n' < |h'|
    ensures AllTracked(h', n', kids)
  {
    forall k: nat ensures TrackedAt(h', n', kids, k) {
      assert TrackedAt(h, n, kids, k);
      if k < |kids| {
        TrackedLater(h, n, h', n', kids[k]);
      }
    }
  }

  /** The manifest rows, a directory's after those below it. */
  ghost function Rows(prefix: Path, kids: seq<Node>): seq<Entry>
    decreases kids
  {
    if kids == [] then []
    else Rows(prefix, kids[..|kids| - 1]) + NodeRows(prefix, kids[|kids| - 1])
  }

  ghost function NodeRows(prefix: Path, node: Node): seq<Entry>
    decreases node
  {
    Rows(prefix + [node.name], node.kids) + [Entry(prefix + [node.name], node.row)]
  }

  /** The witness, a directory's signature before those below it. */
  ghost function Sigs(prefix: Path, kids: seq<Node>): seq<(Path, Signature)>
    decreases kids
  {
    if kids == [] then []
    else Sigs(prefix, kids[..|kids| - 1]) + NodeSigs(prefix, kids[|kids| - 1])
  }

  ghost function NodeSigs(prefix: Path, node: Node): seq<(Path, Signature)>
    decreases node
  {
    [(prefix + [node.name], SigOf(node.ino, node.seen.inode))] + Sigs(prefix + [node.name], node.kids)
  }

  lemma RowsSnoc(prefix: Path, kids: seq<Node>, node: Node)
    ensures Rows(prefix, kids + [node]) == Rows(prefix, kids) + NodeRows(prefix, node)
    ensures Sigs(prefix, kids + [node]) == Sigs(prefix, kids) + NodeSigs(prefix, node)
  {
    assert (kids + [node])[..|kids|] == kids;
  }

  // ---------- one instant ----------

  /** Seen again, unchanged, at or after `t`. */
  ghost predicate Rechecked(h: seq<World>, t: nat, sig: Signature) {
    exists b: nat :: SeenAt(h, t, b, sig)
  }

  ghost predicate SeenAt(h: seq<World>, t: nat, b: nat, sig: Signature) {
    t <= b < |h| && sig.ino in h[b].nodes && SigOf(sig.ino, h[b].nodes[sig.ino]) == sig
  }

  ghost predicate IsTree(w: World, node: Node)
    decreases node
  {
    && node.ino in w.nodes && w.nodes[node.ino] == node.seen.inode && Matches(node)
    && forall k :: 0 <= k < |node.kids| ==> IsTree(w, node.kids[k])
  }

  lemma {:induction false} SigsOfKid(prefix: Path, kids: seq<Node>, k: nat)
    requires k < |kids|
    ensures forall s :: s in NodeSigs(prefix, kids[k]) ==> s in Sigs(prefix, kids)
    decreases |kids|
  {
    if k < |kids| - 1 {
      SigsOfKid(prefix, kids[..|kids| - 1], k);
    }
  }

  /** All signatures rechecked after `t`, all reading over by `t`: at `t` the tree is the one that was read. */
  lemma {:induction false} StillThere(h: seq<World>, t: nat, prefix: Path, node: Node)
    requires Chain(h) && Tracked(h, t, node)
    requires forall s :: s in NodeSigs(prefix, node) ==> Rechecked(h, t, s.1)
    ensures IsTree(h[t], node)
    decreases node
  {
    var rel := prefix + [node.name];
    var sig := SigOf(node.ino, node.seen.inode);
    assert (rel, sig) in NodeSigs(prefix, node);
    var b: nat :| SeenAt(h, t, b, sig);
    UntouchedBetween(h, node.seen.at, node.seen.until, b, node.ino, node.seen.inode);
    UntouchedBetween(h, node.seen.at, t, b, node.ino, node.seen.inode);
    forall k | 0 <= k < |node.kids| ensures IsTree(h[t], node.kids[k]) {
      SigsOfKid(rel, node.kids, k);
      StillThere(h, t, rel, node.kids[k]);
    }
  }

  ghost predicate TreeBelow(w: World, dir: Ino, kids: seq<Node>) {
    && dir in w.nodes && KidsMatch(kids, Entries(w.nodes[dir]))
    && forall k :: 0 <= k < |kids| ==> IsTree(w, kids[k])
  }

  lemma {:induction false} RowsOfKid(prefix: Path, kids: seq<Node>, k: nat)
    requires k < |kids|
    ensures forall e :: e in NodeRows(prefix, kids[k]) ==> e in Rows(prefix, kids)
    decreases |kids|
  {
    if k < |kids| - 1 {
      RowsOfKid(prefix, kids[..|kids| - 1], k);
    }
  }

  lemma {:induction false} RowHasKid(prefix: Path, kids: seq<Node>, e: Entry) returns (k: nat)
    requires e in Rows(prefix, kids)
    ensures k < |kids| && e in NodeRows(prefix, kids[k])
    decreases |kids|
  {
    k := |kids| - 1;
    if e !in NodeRows(prefix, kids[k]) {
      k := RowHasKid(prefix, kids[..k], e);
    }
  }

  lemma ResolveStep(w: World, dir: Ino, kids: seq<Node>, k: nat, p: Path)
    requires TreeBelow(w, dir, kids) && k < |kids| && p != [] && p[0] == kids[k].name
    ensures Resolve(w, dir, p) == Resolve(w, kids[k].ino, p[1..])
    ensures TreeBelow(w, kids[k].ino, kids[k].kids)
    ensures kids[k].row == RowOf(w.nodes[kids[k].ino].body)
  {
    assert IsTree(w, kids[k]);
  }

  lemma KidNamed(w: World, dir: Ino, kids: seq<Node>, p: Path) returns (k: nat)
    requires TreeBelow(w, dir, kids) && p != [] && Resolve(w, dir, p).Some?
    ensures k < |kids| && kids[k].name == p[0]
  {
    assert Named(kids, p[0]);
    k :| 0 <= k < |kids| && kids[k].name == p[0];
  }

  /** Every path that leads somewhere has a row. */
  lemma {:induction false} EveryPathHasARow(w: World, prefix: Path, dir: Ino, kids: seq<Node>, p: Path)
    requires TreeBelow(w, dir, kids) && p != [] && Resolve(w, dir, p).Some?
    ensures HasRow(Rows(prefix, kids), prefix + p)
    decreases |p|
  {
    var k := KidNamed(w, dir, kids, p);
    var rel := prefix + [p[0]];
    RowsOfKid(prefix, kids, k);
    ResolveStep(w, dir, kids, k, p);
    if p[1..] == [] {
      assert Entry(rel, kids[k].row) in NodeRows(prefix, kids[k]);
      assert prefix + p == rel;
    } else {
      EveryPathHasARow(w, rel, kids[k].ino, kids[k].kids, p[1..]);
      RowBelow(prefix, kids, k, p);
    }
  }

  lemma RowBelow(prefix: Path, kids: seq<Node>, k: nat, p: Path)
    requires k < |kids| && p != [] && p[0] == kids[k].name
    requires HasRow(Rows(prefix + [p[0]], kids[k].kids), prefix + [p[0]] + p[1..])
    ensures HasRow(Rows(prefix, kids), prefix + p)
  {
    var rel := prefix + [p[0]];
    RowsOfKid(prefix, kids, k);
    var e :| e in Rows(rel, kids[k].kids) && e.path == rel + p[1..];
    assert e in NodeRows(prefix, kids[k]);
    assert rel + p[1..] == prefix + p;
  }

  /** The element of a row's path right below `prefix` names the kid it is in. */
  lemma {:induction false} RowsStart(prefix: Path, kids: seq<Node>, e: Entry) returns (k: nat)
    requires e in Rows(prefix, kids)
    ensures k < |kids| && |prefix| < |e.path| && e.path[..|prefix|] == prefix && e.path[|prefix|] == kids[k].name
    ensures e in NodeRows(prefix, kids[k])
    decreases kids
  {
    k := RowHasKid(prefix, kids, e);
    var rel := prefix + [kids[k].name];
    if e != Entry(rel, kids[k].row) {
      var j := RowsStart(rel, kids[k].kids, e);
      assert e.path[..|rel|][..|prefix|] == prefix;
      assert e.path[|prefix|] == e.path[..|rel|][|prefix|];
      assert e.path[..|prefix|] == prefix;
    }
  }

  /** Every row is of a path that leads to what it says. */
  lemma {:induction false} EveryRowIsRight(w: World, prefix: Path, dir: Ino, kids: seq<Node>, e: Entry)
    requires TreeBelow(w, dir, kids) && e in Rows(prefix, kids)
    ensures |prefix| < |e.path| && e.path[..|prefix|] == prefix
    ensures PathShows(w, dir, e.path[|prefix|..], e.row)
    decreases kids
  {
    var k := RowHasKid(prefix, kids, e);
    var rel := prefix + [kids[k].name];
    RowsOfKid(prefix, [kids[k]], 0);
    var j := RowsStart(prefix, [kids[k]], e);
    var p := e.path[|prefix|..];
    ResolveStep(w, dir, kids, k, p);
    if e == Entry(rel, kids[k].row) {
      assert p[1..] == [];
    } else {
      EveryRowIsRight(w, rel, kids[k].ino, kids[k].kids, e);
      assert p[1..] == e.path[|rel|..];
    }
  }

  ghost predicate DistinctPaths(entries: seq<Entry>) {
    forall j, k :: 0 <= j < k < |entries| ==> entries[j].path != entries[k].path
  }

  /** Names are distinct in every directory of the scanned tree. */
  ghost predicate Proper(kids: seq<Node>)
    decreases kids
  {
    DistinctNames(kids) && forall k :: 0 <= k < |kids| ==> Proper(kids[k].kids)
  }

  lemma {:induction false} TreesAreProper(w: World, kids: seq<Node>)
    requires DistinctNames(kids) && forall k :: 0 <= k < |kids| ==> IsTree(w, kids[k])
    ensures Proper(kids)
    decreases kids
  {
    forall k | 0 <= k < |kids| ensures Proper(kids[k].kids) {
      assert IsTree(w, kids[k]);
      TreesAreProper(w, kids[k].kids);
    }
  }

  lemma DistinctConcat(a: seq<Entry>, b: seq<Entry>)
    requires DistinctPaths(a) && DistinctPaths(b)
    requires forall x, y :: x in a && y in b ==> x.path != y.path
    ensures DistinctPaths(a + b)
  {
    forall j, k | 0 <= j < k < |a + b| ensures (a + b)[j].path != (a + b)[k].path {
      if j < |a| <= k {
        assert (a + b)[j] in a && (a + b)[k] in b;
      }
    }
  }

  /** Each node is listed once. */
  lemma {:induction false} PathsAreDistinct(prefix: Path, kids: seq<Node>)
    requires Proper(kids)
    ensures DistinctPaths(Rows(prefix, kids))
    decreases kids, 1
  {
    if kids != [] {
      var n := |kids| - 1;
      var front := kids[..n];
      forall k | 0 <= k < |front| ensures Proper(front[k].kids) {
        assert front[k] == kids[k];
      }
      PathsAreDistinct(prefix, front);
      NodePathsAreDistinct(prefix, kids[n]);
      forall x, y | x in Rows(prefix, front) && y in NodeRows(prefix, kids[n]) ensures x.path != y.path {
        var j := RowsStart(prefix, front, x);
        assert y in Rows(prefix, [kids[n]]) by {
          RowsOfKid(prefix, [kids[n]], 0);
        }
        var k := RowsStart(prefix, [kids[n]], y);
        assert front[j] == kids[j];
      }
      DistinctConcat(Rows(prefix, front), NodeRows(prefix, kids[n]));
    }
  }

  lemma {:induction false} NodePathsAreDistinct(prefix: Path, node: Node)
    requires Proper(node.kids)
    ensures DistinctPaths(NodeRows(prefix, node))
    decreases node, 0
  {
    var rel := prefix + [node.name];
    PathsAreDistinct(rel, node.kids);
    forall x | x in Rows(rel, node.kids) ensures x.path != rel {
      var k := RowsStart(rel, node.kids, x);
    }
    DistinctConcat(Rows(rel, node.kids), [Entry(rel, node.row)]);
  }

  /** The rows of a tree that is there at this instant are its manifest. */
  lemma TreeGivesManifest(w: World, root: Ino, kids: seq<Node>)
    requires TreeBelow(w, root, kids)
    ensures ManifestOf(w, root, Rows([], kids))
  {
    TreesAreProper(w, kids);
    PathsAreDistinct([], kids);
    forall e | e in Rows([], kids) ensures Describes(w, root, e) {
      EveryRowIsRight(w, [], root, kids, e);
      assert e.path[0..] == e.path;
    }
    forall p | p != [] && Resolve(w, root, p).Some? ensures HasRow(Rows([], kids), p) {
      EveryPathHasARow(w, [], root, kids, p);
      assert [] + p == p;
    }
  }

  /** The inode that a path leads to has exactly this signature. */
  ghost predicate SignatureAt(w: World, from: Ino, path: Path, sig: Signature) {
    Resolve(w, from, path) == Some(sig.ino) && sig.ino in w.nodes && SigOf(sig.ino, w.nodes[sig.ino]) == sig
  }

  lemma {:induction false} SigHasKid(prefix: Path, kids: seq<Node>, s: (Path, Signature)) returns (k: nat)
    requires s in Sigs(prefix, kids)
    ensures k < |kids| && s in NodeSigs(prefix, kids[k])
    decreases |kids|
  {
    k := |kids| - 1;
    if s !in NodeSigs(prefix, kids[k]) {
      k := SigHasKid(prefix, kids[..k], s);
    }
  }

  /** Every witnessed signature is the one its path leads to. */
  lemma {:induction false} EverySignatureIsThere(w: World, prefix: Path, dir: Ino, kids: seq<Node>, s: (Path, Signature))
    requires TreeBelow(w, dir, kids) && s in Sigs(prefix, kids)
    ensures |prefix| < |s.0| && s.0[..|prefix|] == prefix && SignatureAt(w, dir, s.0[|prefix|..], s.1)
    decreases kids
  {
    var k := SigHasKid(prefix, kids, s);
    var node, rel := kids[k], prefix + [kids[k].name];
    assert IsTree(w, node);
    if s == (rel, SigOf(node.ino, node.seen.inode)) {
      var p := s.0[|prefix|..];
      assert p == [node.name] && p[1..] == [];
      ResolveStep(w, dir, kids, k, p);
    } else {
      EverySignatureIsThere(w, rel, node.ino, node.kids, s);
      assert rel == s.0[..|rel|];
      PathBelow(prefix, node.name, s.0);
      ResolveStep(w, dir, kids, k, s.0[|prefix|..]);
    }
  }

  lemma PathBelow(prefix: Path, name: Name, path: Path)
    requires |prefix| < |path| && path[..|prefix| + 1] == prefix + [name]
    ensures path[..|prefix|] == prefix && path[|prefix|] == name
    ensures path[|prefix|..] == [name] + path[|prefix| + 1..]
  {
    assert path[..|prefix| + 1][..|prefix|] == path[..|prefix|];
    assert path[..|prefix| + 1][|prefix|] == path[|prefix|];
  }

  lemma RecheckedLater(h: seq<World>, h': seq<World>, t: nat, sig: Signature)
    requires Rechecked(h, t, sig) && h <= h'
    ensures Rechecked(h', t, sig)
  {
    var b: nat :| SeenAt(h, t, b, sig);
    assert SeenAt(h', t, b, sig);
  }

  /** A scan that ended at `t`, with all its signatures seen again since: its rows are the tree of that instant. */
  lemma ScanIsOneInstant(h: seq<World>, t: nat, h': seq<World>, root: Ino, inode: Inode, kids: seq<Node>)
    requires Chain(h') && h <= h' && t < |h| && Has(h, t, root, inode) && KidsMatch(kids, Entries(inode))
    requires AllTracked(h, t, kids)
    requires forall s :: s in Sigs([], kids) ==> Rechecked(h', t, s.1)
    ensures TreeBelow(h'[t], root, kids) && ManifestOf(h'[t], root, Rows([], kids))
  {
    AllTrackedLater(h, t, h', t, kids);
    forall k: nat | k < |kids| ensures IsTree(h'[t], kids[k]) {
      assert TrackedAt(h', t, kids, k);
      SigsOfKid([], kids, k);
      StillThere(h', t, [], kids[k]);
    }
    TreeGivesManifest(h'[t], root, kids);
  }

  // ---------- the recheck ----------

  /** Opens every component of a path but the last, following no link. */
  method WalkTo(fs: FileSystem, root: Ino, path: Path) returns (dir: Option<Ino>)
    requires fs.Valid() && path != []
    modifies fs
    ensures fs.Onward() && fs.Still()
  {
    dir := Some(root);
    for i := 0 to |path| - 1
      invariant fs.Onward() && fs.Still() && dir.Some?
    {
      dir := fs.OpenAt(dir.value, path[i], Directory);
      if dir.None? {
        return;
      }
    }
  }

  /** Reopens the path of one recorded signature and compares; the empty path is the held root itself. */
  method RecheckOne(fs: FileSystem, root: Ino, path: Path, sig: Signature) returns (ok: bool)
    requires fs.Valid()
    modifies fs
    ensures fs.Onward() && fs.Still()
    ensures ok ==> Rechecked(fs.history, old(fs.Now()), sig)
  {
    var actual;
    if path == [] {
      actual := fs.Fstat(root);
    } else {
      var dir := WalkTo(fs, root, path);
      if dir.None? {
        return false;
      }
      actual := fs.StatAt(dir.value, path[|path| - 1]);
    }
    ok := actual == Some(sig);
    assert ok ==> SeenAt(fs.history, old(fs.Now()), fs.Now(), sig);
  }

  /** `_recheck` and the late loops of `copy_tree`: every recorded signature is seen again. */
  method RecheckAll(fs: FileSystem, root: Ino, sigs: seq<(Path, Signature)>) returns (ok: bool)
    requires fs.Valid()
    modifies fs
    ensures fs.Onward() && fs.Still()
    ensures ok ==> forall s :: s in sigs ==> Rechecked(fs.history, old(fs.Now()), s.1)
  {
    ghost var t := fs.Now();
    for i := 0 to |sigs|
      invariant fs.Onward() && fs.Still() && forall k :: 0 <= k < i ==> Rechecked(fs.history, t, sigs[k].1)
    {
      if !fs.BeforeDeadline() {
        return false;
      }
      ghost var before := fs.history;
      ok := RecheckOne(fs, root, sigs[i].0, sigs[i].1);
      if !ok {
        return;
      }
      RecheckedEarlier(fs.history, |before| - 1, t, sigs[i].1);
      forall k | 0 <= k < i ensures Rechecked(fs.history, t, sigs[k].1) {
        RecheckedLater(before, fs.history, t, sigs[k].1);
      }
    }
    ok := true;
  }

  lemma RecheckedEarlier(h: seq<World>, t: nat, t': nat, sig: Signature)
    requires Rechecked(h, t, sig) && t' <= t
    ensures Rechecked(h, t', sig)
  {
    var b: nat :| SeenAt(h, t, b, sig);
    assert SeenAt(h, t', b, sig);
  }

  /** The recheck of a finished scan makes its rows the tree at the instant the scan ended. */
  method RecheckScan(fs: FileSystem, root: Ino, sigs: seq<(Path, Signature)>, ghost inode: Inode, ghost kids: seq<Node>)
    returns (ok: bool)
    requires fs.Valid() && Has(fs.history, fs.Now(), root, inode) && KidsMatch(kids, Entries(inode))
    requires AllTracked(fs.history, fs.Now(), kids) && forall s :: s in Sigs([], kids) ==> s in sigs
    modifies fs
    ensures fs.Onward() && fs.Still()
    ensures ok ==> TreeBelow(fs.history[|old(fs.history)| - 1], root, kids)
    ensures ok ==> ManifestOf(fs.history[|old(fs.history)| - 1], root, Rows([], kids))
  {
    ghost var h, t := fs.history, fs.Now();
    ok := RecheckAll(fs, root, sigs);
    if ok {
      ScanIsOneInstant(h, t, fs.history, root, inode, kids);
    }
  }
}
