/**
 The offline inventory of one blob root: marker, guard records, shards of generations and health probes, all
 read once and all seen again afterwards.
 */
module BlobInventory {
  import opened Prelude
  import opened FileTrees
  import opened TreeScan
  import opened DirectoryScan
  import D = Digits
  import S = SeedReferences

  const MARKER := ".openlegal-seed-v1.json"
  const GUARDS := ".openlegal-runtime-guards"
  const GUARD_LOCK := ".directory.lock"
  const BLOB_OWNER := 10004
  const MAX_NAMES := 258
  const MAX_GUARDS := 513
  const MAX_CONTROL := 16384
  const MAX_GUARD := 4096
  const MAX_BLOB := 104857600
  const HEALTH_BYTES: Bytes := [98, 108, 111, 98, 45, 104, 101, 97, 108, 116, 104, 10]

  // ---------- what a path is for ----------

  datatype Class = Permanent(digest: string) | Health | Control

  predicate AllZeros(s: string) {
    forall i :: 0 <= i < |s| ==> s[i] == '0'
  }

  predicate IsShard(name: Name) {
    |name| == 2 && D.AllHex(name)
  }

  /** A probe of the fixed stage name in shard `00`. */
  predicate IsHealth(shard: Name, entry: Name) {
    && shard == "00" && |entry| == 173 && entry[..7] == ".stage-" && AllZeros(entry[7..71]) && entry[71] == '-'
    && entry[72..108] == "00000000-0000-0000-0000-000000000000" && entry[108] == '.' && D.AllHex(entry[109..])
  }

  /** A generation: its digest, which starts with the shard's name, a dash and a UUID. */
  predicate IsGeneration(shard: Name, entry: Name) {
    && |entry| == 101 && D.AllHex(entry[..64]) && entry[..2] == shard && entry[64] == '-' && S.IsUuid(entry[65..])
  }

  predicate IsGuard(entry: Name) {
    || entry == GUARD_LOCK
    || (6 <= |entry| <= 128 && entry[|entry| - 5..] == ".json"
        && forall i :: 0 <= i < |entry| - 5 ==> 'a' <= entry[i] <= 'z' || '0' <= entry[i] <= '9' || entry[i] == '.' || entry[i] == '-')
  }

  /** What a file at this path may be; anything else is refused. */
  function ClassOf(path: Path): Option<Class> {
    if |path| == 1 then (if path[0] == MARKER then Some(Control) else None)
    else if |path| == 2 && path[0] == GUARDS then (if IsGuard(path[1]) then Some(Control) else None)
    else if |path| == 2 && IsShard(path[0]) then
      if IsHealth(path[0], path[1]) then Some(Health)
      else if IsGeneration(path[0], path[1]) then Some(Permanent(path[1][..64])) else None
    else None
  }

  type Found = (Path, Bytes)

  /** The content each class must have; the hash of a generation is the digest in its name. */
  predicate ContentOk(sha: Bytes -> string, f: Found) {
    match ClassOf(f.0)
    case None => false
    case Some(Permanent(digest)) => sha(f.1) == digest
    case Some(Health) => f.1 == [] || f.1 == HEALTH_BYTES
    case Some(Control) => |f.0| == 2 && f.0[1] == GUARD_LOCK ==> f.1 == []
  }

  // ---------- what the inventory must be ----------

  /** The files below `root` in this world, each once, each of its class, and nothing else but directories. */
  ghost predicate InventoryOf(w: World, root: Ino, sha: Bytes -> string, found: seq<Found>) {
    && (forall j, k :: 0 <= j < k < |found| ==> found[j].0 != found[k].0)
    && (forall f :: f in found ==> ContentOk(sha, f) && Holds(w, root, f))
    && (forall p :: p != [] && Resolve(w, root, p).Some? ==> FoundOrDirectory(w, root, found, p))
  }

  ghost predicate Holds(w: World, root: Ino, f: Found) {
    match Resolve(w, root, f.0)
    case None => false
    case Some(i) => i in w.nodes && w.nodes[i].body.content == File(f.1)
  }

  ghost predicate FoundOrDirectory(w: World, root: Ino, found: seq<Found>, p: Path)
    requires Resolve(w, root, p).Some?
  {
    var i := Resolve(w, root, p).value;
    (i in w.nodes && w.nodes[i].body.content.Dir?) || exists f :: f in found && f.0 == p
  }

  // ---------- from manifest rows to found files ----------

  function FilesOf(entries: seq<Entry>): seq<Found> {
    if entries == [] then []
    else
      var last := entries[|entries| - 1];
      FilesOf(entries[..|entries| - 1]) + (if last.row.FileRow? then [(last.path, last.row.bytes)] else [])
  }

  lemma {:induction false} FilesOfConcat(a: seq<Entry>, b: seq<Entry>)
    ensures FilesOf(a + b) == FilesOf(a) + FilesOf(b)
    decreases |b|
  {
    if b == [] {
      assert a + b == a;
    } else {
      var all := a + b;
      assert all[..|all| - 1] == a + b[..|b| - 1];
      FilesOfConcat(a, b[..|b| - 1]);
    }
  }

  lemma {:induction false} FileFrom(entries: seq<Entry>, f: Found) returns (e: Entry)
    requires f in FilesOf(entries)
    ensures e in entries && e.path == f.0 && e.row.FileRow? && e.row.bytes == f.1
    decreases |entries|
  {
    e := entries[|entries| - 1];
    if !(e.row.FileRow? && f == (e.path, e.row.bytes)) {
      e := FileFrom(entries[..|entries| - 1], f);
    }
  }

  lemma {:induction false} FileOfEntry(entries: seq<Entry>, e: Entry)
    requires e in entries && e.row.FileRow?
    ensures (e.path, e.row.bytes) in FilesOf(entries)
    decreases |entries|
  {
    if e != entries[|entries| - 1] {
      FileOfEntry(entries[..|entries| - 1], e);
    }
  }

  lemma {:induction false} FilesAreDistinct(entries: seq<Entry>)
    requires DistinctPaths(entries)
    ensures forall j, k :: 0 <= j < k < |FilesOf(entries)| ==> FilesOf(entries)[j].0 != FilesOf(entries)[k].0
    decreases |entries|
  {
    if entries != [] {
      var front := entries[..|entries| - 1];
      FilesAreDistinct(front);
      forall f | f in FilesOf(front) ensures f.0 != entries[|entries| - 1].path {
        var e := FileFrom(front, f);
        var k :| 0 <= k < |front| && front[k] == e;
        assert entries[k] == e;
      }
    }
  }

  ghost predicate RowPlain(e: Entry) {
    e.row.FileRow? || e.row.DirRow?
  }

  /** If the rows are the tree of this instant, the files among them are its inventory. */
  lemma ManifestGivesInventory(w: World, root: Ino, sha: Bytes -> string, entries: seq<Entry>)
    requires ManifestOf(w, root, entries) && forall e :: e in entries ==> RowPlain(e)
    requires forall f :: f in FilesOf(entries) ==> ContentOk(sha, f)
    ensures InventoryOf(w, root, sha, FilesOf(entries))
  {
    var found := FilesOf(entries);
    FilesAreDistinct(entries);
    forall f | f in found ensures Holds(w, root, f) {
      var e := FileFrom(entries, f);
      assert Describes(w, root, e);
    }
    forall p | p != [] && Resolve(w, root, p).Some? ensures FoundOrDirectory(w, root, found, p) {
      assert HasRow(entries, p);
      var e :| e in entries && e.path == p;
      assert Describes(w, root, e) && RowPlain(e);
      if e.row.FileRow? {
        FileOfEntry(entries, e);
        assert (e.path, e.row.bytes) in found;
      }
    }
  }

  // ---------- the scan ----------

  /** The nodes of one directory are plain files and directories, and the files found are theirs. */
  ghost predicate Accounted(sha: Bytes -> string, prefix: Path, kids: seq<Node>, found: seq<Found>, sigs: seq<(Path, Signature)>) {
    && found == FilesOf(Rows(prefix, kids)) && sigs == Sigs(prefix, kids)
    && (forall f :: f in found ==> ContentOk(sha, f))
    && forall e :: e in Rows(prefix, kids) ==> RowPlain(e)
  }

  lemma AccountedNext(sha: Bytes -> string, prefix: Path, kids: seq<Node>, found: seq<Found>, sigs: seq<(Path, Signature)>,
                      node: Node, found': seq<Found>, sigs': seq<(Path, Signature)>)
    requires Accounted(sha, prefix, kids, found, sigs) && AccountedNode(sha, prefix, node, found', sigs')
    ensures Accounted(sha, prefix, kids + [node], found + found', sigs + sigs')
  {
    RowsSnoc(prefix, kids, node);
    FilesOfConcat(Rows(prefix, kids), NodeRows(prefix, node));
  }

  ghost predicate AccountedNode(sha: Bytes -> string, prefix: Path, node: Node, found: seq<Found>, sigs: seq<(Path, Signature)>) {
    && found == FilesOf(NodeRows(prefix, node)) && sigs == NodeSigs(prefix, node)
    && (forall f :: f in found ==> ContentOk(sha, f))
    && forall e :: e in NodeRows(prefix, node) ==> RowPlain(e)
  }

  lemma FileAccounted(sha: Bytes -> string, prefix: Path, node: Node, data: Bytes)
    requires node.row.FileRow? && node.row.bytes == data && node.kids == []
    requires ContentOk(sha, (prefix + [node.name], data))
    ensures AccountedNode(sha, prefix, node, [(prefix + [node.name], data)],
                          [(prefix + [node.name], SigOf(node.ino, node.seen.inode))])
  {
    var e := Entry(prefix + [node.name], node.row);
    assert NodeRows(prefix, node) == [e];
    assert [e][..0] == [];
    assert FilesOf([e]) == [(prefix + [node.name], data)];
  }

  lemma DirectoryAccounted(sha: Bytes -> string, prefix: Path, node: Node, found: seq<Found>, sigs: seq<(Path, Signature)>)
    requires node.row.DirRow? && Accounted(sha, prefix + [node.name], node.kids, found, sigs)
    ensures AccountedNode(sha, prefix, node, found, [(prefix + [node.name], SigOf(node.ino, node.seen.inode))] + sigs)
  {
    var rel := prefix + [node.name];
    var last := Entry(rel, node.row);
    assert [last][..0] == [] && FilesOf([last]) == [];
    FilesOfConcat(Rows(rel, node.kids), [last]);
  }

  /** Reads a file whose signature is already recorded, and compares by descriptor and by name. */
  method ReadBlob(fs: FileSystem, dir: Ino, name: Name, sig: Signature, ghost at: nat, ghost inode: Inode)
    returns (ok: bool, data: Bytes)
    requires fs.Valid() && at <= fs.Now() && Recorded(fs.history, at, sig.ino, inode, sig)
    modifies fs
    ensures fs.Onward()
    ensures ok ==> inode.body.content == File(data)
  {
    data := [];
    ok := OpenSame(fs, dir, name, sig);
    if !ok {
      return;
    }
    ok, data := ReadAll(fs, sig.ino, sig.stat.size, at, inode);
    if !ok || |data| != sig.stat.size {
      return false, data;
    }
    ghost var read := fs.Now();
    var held := fs.Fstat(sig.ino);
    if held != Some(sig) {
      return false, data;
    }
    UntouchedBetween(fs.history, at, read, fs.Now(), sig.ino, inode);
    var late := fs.StatAt(dir, name);
    ok := late == Some(sig);
  }

  /** What `stat` must show of a file at this path. */
  predicate FileStatOk(sig: Signature, device: nat, owner: nat, path: Path, role: Class) {
    && sig.stat.kind == Regular && sig.stat.nlink == 1 && sig.ino.dev == device
    && if |path| == 1 then sig.stat.owner.uid == 0 && sig.stat.owner.mode in {0x1A0, 0x1A4} && sig.stat.size <= MAX_CONTROL
       else sig.stat.owner.uid == owner && sig.stat.owner.mode == 0x180
            && sig.stat.size <= (if role.Control? then MAX_GUARD else MAX_BLOB)
  }

  /** One file: recorded, read, and of the content its class must have. */
  method ScanFile(fs: FileSystem, sha: Bytes -> string, dir: Ino, prefix: Path, name: Name, device: nat, owner: nat,
                  ghost dirAt: nat, ghost dirInode: Inode)
    returns (ok: bool, data: Bytes, sig: Signature, ghost node: Node)
    requires fs.Valid() && dirAt <= fs.Now() && Has(fs.history, dirAt, dir, dirInode)
    modifies fs
    ensures fs.Onward()
    ensures ok ==> EntryRead(fs.history, fs.Now(), dir, dirAt, dirInode, node) && node.name == name
    ensures ok ==> AccountedNode(sha, prefix, node, [(prefix + [name], data)], [(prefix + [name], sig)])
  {
    data, sig := [], Signature(dir, Stat(Other, Owner(0, 0, 0, 0), 0, 0), 0);
    node := Node(name, dir, NoRow, [], Seen(dirInode, 0, 0));
    var role := ClassOf(prefix + [name]);
    var stat := fs.StatAt(dir, name);
    if !fs.BeforeDeadline() || role.None? || stat.None? || !FileStatOk(stat.value, device, owner, prefix + [name], role.value) {
      return false, data, sig, node;
    }
    sig := stat.value;
    ghost var p := Place(dirAt, dirInode, fs.Now(), fs.world.nodes[sig.ino]);
    ok, data := ReadBlob(fs, dir, name, sig, p.at, p.inode);
    if !ok || !ContentOk(sha, (prefix + [name], data)) {
      return false, data, sig, node;
    }
    node := Node(name, sig.ino, RowOf(p.inode.body), [], Seen(p.inode, p.at, fs.Now()));
    LeafRead(fs.history, fs.Now(), dir, p, sig, node);
    FileAccounted(sha, prefix, node, data);
  }

  /** The loop over the files of one shard or of the guard directory. */
  method ScanFiles(fs: FileSystem, sha: Bytes -> string, dir: Ino, prefix: Path, listing: seq<Name>, device: nat, owner: nat,
                   ghost dirAt: nat, ghost dirInode: Inode)
    returns (ok: bool, found: seq<Found>, sigs: seq<(Path, Signature)>, ghost kids: seq<Node>)
    requires fs.Valid() && dirAt <= fs.Now() && Has(fs.history, dirAt, dir, dirInode)
    modifies fs
    ensures fs.Onward()
    ensures ok ==> EntriesSoFar(fs.history, fs.Now(), dir, dirAt, dirInode, listing, kids)
    ensures ok ==> Accounted(sha, prefix, kids, found, sigs)
  {
    found, sigs, kids := [], [], [];
    for i := 0 to |listing|
      invariant fs.Onward() && EntriesSoFar(fs.history, fs.Now(), dir, dirAt, dirInode, listing[..i], kids)
      invariant Accounted(sha, prefix, kids, found, sigs)
    {
      ghost var h, n := fs.history, fs.Now();
      var data, sig;
      ghost var node;
      ok, data, sig, node := ScanFile(fs, sha, dir, prefix, listing[i], device, owner, dirAt, dirInode);
      if !ok {
        return;
      }
      var rel := prefix + [listing[i]];
      EntriesSoFarNext(h, n, fs.history, fs.Now(), dir, dirAt, dirInode, listing, i, kids, node);
      AccountedNext(sha, prefix, kids, found, sigs, node, [(rel, data)], [(rel, sig)]);
      found, sigs, kids := found + [(rel, data)], sigs + [(rel, sig)], kids + [node];
    }
    assert listing[..|listing|] == listing;
    ok := true;
  }

  /** A name that led to an inode still leads to it later, while its directory stays the same. */
  lemma LookupStays(h: seq<World>, dirAt: nat, k: nat, at: nat, n: nat, dir: Ino, inode: Inode, name: Name, ino: Ino)
    requires Chain(h) && dirAt <= k <= at <= n < |h| && Has(h, dirAt, dir, inode)
    requires Lookup(h[k], dir, name) == Some(ino) && ino in h[at].nodes
    ensures Has(h, n, dir, inode) ==> Lookup(h[at], dir, name) == Some(ino)
  {
    if Has(h, n, dir, inode) {
      UntouchedBetween(h, dirAt, k, n, dir, inode);
      UntouchedBetween(h, dirAt, at, n, dir, inode);
    }
  }

  /** A shard or the guard directory, held open; its signature comes from the descriptor. */
  method OpenDirectory(fs: FileSystem, root: Ino, name: Name, device: nat, owner: nat, ghost dirAt: nat, ghost dirInode: Inode)
    returns (r: Option<Signature>, ghost at: nat, ghost inode: Inode)
    requires fs.Valid() && dirAt <= fs.Now() && Has(fs.history, dirAt, root, dirInode)
    modifies fs
    ensures fs.Onward()
    ensures r.Some? ==>
              && dirAt <= at <= fs.Now() && Recorded(fs.history, at, r.value.ino, inode, r.value)
              && inode.body.content.Dir?
              && (Has(fs.history, fs.Now(), root, dirInode) ==>
                    Lookup(fs.history[at], root, name) == Some(r.value.ino))
  {
    at, inode := 0, dirInode;
    var dir := fs.OpenAt(root, name, Directory);
    ghost var looked := fs.Now();
    if dir.None? {
      return None, at, inode;
    }
    r := fs.Fstat(dir.value);
    if r.None? || r.value.stat.kind != Directory || r.value.ino.dev != device || r.value.stat.owner.uid != owner
       || r.value.stat.owner.mode != 0x1C0 {
      return None, at, inode;
    }
    at, inode := fs.Now(), fs.world.nodes[dir.value];
    LookupStays(fs.history, dirAt, looked, at, fs.Now(), root, dirInode, name, dir.value);
  }

  /** The listing, the files, and the listing and signature once more. */
  method ScanOpened(fs: FileSystem, sha: Bytes -> string, name: Name, sig: Signature, device: nat, owner: nat,
                    ghost at: nat, ghost inode: Inode)
    returns (ok: bool, found: seq<Found>, sigs: seq<(Path, Signature)>, ghost kids: seq<Node>)
    requires fs.Valid() && at <= fs.Now() && Recorded(fs.history, at, sig.ino, inode, sig)
    modifies fs
    ensures fs.Onward()
    ensures ok ==> DirRead(fs.history, at, fs.Now(), sig.ino, inode, kids) && AllTracked(fs.history, fs.Now(), kids)
    ensures ok ==> Accounted(sha, [name], kids, found, sigs)
  {
    found, sigs, kids := [], [], [];
    var listing := fs.List(sig.ino);
    if listing.None? || (name == GUARDS && (GUARD_LOCK !in listing.value || |listing.value| > MAX_GUARDS)) {
      return false, found, sigs, kids;
    }
    ghost var listed := fs.Now();
    ok, found, sigs, kids := ScanFiles(fs, sha, sig.ino, [name], listing.value, device, owner, at, inode);
    if !ok {
      return;
    }
    ok := CloseRead(fs, sig.ino, listing.value, sig, at, inode, listed, kids);
  }

  lemma OpenedIsRead(early: seq<World>, h: seq<World>, n: nat, root: Ino, dirAt: nat, dirInode: Inode, node: Node)
    requires Chain(h) && early <= h && |early| > 0 && dirAt <= node.seen.at < |early| <= n + 1 <= |h|
    requires Has(early, dirAt, root, dirInode) && node.seen.until == n
    requires node.seen.inode.body.content.Dir? && node.row == RowOf(node.seen.inode.body)
    requires Has(early, node.seen.at, node.ino, node.seen.inode)
    requires Has(early, |early| - 1, root, dirInode) ==> Lookup(early[node.seen.at], root, node.name) == Some(node.ino)
    requires DirRead(h, node.seen.at, n, node.ino, node.seen.inode, node.kids) && AllTracked(h, n, node.kids)
    ensures EntryRead(h, n, root, dirAt, dirInode, node)
  {
    SubdirectoryRead(h, n, h, n, node, node.seen.at, node.seen.inode);
    if Has(h, n, root, dirInode) {
      UntouchedBetween(h, dirAt, |early| - 1, n, root, dirInode);
    }
  }

  method ScanDirectory(fs: FileSystem, sha: Bytes -> string, root: Ino, name: Name, device: nat, owner: nat,
                       ghost dirAt: nat, ghost dirInode: Inode)
    returns (ok: bool, found: seq<Found>, sigs: seq<(Path, Signature)>, ghost node: Node)
    requires fs.Valid() && dirAt <= fs.Now() && Has(fs.history, dirAt, root, dirInode)
    modifies fs
    ensures fs.Onward()
    ensures ok ==> EntryRead(fs.history, fs.Now(), root, dirAt, dirInode, node) && node.name == name
    ensures ok ==> AccountedNode(sha, [], node, found, sigs)
  {
    found, sigs := [], [];
    node := Node(name, root, NoRow, [], Seen(dirInode, 0, 0));
    var stat;
    ghost var at, inode;
    stat, at, inode := OpenDirectory(fs, root, name, device, owner, dirAt, dirInode);
    if stat.None? {
      return false, found, sigs, node;
    }
    var sig := stat.value;
    ghost var early := fs.history;
    ghost var kids;
    ok, found, sigs, kids := ScanOpened(fs, sha, name, sig, device, owner, at, inode);
    if !ok {
      return;
    }
    node := Node(name, sig.ino, RowOf(inode.body), kids, Seen(inode, at, fs.Now()));
    OpenedIsRead(early, fs.history, fs.Now(), root, dirAt, dirInode, node);
    assert [] + [name] == [name];
    DirectoryAccounted(sha, [], node, found, sigs);
    sigs := [([name], sig)] + sigs;
  }

  /** One name of the root. */
  method ScanName(fs: FileSystem, sha: Bytes -> string, root: Ino, name: Name, device: nat, owner: nat, controls: bool,
                  ghost dirAt: nat, ghost dirInode: Inode)
    returns (ok: bool, found: seq<Found>, sigs: seq<(Path, Signature)>, ghost node: Node)
    requires fs.Valid() && dirAt <= fs.Now() && Has(fs.history, dirAt, root, dirInode)
    modifies fs
    ensures fs.Onward()
    ensures ok ==> EntryRead(fs.history, fs.Now(), root, dirAt, dirInode, node) && node.name == name
    ensures ok ==> AccountedNode(sha, [], node, found, sigs)
  {
    found, sigs := [], [];
    node := Node(name, root, NoRow, [], Seen(dirInode, 0, 0));
    if !fs.BeforeDeadline() || (!controls && (name == MARKER || name == GUARDS)) {
      return false, found, sigs, node;
    }
    if name == MARKER {
      var data, sig;
      ok, data, sig, node := ScanFile(fs, sha, root, [], name, device, owner, dirAt, dirInode);
      assert [] + [name] == [name];
      found, sigs := [([name], data)], [([name], sig)];
    } else if name == GUARDS || IsShard(name) {
      ok, found, sigs, node := ScanDirectory(fs, sha, root, name, device, owner, dirAt, dirInode);
    } else {
      ok := false;
    }
  }

  /** The loop over the root's names. */
  method ScanNames(fs: FileSystem, sha: Bytes -> string, root: Ino, listing: seq<Name>, device: nat, owner: nat, controls: bool,
                   ghost at: nat, ghost inode: Inode)
    returns (ok: bool, found: seq<Found>, sigs: seq<(Path, Signature)>, ghost kids: seq<Node>)
    requires fs.Valid() && at <= fs.Now() && Has(fs.history, at, root, inode)
    modifies fs
    ensures fs.Onward()
    ensures ok ==> EntriesSoFar(fs.history, fs.Now(), root, at, inode, listing, kids)
    ensures ok ==> Accounted(sha, [], kids, found, sigs)
  {
    found, sigs, kids := [], [], [];
    for i := 0 to |listing|
      invariant fs.Onward() && EntriesSoFar(fs.history, fs.Now(), root, at, inode, listing[..i], kids)
      invariant Accounted(sha, [], kids, found, sigs)
    {
      ghost var h, n := fs.history, fs.Now();
      var found', sigs';
      ghost var node;
      ok, found', sigs', node := ScanName(fs, sha, root, listing[i], device, owner, controls, at, inode);
      if !ok {
        return;
      }
      EntriesSoFarNext(h, n, fs.history, fs.Now(), root, at, inode, listing, i, kids, node);
      AccountedNext(sha, [], kids, found, sigs, node, found', sigs');
      found, sigs, kids := found + found', sigs + sigs', kids + [node];
    }
    assert listing[..|listing|] == listing;
    ok := true;
  }

  /** The pass over the whole root, before anything is seen again. */
  method ScanRoot(fs: FileSystem, sha: Bytes -> string, root: Ino, owner: nat, controls: bool)
    returns (ok: bool, sig: Signature, found: seq<Found>, sigs: seq<(Path, Signature)>, ghost inode: Inode, ghost kids: seq<Node>)
    requires fs.Valid()
    modifies fs
    ensures fs.Onward()
    ensures ok ==> Has(fs.history, fs.Now(), root, inode) && KidsMatch(kids, Entries(inode))
    ensures ok ==> AllTracked(fs.history, fs.Now(), kids) && Accounted(sha, [], kids, found, sigs)
  {
    sig := Signature(root, Stat(Other, Owner(0, 0, 0, 0), 0, 0), 0);
    found, sigs, kids, inode := [], [], [], Inode(Body(Special, Meta(Owner(0, 0, 0, 0), map[]), 0), 0);
    var stat := fs.Fstat(root);
    if stat.None? || stat.value.stat.owner.uid != owner || stat.value.stat.owner.mode != 0x1C0 {
      return false, sig, found, sigs, inode, kids;
    }
    sig := stat.value;
    ghost var at := fs.Now();
    inode := fs.world.nodes[root];
    var listing := fs.List(root);
    if listing.None? || |listing.value| > MAX_NAMES {
      return false, sig, found, sigs, inode, kids;
    }
    ghost var listed := fs.Now();
    ok, found, sigs, kids := ScanNames(fs, sha, root, listing.value, root.dev, owner, controls, at, inode);
    if !ok {
      return;
    }
    ok := CloseRead(fs, root, listing.value, sig, at, inode, listed, kids);
  }

  ghost predicate SomeInstant(h: seq<World>, from: nat, root: Ino, sha: Bytes -> string, found: seq<Found>) {
    exists t: nat :: from <= t < |h| && InventoryOf(h[t], root, sha, found)
  }

  lemma AccountedGivesInventory(w: World, root: Ino, sha: Bytes -> string, kids: seq<Node>, found: seq<Found>,
                                sigs: seq<(Path, Signature)>)
    ensures Accounted(sha, [], kids, found, sigs) && ManifestOf(w, root, Rows([], kids)) ==> InventoryOf(w, root, sha, found)
  {
    if Accounted(sha, [], kids, found, sigs) && ManifestOf(w, root, Rows([], kids)) {
      ManifestGivesInventory(w, root, sha, Rows([], kids));
    }
  }

  /**
     `blob_inventory`, offline.  What it returns is the exact inventory of the root at one instant, whatever was
     done to the root meanwhile.
     */
  method Inventory(fs: FileSystem, sha: Bytes -> string, root: Ino, controls: bool)
    returns (ok: bool, found: seq<Found>)
    requires fs.Valid()
    modifies fs
    ensures fs.Onward()
    ensures ok ==> SomeInstant(fs.history, |old(fs.history)| - 1, root, sha, found)
  {
    var sig, sigs;
    ghost var inode, kids;
    ok, sig, found, sigs, inode, kids := ScanRoot(fs, sha, root, BLOB_OWNER, controls);
    if !ok {
      return;
    }
    ghost var t := fs.Now();
    ok := RecheckScan(fs, root, sigs, inode, kids);
    if ok {
      AccountedGivesInventory(fs.history[t], root, sha, kids, found, sigs);
      ghost var w := fs.history[t];
      var last := fs.Fstat(root);
      ok := last == Some(sig);
      assert fs.history[t] == w;
    }
  }
}
