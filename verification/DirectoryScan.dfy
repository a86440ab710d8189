/**
 Reading one directory that may change meanwhile: each name is looked up and read on its own, and if the
 directory is the same at the end then the names led to those nodes and the nodes are what was read.
 */
module DirectoryScan {
  import opened Prelude
  import opened FileTrees
  import opened TreeScan

  /** The signature of this inode at this instant. */
  ghost predicate Recorded(h: seq<World>, at: nat, ino: Ino, inode: Inode, sig: Signature) {
    Has(h, at, ino, inode) && sig == SigOf(ino, inode)
  }

  /** A directory's reading: its inode at the start, the same at the end, and its names led to these nodes. */
  ghost predicate DirRead(h: seq<World>, at: nat, n: nat, dir: Ino, inode: Inode, kids: seq<Node>) {
    Has(h, at, dir, inode) && Has(h, n, dir, inode) && KidsMatch(kids, Entries(inode))
  }

  /** When the node's signature was recorded, its name led to it. */
  ghost predicate LookedUp(h: seq<World>, dir: Ino, node: Node) {
    node.seen.at < |h| && Lookup(h[node.seen.at], dir, node.name) == Some(node.ino)
  }

  /** The nodes read between two instants of a directory that did not change meanwhile are its entries. */
  lemma NamesLedToThem(h: seq<World>, at: nat, n: nat, dir: Ino, inode: Inode, kids: seq<Node>)
    requires Chain(h) && at <= n < |h|
    requires Has(h, at, dir, inode) && Has(h, n, dir, inode)
    requires forall k :: 0 <= k < |kids| ==> at <= kids[k].seen.at <= n && LookedUp(h, dir, kids[k])
    ensures forall k :: 0 <= k < |kids| ==> kids[k].name in Entries(inode) && Entries(inode)[kids[k].name] == kids[k].ino
  {
    forall k | 0 <= k < |kids|
      ensures kids[k].name in Entries(inode) && Entries(inode)[kids[k].name] == kids[k].ino
    {
      UntouchedBetween(h, at, kids[k].seen.at, n, dir, inode);
    }
  }

  /** Opens a regular file by name and compares the inode opened with the recorded signature. */
  method OpenSame(fs: FileSystem, dir: Ino, name: Name, sig: Signature) returns (ok: bool)
    requires fs.Valid()
    modifies fs
    ensures fs.Onward() && fs.Still()
  {
    var input := fs.OpenAt(dir, name, Regular);
    if input.None? {
      return false;
    }
    var held := fs.Fstat(input.value);
    ok := held == Some(sig);
  }

  /** Reads a file from start to end.  What it returns is right if the inode is still the same afterwards. */
  method ReadAll(fs: FileSystem, ino: Ino, size: nat, ghost at: nat, ghost inode: Inode) returns (ok: bool, data: Bytes)
    requires fs.Valid() && at <= fs.Now() && Has(fs.history, at, ino, inode)
    modifies fs
    ensures fs.Onward() && fs.Still()
    ensures ok ==> |data| <= size
    ensures ok && Has(fs.history, fs.Now(), ino, inode) ==> inode.body.content == File(data)
  {
    data := [];
    while true
      invariant fs.Onward() && fs.Still() && |data| <= size
      invariant Has(fs.history, fs.Now(), ino, inode) && inode.body.content.File? ==> data <= inode.body.content.bytes
      decreases size - |data|
    {
      if !fs.BeforeDeadline() {
        return false, data;
      }
      ghost var before := fs.Now();
      var chunk := fs.Read(ino, |data|);
      if Has(fs.history, fs.Now(), ino, inode) {
        UntouchedBetween(fs.history, at, before, fs.Now(), ino, inode);
      }
      if chunk.None? || |data| + |chunk.value| > size {
        return false, data;
      }
      if chunk.value == [] {
        return true, data;
      }
      data := data + chunk.value;
    }
  }

  /** While a directory stays the same, each of its names leads to the same inode. */
  lemma LinkReadByName(h: seq<World>, t: seq<nat>, src: Ino, dir: Inode, name: Name, ino: Ino, inode: Inode)
    requires Chain(h) && |t| == 5 && t[0] <= t[1] <= t[2] <= t[3] <= t[4] < |h|
    requires Has(h, t[0], src, dir) && Has(h, t[4], src, dir)
    requires Lookup(h[t[1]], src, name) == Some(ino) && Has(h, t[1], ino, inode)
    requires ino in h[t[4]].nodes && h[t[4]].nodes[ino].ctime == inode.ctime
    ensures forall k :: 1 <= k < 5 ==> Lookup(h[t[k]], src, name) == Some(ino) && Has(h, t[k], ino, inode)
  {
    forall k | 1 <= k < 5 ensures Lookup(h[t[k]], src, name) == Some(ino) && Has(h, t[k], ino, inode) {
      UntouchedBetween(h, t[0], t[1], t[4], src, dir);
      UntouchedBetween(h, t[0], t[k], t[4], src, dir);
      UntouchedBetween(h, t[1], t[k], t[4], ino, inode);
    }
  }

  /** What reading the entries of one directory has to establish for each node. */
  ghost predicate EntryRead(h: seq<World>, n: nat, src: Ino, dirAt: nat, dir: Inode, node: Node) {
    && n < |h| && dirAt <= node.seen.at <= n
    && (Has(h, n, src, dir) ==> LookedUp(h, src, node) && Tracked(h, n, node))
  }

  lemma EntryReadLater(h: seq<World>, n: nat, h': seq<World>, n': nat, src: Ino, dirAt: nat, dir: Inode, node: Node)
    requires EntryRead(h, n, src, dirAt, dir, node) && h <= h' && Chain(h') && n <= n' < |h'|
    requires Has(h, dirAt, src, dir)
    ensures EntryRead(h', n', src, dirAt, dir, node)
  {
    assert h'[node.seen.at] == h[node.seen.at] && h'[dirAt] == h[dirAt] && h'[n] == h[n];
    if Has(h', n', src, dir) {
      UntouchedBetween(h', dirAt, n, n', src, dir);
      TrackedLater(h, n, h', n', node);
    }
  }

  /** A subdirectory: what `visit` found of it is right if its inode is still the recorded one. */
  lemma SubdirectoryRead(earlier: seq<World>, read: nat, h: seq<World>, n: nat, node: Node, childAt: nat, child: Inode)
    requires Chain(h) && earlier <= h && Has(h, node.seen.at, node.ino, node.seen.inode)
    requires node.seen.at <= childAt <= read <= n == node.seen.until < |h| && read < |earlier|
    requires DirRead(earlier, childAt, read, node.ino, child, node.kids) && AllTracked(earlier, read, node.kids)
    requires node.seen.inode.body.content.Dir?
    requires Has(h, n, node.ino, node.seen.inode) ==> node.row == RowOf(node.seen.inode.body)
    ensures Tracked(h, n, node)
  {
    if Has(h, n, node.ino, node.seen.inode) {
      UntouchedBetween(h, node.seen.at, childAt, n, node.ino, node.seen.inode);
    }
    AllTrackedLater(earlier, read, h, n, node.kids);
    forall k: nat | k < |node.kids| ensures Tracked(h, n, node.kids[k]) {
      assert TrackedAt(h, n, node.kids, k);
    }
  }

  /** What `visit` knows when it turns to one name: its directory at the start, and the inode just recorded. */
  datatype Place = Place(dirAt: nat, dir: Inode, at: nat, inode: Inode)

  ghost predicate PlaceHolds(h: seq<World>, n: nat, src: Ino, p: Place, name: Name, sig: Signature) {
    && p.dirAt <= p.at <= n < |h|
    && Has(h, p.dirAt, src, p.dir) && Recorded(h, p.at, sig.ino, p.inode, sig)
    && Lookup(h[p.at], src, name) == Some(sig.ino)
  }

  ghost predicate NodeAt(p: Place, name: Name, sig: Signature, node: Node) {
    node.name == name && node.ino == sig.ino && node.seen.inode == p.inode && node.seen.at == p.at
  }

  lemma LeafRead(h: seq<World>, n: nat, src: Ino, p: Place, sig: Signature, node: Node)
    requires PlaceHolds(h, n, src, p, node.name, sig) && NodeAt(p, node.name, sig, node) && node.seen.until == n
    requires node.kids == [] && (node.row.FileRow? || node.row.LinkRow?)
    requires Has(h, n, src, p.dir) ==> node.row == RowOf(p.inode.body)
    ensures EntryRead(h, n, src, p.dirAt, p.dir, node)
  {
  }

  // ---------- the loop over one directory's names ----------

  function NameSet(names: seq<Name>): set<Name> {
    set n | n in names
  }

  /** The source compares the sorted lists. */
  predicate SameNames(a: seq<Name>, b: seq<Name>) {
    NameSet(a) == NameSet(b)
  }

  ghost predicate EntrySoFar(h: seq<World>, n: nat, src: Ino, at: nat, dir: Inode, listing: seq<Name>, kids: seq<Node>, k: nat) {
    k < |kids| && k < |listing| ==> kids[k].name == listing[k] && EntryRead(h, n, src, at, dir, kids[k])
  }

  ghost predicate EntriesSoFar(h: seq<World>, n: nat, src: Ino, at: nat, dir: Inode, listing: seq<Name>, kids: seq<Node>) {
    && at <= n < |h| && Has(h, at, src, dir)
    && |kids| == |listing| && forall k: nat :: EntrySoFar(h, n, src, at, dir, listing, kids, k)
  }

  lemma EntriesSoFarLater(h: seq<World>, n: nat, h': seq<World>, n': nat, src: Ino, at: nat, dir: Inode,
                          listing: seq<Name>, kids: seq<Node>)
    requires EntriesSoFar(h, n, src, at, dir, listing, kids) && h <= h' && Chain(h') && n <= n' < |h'|
    ensures EntriesSoFar(h', n', src, at, dir, listing, kids)
  {
    forall k: nat ensures EntrySoFar(h', n', src, at, dir, listing, kids, k) {
      assert EntrySoFar(h, n, src, at, dir, listing, kids, k);
      if k < |kids| {
        EntryReadLater(h, n, h', n', src, at, dir, kids[k]);
      }
    }
  }

  lemma EntriesSoFarNext(h: seq<World>, n: nat, h': seq<World>, n': nat, src: Ino, at: nat, dir: Inode,
                         listing: seq<Name>, i: nat, kids: seq<Node>, node: Node)
    requires i < |listing| && EntriesSoFar(h, n, src, at, dir, listing[..i], kids)
    requires h <= h' && Chain(h') && n <= n' < |h'|
    requires node.name == listing[i] && EntryRead(h', n', src, at, dir, node)
    ensures EntriesSoFar(h', n', src, at, dir, listing[..i + 1], kids + [node])
  {
    EntriesSoFarLater(h, n, h', n', src, at, dir, listing[..i], kids);
    var longer, more := listing[..i + 1], kids + [node];
    forall k: nat ensures EntrySoFar(h', n', src, at, dir, longer, more, k) {
      assert EntrySoFar(h', n', src, at, dir, listing[..i], kids, k);
    }
  }

  /** A directory that was the same at the end: everything read of its entries holds. */
  lemma DirectoryRead(h: seq<World>, src: Ino, at: nat, l: nat, n: nat, dir: Inode, listing: seq<Name>, kids: seq<Node>)
    requires Chain(h) && at <= l <= n < |h|
    requires Has(h, at, src, dir) && src in h[n].nodes && h[n].nodes[src].ctime == dir.ctime
    requires src in h[l].nodes && Lists(listing, Entries(h[l].nodes[src]).Keys)
    requires EntriesSoFar(h, n, src, at, dir, listing, kids)
    ensures DirRead(h, at, n, src, dir, kids) && AllTracked(h, n, kids)
  {
    UntouchedBetween(h, at, l, n, src, dir);
    forall k: nat | k < |kids|
      ensures kids[k].name == listing[k] && at <= kids[k].seen.at <= n && LookedUp(h, src, kids[k])
      ensures Tracked(h, n, kids[k])
    {
      assert EntrySoFar(h, n, src, at, dir, listing, kids, k);
    }
    forall k: nat ensures TrackedAt(h, n, kids, k) {
    }
    NamesLedToThem(h, at, n, src, dir, kids);
    ListingMatches(listing, Entries(dir), kids);
  }

  lemma ListingMatches(listing: seq<Name>, entries: map<Name, Ino>, kids: seq<Node>)
    requires Lists(listing, entries.Keys)
    requires |kids| == |listing| && forall k :: 0 <= k < |kids| ==> kids[k].name == listing[k]
    requires forall k :: 0 <= k < |kids| ==> kids[k].name in entries && entries[kids[k].name] == kids[k].ino
    ensures KidsMatch(kids, entries)
  {
    forall name | name in entries ensures Named(kids, name) {
      assert name in listing;
      var k :| 0 <= k < |listing| && listing[k] == name;
      assert kids[k].name == name;
    }
    forall j, k | 0 <= j < k < |kids| ensures kids[j].name != kids[k].name {
      assert listing[j] != listing[k];
    }
  }

  lemma ListedAs(observed: seq<Name>, listing: seq<Name>, keys: set<Name>)
    requires SameNames(observed, listing) && Lists(observed, keys) && Distinct(listing)
    ensures Lists(listing, keys)
  {
    forall n ensures n in listing <==> n in keys {
      assert n in listing <==> n in NameSet(listing);
      assert n in observed <==> n in NameSet(observed);
    }
  }

  /**
     The end of a directory's reading: with the same names and the same signature as at the start, everything read
     of its entries holds.
     */
  method CloseRead(fs: FileSystem, dir: Ino, listing: seq<Name>, sig: Signature, ghost at: nat, ghost inode: Inode,
                   ghost listed: nat, ghost kids: seq<Node>) returns (ok: bool)
    requires fs.Valid() && at <= listed <= fs.Now() && sig == SigOf(dir, inode)
    requires dir in fs.history[listed].nodes && Lists(listing, Entries(fs.history[listed].nodes[dir]).Keys)
    requires EntriesSoFar(fs.history, fs.Now(), dir, at, inode, listing, kids)
    modifies fs
    ensures fs.Onward() && fs.Still()
    ensures ok ==> DirRead(fs.history, at, fs.Now(), dir, inode, kids) && AllTracked(fs.history, fs.Now(), kids)
  {
    ghost var h, n := fs.history, fs.Now();
    var again := fs.List(dir);
    var after := fs.Fstat(dir);
    ok := again.Some? && SameNames(again.value, listing) && after == Some(sig);
    if ok {
      EntriesSoFarLater(h, n, fs.history, fs.Now(), dir, at, inode, listing, kids);
      DirectoryRead(fs.history, dir, at, listed, fs.Now(), inode, listing, kids);
    }
  }
}
