/** `copy_tree`: one pass that copies and records, a recheck of the source, a full readback of the destination. */
module CopyTree {
  import opened Prelude
  import opened FileTrees
  import opened TreeScan
  import opened DirectoryScan
  import opened CopyFrame

  datatype Limits = Limits(maxFiles: nat, maxBytes: nat, symlinks: map<Path, string>)

  const MAX_DEPTH := 64

  // ---------- one file or link of the source ----------

  /** Opens a regular file, reads it, and compares before and after: the row is its recorded inode's. */
  method ReadFile(fs: FileSystem, src: Ino, name: Name, sig: Signature, ghost at: nat, ghost inode: Inode)
    returns (ok: bool, row: Row)
    requires fs.Valid() && at <= fs.Now() && Recorded(fs.history, at, sig.ino, inode, sig)
    modifies fs
    ensures fs.Onward()
    ensures ok ==> row.FileRow? && row == RowOf(inode.body) && row.meta.owner == sig.stat.owner
  {
    row := NoRow;
    ok := OpenSame(fs, src, name, sig);
    if !ok {
      return;
    }
    var xattrs := fs.Attributes(sig.ino);
    ghost var listed := fs.Now();
    var data;
    ok, data := ReadAll(fs, sig.ino, sig.stat.size, at, inode);
    ghost var read := fs.Now();
    if !ok || |data| != sig.stat.size {
      return false, row;
    }
    var held := fs.Fstat(sig.ino);
    if held != Some(sig) || xattrs.None? {
      return false, row;
    }
    UntouchedBetween(fs.history, at, listed, fs.Now(), sig.ino, inode);
    UntouchedBetween(fs.history, at, read, fs.Now(), sig.ino, inode);
    row := FileRow(data, Meta(sig.stat.owner, xattrs.value));
    var again := fs.Attributes(sig.ino);
    ok := again == xattrs;
  }

  /**
     A symbolic link is read by name, so what was read is right if the directory has not changed either.
     Only links without attributes pass.
     */
  method ReadLinkEntry(fs: FileSystem, src: Ino, name: Name, sig: Signature, reviewed: Option<string>,
                       ghost at: nat, ghost inode: Inode, ghost dirAt: nat, ghost dir: Inode)
    returns (ok: bool, row: Row)
    requires fs.Valid() && dirAt <= at <= fs.Now() && Recorded(fs.history, at, sig.ino, inode, sig)
    requires Lookup(fs.history[at], src, name) == Some(sig.ino) && Has(fs.history, dirAt, src, dir)
    modifies fs
    ensures fs.Onward()
    ensures ok && Has(fs.history, fs.Now(), src, dir) ==> row == RowOf(inode.body)
    ensures ok ==> row.LinkRow? && reviewed == Some(row.target) && row.meta == Meta(sig.stat.owner, map[])
  {
    row := NoRow;
    var target := fs.ReadLink(src, name);
    ghost var read := fs.Now();
    if target.None? || reviewed != target {
      return false, row;
    }
    var xattrs := fs.AttributesAt(src, name);
    ghost var listed := fs.Now();
    if xattrs != Some(map[]) {
      return false, row;
    }
    var late := fs.StatAt(src, name);
    ok := late == Some(sig);
    row := LinkRow(target.value, Meta(sig.stat.owner, map[]));
    if ok && Has(fs.history, fs.Now(), src, dir) {
      LinkReadByName(fs.history, [dirAt, at, read, listed, fs.Now()], src, dir, name, sig.ino, inode);
    }
  }

  // ---------- writing the copy ----------

  ghost predicate SeenOwner(h: seq<World>, from: nat, ino: Ino, owner: Owner) {
    exists t: nat :: from <= t < |h| && ino in h[t].nodes && h[t].nodes[ino].body.meta.owner == owner
  }

  ghost predicate SeenXattrs(h: seq<World>, from: nat, ino: Ino, xattrs: map<string, Bytes>) {
    exists t: nat :: from <= t < |h| && ino in h[t].nodes && h[t].nodes[ino].body.meta.xattrs == xattrs
  }

  /** `apply_metadata` and its readback: afterwards the inode was seen with this owner and these attributes. */
  method ApplyMeta(fs: FileSystem, ino: Ino, meta: Meta) returns (ok: bool)
    requires fs.Valid()
    modifies fs
    ensures fs.Onward()
    ensures ok ==> SeenOwner(fs.history, |old(fs.history)|, ino, meta.owner)
    ensures ok ==> SeenXattrs(fs.history, |old(fs.history)|, ino, meta.xattrs)
    ensures ok && !fs.disturbed ==>
              && ino in old(fs.world.nodes)
              && Rewritten(old(fs.world.nodes), fs.world.nodes, ino, old(fs.world.nodes)[ino].body.(meta := meta))
  {
    ok := fs.SetMeta(ino, meta);
    if !ok {
      return;
    }
    var sig := fs.Fstat(ino);
    ghost var t, w := fs.Now(), fs.world;
    var xattrs := fs.Attributes(ino);
    ok := sig.Some? && sig.value.stat.owner == meta.owner && xattrs == Some(meta.xattrs);
    assert fs.history[t] == w && fs.history[fs.Now()] == fs.world;
  }

  /** The bytes and the metadata of a new file. */
  method FillFile(fs: FileSystem, out: Ino, data: Bytes, meta: Meta) returns (ok: bool)
    requires fs.Valid()
    modifies fs
    ensures fs.Onward()
    ensures ok && !fs.disturbed && out in old(fs.world.nodes) && old(fs.world.nodes)[out].body.content == File([]) ==>
              Rewritten(old(fs.world.nodes), fs.world.nodes, out, old(fs.world.nodes)[out].body.(content := File(data), meta := meta))
  {
    ghost var a := fs.world.nodes;
    ok := fs.Append(out, data);
    if !ok {
      return;
    }
    ghost var b := fs.world.nodes;
    ok := ApplyMeta(fs, out, meta);
    if ok && !fs.disturbed {
      RewrittenTwice(a, b, fs.world.nodes, out, b[out].body, b[out].body.(meta := meta));
      assert [] + data == data;
    }
  }

  /** The comparison of a file's bytes with what was written. */
  method ReadsBack(fs: FileSystem, out: Ino, data: Bytes) returns (ok: bool)
    requires fs.Valid()
    modifies fs
    ensures fs.Onward() && fs.Still()
  {
    var now := fs.Fstat(out);
    if now.None? {
      return false;
    }
    var readback;
    ok, readback := ReadAll(fs, out, now.value.stat.size, fs.Now(), fs.world.nodes[out]);
    ok := ok && readback == data;
  }

  /** The new file, its bytes and metadata, and the comparison of what it then holds. */
  method WriteFile(fs: FileSystem, dst: Ino, name: Name, data: Bytes, meta: Meta) returns (ok: bool, ghost made: Ino)
    requires fs.Valid()
    modifies fs
    ensures fs.Onward()
    ensures ok && !fs.disturbed ==> Written(old(fs.world.nodes), fs.world.nodes, dst, name, made, FileRow(data, meta))
  {
    made := dst;
    var out := fs.Create(dst, name, Body(File([]), Meta(Owner(0, 0, 0x180, 0), map[]), 1));
    if out.None? || !fs.BeforeDeadline() {
      return false, made;
    }
    made := out.value;
    ghost var b := fs.world.nodes;
    ok := FillFile(fs, out.value, data, meta);
    if !ok {
      return;
    }
    ghost var c := fs.world.nodes;
    ok := ReadsBack(fs, out.value, data);
    if ok && !fs.disturbed {
      AddedThenWritten(old(fs.world.nodes), b, c, dst, name, made);
    }
  }

  method WriteLink(fs: FileSystem, dst: Ino, name: Name, target: string, meta: Meta) returns (ok: bool, ghost made: Ino)
    requires fs.Valid()
    modifies fs
    ensures fs.Onward()
    ensures ok && !fs.disturbed ==> Written(old(fs.world.nodes), fs.world.nodes, dst, name, made, LinkRow(target, meta))
  {
    made := dst;
    var out := fs.Create(dst, name, Body(Link(target), meta, 1));
    if out.None? {
      return false, made;
    }
    made := out.value;
    var copy := fs.StatAt(dst, name);
    var back := fs.ReadLink(dst, name);
    ok := copy.Some? && copy.value.stat.owner == meta.owner && back == Some(target);
  }

  // ---------- the pass over the source ----------

  type Plan = map<Path, seq<Name>>

  predicate KeptAt(before: Plan, after: Plan, p: Path) {
    p in before ==> p in after && after[p] == before[p]
  }

  ghost predicate Kept(before: Plan, after: Plan) {
    forall p :: KeptAt(before, after, p)
  }

  predicate UnplannedAt(plan: Plan, prefix: Path, q: Path) {
    q in plan ==> !(prefix <= q)
  }

  /** No directory at or below this path has its names recorded. */
  ghost predicate Unplanned(plan: Plan, prefix: Path) {
    forall q :: UnplannedAt(plan, prefix, q)
  }

  predicate NewAt(before: Plan, after: Plan, prefix: Path, q: Path) {
    q in after && q !in before ==> prefix <= q
  }

  /** All that was recorded since is at or below `prefix`. */
  ghost predicate PlannedBelow(before: Plan, after: Plan, prefix: Path) {
    Kept(before, after) && forall q :: NewAt(before, after, prefix, q)
  }

  /** The recorded names of a directory and of all directories below it are those of these nodes. */
  ghost predicate Planned(names: Plan, prefix: Path, kids: seq<Node>)
    decreases kids, 1
  {
    && prefix in names && |names[prefix]| == |kids| && Distinct(names[prefix])
    && forall k :: 0 <= k < |kids| ==> names[prefix][k] == kids[k].name && PlannedNode(names, prefix, kids[k])
  }

  ghost predicate PlannedNode(names: Plan, prefix: Path, node: Node)
    decreases node, 0
  {
    if node.row.DirRow? then Planned(names, prefix + [node.name], node.kids) else node.kids == []
  }

  lemma {:induction false} PlannedStays(names: Plan, names': Plan, prefix: Path, node: Node)
    requires PlannedNode(names, prefix, node) && Kept(names, names')
    ensures PlannedNode(names', prefix, node)
    decreases node
  {
    assert KeptAt(names, names', prefix + [node.name]);
    forall k | 0 <= k < |node.kids| ensures PlannedNode(names', prefix + [node.name], node.kids[k]) {
      PlannedStays(names, names', prefix + [node.name], node.kids[k]);
    }
  }

  predicate NewNameAt(before: Plan, after: Plan, prefix: Path, listing: seq<Name>, q: Path) {
    q in after && q !in before ==> |q| > |prefix| && prefix <= q && q[|prefix|] in listing
  }

  ghost predicate PlanSoFar(plan: Plan, prefix: Path, listing: seq<Name>, kids: seq<Node>, k: nat) {
    k < |kids| && k < |listing| ==> kids[k].name == listing[k] && PlannedNode(plan, prefix, kids[k])
  }

  ghost predicate PlannedSoFar(before: Plan, after: Plan, prefix: Path, listing: seq<Name>, kids: seq<Node>) {
    && Kept(before, after)
    && (forall q :: NewNameAt(before, after, prefix, listing, q))
    && |kids| == |listing|
    && forall k: nat :: PlanSoFar(after, prefix, listing, kids, k)
  }

  lemma NextUnplanned(before: Plan, after: Plan, prefix: Path, listing: seq<Name>, i: nat, kids: seq<Node>)
    requires i < |listing| && Distinct(listing)
    requires Unplanned(before, prefix) && PlannedSoFar(before, after, prefix, listing[..i], kids)
    ensures Unplanned(after, prefix + [listing[i]])
  {
    var rel := prefix + [listing[i]];
    forall q ensures UnplannedAt(after, rel, q) {
      assert UnplannedAt(before, prefix, q) && NewNameAt(before, after, prefix, listing[..i], q);
      PrefixOfLonger(prefix, listing[i], q);
    }
  }

  lemma PrefixOfLonger(prefix: Path, name: Name, q: Path)
    ensures prefix + [name] <= q <==> prefix <= q && |q| > |prefix| && q[|prefix|] == name
  {
    var rel := prefix + [name];
    if rel <= q {
      assert q[|prefix|] == rel[|prefix|];
      assert prefix == rel[..|prefix|] == q[..|prefix|];
    }
  }

  lemma PlannedSoFarNext(before: Plan, mid: Plan, after: Plan, prefix: Path, listing: seq<Name>, i: nat,
                         kids: seq<Node>, node: Node)
    requires i < |listing| && PlannedSoFar(before, mid, prefix, listing[..i], kids)
    requires PlannedBelow(mid, after, prefix + [listing[i]])
    requires node.name == listing[i] && PlannedNode(after, prefix, node)
    ensures PlannedSoFar(before, after, prefix, listing[..i + 1], kids + [node])
  {
    var longer, more := listing[..i + 1], kids + [node];
    assert longer == listing[..i] + [listing[i]];
    forall q ensures KeptAt(before, after, q) && NewNameAt(before, after, prefix, longer, q) {
      assert KeptAt(before, mid, q) && KeptAt(mid, after, q);
      assert NewNameAt(before, mid, prefix, listing[..i], q) && NewAt(mid, after, prefix + [listing[i]], q);
      PrefixOfLonger(prefix, listing[i], q);
    }
    forall k: nat ensures PlanSoFar(after, prefix, longer, more, k) {
      assert PlanSoFar(mid, prefix, listing[..i], kids, k);
      if k < |kids| {
        PlannedStays(mid, after, prefix, kids[k]);
      }
    }
  }

  lemma PlannedWhole(before: Plan, mid: Plan, after: Plan, prefix: Path, listing: seq<Name>, kids: seq<Node>)
    requires Unplanned(before, prefix) && PlannedSoFar(before, mid, prefix, listing, kids)
    requires after == mid[prefix := listing] && Distinct(listing)
    ensures PlannedBelow(before, after, prefix) && Planned(after, prefix, kids)
  {
    assert UnplannedAt(before, prefix, prefix) && NewNameAt(before, mid, prefix, listing, prefix);
    forall q ensures KeptAt(before, after, q) && NewAt(before, after, prefix, q) && KeptAt(mid, after, q) {
      assert KeptAt(before, mid, q) && NewNameAt(before, mid, prefix, listing, q);
    }
    forall k: nat | k < |kids| ensures kids[k].name == listing[k] && PlannedNode(after, prefix, kids[k]) {
      assert PlanSoFar(mid, prefix, listing, kids, k);
      PlannedStays(mid, after, prefix, kids[k]);
    }
  }

  ghost predicate CopySeen(h: seq<World>, since: nat, copied: map<Path, Signature>, p: Path) {
    p in copied ==> Rechecked(h, since, copied[p])
  }

  /** Every recorded signature of the copy is one that was seen since. */
  ghost predicate AllSeen(h: seq<World>, since: nat, copied: map<Path, Signature>) {
    since < |h| && forall p :: CopySeen(h, since, copied, p)
  }

  lemma AllSeenLater(h: seq<World>, h': seq<World>, since: nat, copied: map<Path, Signature>)
    requires AllSeen(h, since, copied) && h <= h'
    ensures AllSeen(h', since, copied)
  {
    forall p ensures CopySeen(h', since, copied, p) {
      assert CopySeen(h, since, copied, p);
      if p in copied {
        RecheckedLater(h, h', since, copied[p]);
      }
    }
  }

  lemma AllSeenNext(h: seq<World>, since: nat, copied: map<Path, Signature>, p: Path, sig: Signature)
    requires AllSeen(h, since, copied) && sig.ino in h[|h| - 1].nodes && sig == SigOf(sig.ino, h[|h| - 1].nodes[sig.ino])
    ensures AllSeen(h, since, copied[p := sig])
  {
    var more := copied[p := sig];
    forall q ensures CopySeen(h, since, more, q) {
      assert CopySeen(h, since, copied, q) && SeenAt(h, since, |h| - 1, sig);
    }
  }

  lemma AllSeenEarlier(h: seq<World>, since: nat, since': nat, copied: map<Path, Signature>)
    requires AllSeen(h, since, copied) && since' <= since
    ensures AllSeen(h, since', copied)
  {
    forall p ensures CopySeen(h, since', copied, p) {
      assert CopySeen(h, since, copied, p);
      if p in copied {
        RecheckedEarlier(h, since, since', copied[p]);
      }
    }
  }

  class Copier {
    const limits: Limits
    const device: nat
    const source: FileSystem
    const destination: FileSystem
    ghost const since: nat
    var entries: seq<Entry>
    var sigs: seq<(Path, Signature)>
    var copied: map<Path, Signature>
    var names: Plan
    var count: nat
    var total: nat

    ghost predicate Valid()
      reads this, source, destination
    {
      source != destination && source.Valid() && destination.Valid() && AllSeen(destination.history, since, copied)
    }

    constructor (limits: Limits, device: nat, source: FileSystem, destination: FileSystem)
      requires source != destination && source.Valid() && destination.Valid()
      ensures Valid() && this.limits == limits && this.device == device
      ensures this.source == source && this.destination == destination && since == destination.Now()
      ensures entries == [] && sigs == [] && copied == map[] && names == map[] && count == 0 && total == 0
    {
      this.limits, this.device, this.source, this.destination := limits, device, source, destination;
      entries, sigs, copied, names, count, total := [], [], map[], map[], 0, 0;
      since := destination.Now();
      new;
      forall p ensures CopySeen(destination.history, since, map[], p) {
      }
    }

    twostate predicate Onward()
      reads this, source, destination
    {
      Valid() && source.Onward() && destination.Onward()
    }

    /** The counter went up by the new rows, of which one may have been counted ahead, and is within the limit. */
    twostate predicate Counted(ahead: nat)
      reads this
    {
      && count + |old(entries)| + ahead == old(count) + |entries|
      && (old(count) <= limits.maxFiles ==> count <= limits.maxFiles)
    }

    /** Unless something outside changed the destination: `dst` is filled with the copies of these nodes. */
    ghost predicate FilledSince(before: Nodes, dst: Ino, kids: seq<Node>)
      reads source, destination
    {
      !destination.disturbed ==> Filled(source.history, before, destination.world.nodes, dst, kids)
    }

    /** Unless something outside changed the destination: the name in `dst` leads to the copy of this node. */
    ghost predicate PlacedSince(before: Nodes, dst: Ino, made: Ino, node: Node)
      reads source, destination
    {
      !destination.disturbed ==> Placed(source.history, before, destination.world.nodes, dst, made, node)
    }

    /** One name is done: its rows and signatures are appended, and what was read of it is tracked. */
    twostate predicate Entered(src: Ino, p: Place, prefix: Path, name: Name, sig: Signature, node: Node)
      reads this, source, destination
    {
      && Onward() && NodeAt(p, name, sig, node) && Counted(1)
      && entries == old(entries) + NodeRows(prefix, node)
      && sigs == old(sigs) + Sigs(prefix + [name], node.kids)
      && EntryRead(source.history, source.Now(), src, p.dirAt, p.dir, node)
      && PlannedBelow(old(names), names, prefix + [name]) && PlannedNode(names, prefix, node)
    }

    method EnterFile(src: Ino, dst: Ino, prefix: Path, name: Name, sig: Signature, ghost p: Place)
      returns (ok: bool, ghost made: Ino, ghost node: Node)
      requires Valid() && PlaceHolds(source.history, source.Now(), src, p, name, sig)
      modifies this, source, destination
      ensures ok ==> Entered(src, p, prefix, name, sig, node) && PlacedSince(old(destination.world.nodes), dst, made, node)
    {
      made := dst;
      node := Node(name, sig.ino, NoRow, [], Seen(p.inode, p.at, source.Now()));
      if sig.stat.nlink != 1 || sig.ino.dev != device || total + sig.stat.size > limits.maxBytes {
        return false, made, node;
      }
      total := total + sig.stat.size;
      var row;
      ok, row := ReadFile(source, src, name, sig, p.at, p.inode);
      if !ok {
        return;
      }
      ok, made := WriteFile(destination, dst, name, row.bytes, row.meta);
      AllSeenLater(old(destination.history), destination.history, since, copied);
      var late := source.StatAt(src, name);
      ok := ok && late == Some(sig);
      entries := entries + [Entry(prefix + [name], row)];
      node := Node(name, sig.ino, row, [], Seen(p.inode, p.at, source.Now()));
      LeafRead(source.history, source.Now(), src, p, sig, node);
      LeafPlaced(source.history, old(destination.world.nodes), destination.world.nodes, dst, made, node);
    }

    method EnterLink(src: Ino, dst: Ino, prefix: Path, name: Name, sig: Signature, ghost p: Place)
      returns (ok: bool, ghost made: Ino, ghost node: Node)
      requires Valid() && PlaceHolds(source.history, source.Now(), src, p, name, sig)
      modifies this, source, destination
      ensures ok ==> Entered(src, p, prefix, name, sig, node) && PlacedSince(old(destination.world.nodes), dst, made, node)
    {
      made := dst;
      var rel := prefix + [name];
      var reviewed := if rel in limits.symlinks then Some(limits.symlinks[rel]) else None;
      var row;
      ok, row := ReadLinkEntry(source, src, name, sig, reviewed, p.at, p.inode, p.dirAt, p.dir);
      node := Node(name, sig.ino, row, [], Seen(p.inode, p.at, source.Now()));
      if !ok {
        return;
      }
      ok, made := WriteLink(destination, dst, name, row.target, row.meta);
      AllSeenLater(old(destination.history), destination.history, since, copied);
      entries := entries + [Entry(rel, row)];
      LeafRead(source.history, source.Now(), src, p, sig, node);
      LeafPlaced(source.history, old(destination.world.nodes), destination.world.nodes, dst, made, node);
    }

    /** A whole directory is done. */
    twostate predicate Visited(src: Ino, prefix: Path, at: nat, dir: Inode, kids: seq<Node>)
      reads this, source, destination
    {
      && Onward() && |old(source.history)| <= at + 1 <= |source.history| && Counted(0)
      && DirRead(source.history, at, source.Now(), src, dir, kids) && AllTracked(source.history, source.Now(), kids)
      && entries == old(entries) + Rows(prefix, kids)
      && sigs == old(sigs) + Sigs(prefix, kids)
      && PlannedBelow(old(names), names, prefix) && Planned(names, prefix, kids)
    }

    method OpenChild(src: Ino, dst: Ino, name: Name, sig: Signature) returns (out: Option<Ino>)
      requires Valid()
      modifies source, destination
      ensures Onward()
      ensures out.Some? && !destination.disturbed ==>
                && Added(old(destination.world.nodes), destination.world.nodes, dst, name, out.value)
                && EmptyDirectory(destination.world.nodes, out.value)
    {
      var child := source.OpenAt(src, name, Directory);
      if sig.ino.dev != device || child.None? {
        return None;
      }
      var held := source.Fstat(child.value);
      out := destination.Create(dst, name, Body(Dir(map[]), Meta(Owner(0, 0, 0x1C0, 0), map[]), 2));
      AllSeenLater(old(destination.history), destination.history, since, copied);
      if held != Some(sig) {
        out := None;
      }
    }

    method EnterDirectory(src: Ino, dst: Ino, prefix: Path, name: Name, sig: Signature, depth: nat, ghost p: Place)
      returns (ok: bool, ghost made: Ino, ghost node: Node)
      requires Valid() && PlaceHolds(source.history, source.Now(), src, p, name, sig)
      requires sig.stat.kind == Directory && depth <= MAX_DEPTH && Unplanned(names, prefix + [name])
      modifies this, source, destination
      ensures ok ==> Entered(src, p, prefix, name, sig, node) && PlacedSince(old(destination.world.nodes), dst, made, node)
      decreases MAX_DEPTH + 1 - depth, 0
    {
      var rel := prefix + [name];
      made, node := dst, Node(name, sig.ino, NoRow, [], Seen(p.inode, p.at, source.Now()));
      var out := OpenChild(src, dst, name, sig);
      if out.None? {
        return false, made, node;
      }
      made := out.value;
      ghost var kids, childAt, childDir;
      ghost var b := destination.world.nodes;
      ok, kids, childAt, childDir := Visit(sig.ino, out.value, rel, depth + 1);
      if !ok {
        return;
      }
      ok, node := RecordDirectory(src, dst, prefix, name, sig, p, kids, childAt, childDir, old(destination.world.nodes), b, made);
    }

    /** The row of a visited subdirectory, with its attributes read once more after the visit. */
    method RecordDirectory(src: Ino, dst: Ino, prefix: Path, name: Name, sig: Signature, ghost p: Place,
                           ghost kids: seq<Node>, ghost childAt: nat, ghost child: Inode,
                           ghost before: Nodes, ghost empty: Nodes, ghost made: Ino)
      returns (ok: bool, ghost node: Node)
      requires Valid() && PlaceHolds(source.history, source.Now(), src, p, name, sig) && sig.stat.kind == Directory
      requires p.at <= childAt <= source.Now() && DirRead(source.history, childAt, source.Now(), sig.ino, child, kids)
      requires AllTracked(source.history, source.Now(), kids) && Planned(names, prefix + [name], kids)
      requires FilledSince(empty, made, kids)
      requires !destination.disturbed ==>
                 Added(before, empty, dst, name, made) && destination.world.nodes[made].body.meta == child.body.meta
      modifies `entries, source
      ensures Onward()
      ensures ok ==> NodeAt(p, name, sig, node) && node.kids == kids && PlacedSince(before, dst, made, node)
      ensures ok ==> entries == old(entries) + [Entry(prefix + [name], node.row)]
      ensures ok ==> EntryRead(source.history, source.Now(), src, p.dirAt, p.dir, node) && PlannedNode(names, prefix, node)
    {
      node := Node(name, sig.ino, NoRow, [], Seen(p.inode, p.at, source.Now()));
      var xattrs := source.Attributes(sig.ino);
      if xattrs.None? {
        return false, node;
      }
      var row := DirRow(Meta(sig.stat.owner, xattrs.value));
      entries := entries + [Entry(prefix + [name], row)];
      node := Node(name, sig.ino, row, kids, Seen(p.inode, p.at, source.Now()));
      SubdirectoryRead(old(source.history), old(source.Now()), source.history, source.Now(), node, childAt, child);
      if !destination.disturbed {
        DirectoryPlaced(old(source.history), before, empty, source.history, destination.world.nodes, dst, made, node,
                        source.Now(), childAt, child);
      }
      ok := true;
    }

    method EnterKind(src: Ino, dst: Ino, prefix: Path, name: Name, sig: Signature, depth: nat, ghost p: Place)
      returns (ok: bool, ghost made: Ino, ghost node: Node)
      requires Valid() && PlaceHolds(source.history, source.Now(), src, p, name, sig)
      requires depth <= MAX_DEPTH && Unplanned(names, prefix + [name])
      modifies this, source, destination
      ensures ok ==> Entered(src, p, prefix, name, sig, node) && PlacedSince(old(destination.world.nodes), dst, made, node)
      decreases MAX_DEPTH + 1 - depth, 1
    {
      match sig.stat.kind {
        case Directory => ok, made, node := EnterDirectory(src, dst, prefix, name, sig, depth, p);
        case Regular => ok, made, node := EnterFile(src, dst, prefix, name, sig, p);
        case Symlink => ok, made, node := EnterLink(src, dst, prefix, name, sig, p);
        case Other =>
          ok, made := false, dst;
          node := Node(name, sig.ino, NoRow, [], Seen(p.inode, p.at, source.Now()));
      }
    }

    /** One name of a directory is recorded and done. */
    twostate predicate NameDone(src: Ino, dirAt: nat, dir: Inode, prefix: Path, name: Name, node: Node)
      reads this, source, destination
    {
      && Onward() && node.name == name && Counted(0)
      && entries == old(entries) + NodeRows(prefix, node)
      && sigs == old(sigs) + NodeSigs(prefix, node)
      && EntryRead(source.history, source.Now(), src, dirAt, dir, node)
      && PlannedBelow(old(names), names, prefix + [name]) && PlannedNode(names, prefix, node)
    }

    /** The signature of the copy under its name. */
    method RecordCopy(dst: Ino, name: Name, rel: Path) returns (ok: bool)
      requires Valid()
      modifies `copied, destination
      ensures Onward() && destination.Still()
      ensures !ok ==> copied == old(copied)
      ensures ok ==> match Lookup(destination.world, dst, name)
                     case None => false
                     case Some(i) => copied == old(copied)[rel := SigOf(i, destination.world.nodes[i])]
    {
      var copy := destination.StatAt(dst, name);
      AllSeenLater(old(destination.history), destination.history, since, copied);
      ok := copy.Some?;
      if ok {
        AllSeenNext(destination.history, since, copied, rel, copy.value);
        copied := copied[rel := copy.value];
      }
    }

    method EnterName(src: Ino, dst: Ino, prefix: Path, name: Name, depth: nat, ghost dirAt: nat, ghost dir: Inode)
      returns (ok: bool, ghost made: Ino, ghost node: Node)
      requires Valid() && depth <= MAX_DEPTH && Unplanned(names, prefix + [name])
      requires dirAt <= source.Now() && Has(source.history, dirAt, src, dir)
      modifies this, source, destination
      ensures ok ==> NameDone(src, dirAt, dir, prefix, name, node) && PlacedSince(old(destination.world.nodes), dst, made, node)
      decreases MAX_DEPTH + 1 - depth, 2
    {
      var rel := prefix + [name];
      made, node := dst, Node(name, Ino(0, 0), NoRow, [], Seen(dir, 0, 0));
      count := count + 1;
      if !source.BeforeDeadline() || count > limits.maxFiles {
        return false, made, node;
      }
      var stat := source.StatAt(src, name);
      if stat.None? {
        return false, made, node;
      }
      var sig := stat.value;
      ghost var p := Place(dirAt, dir, source.Now(), source.world.nodes[sig.ino]);
      sigs := sigs + [(rel, sig)];
      ok, made, node := EnterKind(src, dst, prefix, name, sig, depth, p);
      if ok {
        ok := RecordCopy(dst, name, rel);
      }
    }

    /** All names of one directory are done. */
    twostate predicate NamesDone(src: Ino, at: nat, dir: Inode, prefix: Path, listing: seq<Name>, kids: seq<Node>)
      reads this, source, destination
    {
      && Onward() && EntriesSoFar(source.history, source.Now(), src, at, dir, listing, kids) && Counted(0)
      && entries == old(entries) + Rows(prefix, kids) && sigs == old(sigs) + Sigs(prefix, kids)
      && PlannedSoFar(old(names), names, prefix, listing, kids)
    }

    /** One more name of the listing, after the first `i` of them. */
    method EnterNext(src: Ino, dst: Ino, prefix: Path, listing: seq<Name>, i: nat, depth: nat, ghost at: nat, ghost dir: Inode,
                     ghost plan: Plan, ghost kids: seq<Node>, ghost before: Nodes)
      returns (ok: bool, ghost node: Node)
      requires Valid() && depth <= MAX_DEPTH && i < |listing| && Distinct(listing) && Unplanned(plan, prefix)
      requires EntriesSoFar(source.history, source.Now(), src, at, dir, listing[..i], kids)
      requires PlannedSoFar(plan, names, prefix, listing[..i], kids) && FilledSince(before, dst, kids)
      modifies this, source, destination
      ensures ok ==> Onward() && Counted(0)
      ensures ok ==> entries == old(entries) + NodeRows(prefix, node) && sigs == old(sigs) + NodeSigs(prefix, node)
      ensures ok ==> EntriesSoFar(source.history, source.Now(), src, at, dir, listing[..i + 1], kids + [node])
      ensures ok ==> PlannedSoFar(plan, names, prefix, listing[..i + 1], kids + [node])
      ensures ok ==> FilledSince(before, dst, kids + [node])
      decreases MAX_DEPTH + 1 - depth, 3
    {
      NextUnplanned(plan, names, prefix, listing, i, kids);
      ghost var made;
      ok, made, node := EnterName(src, dst, prefix, listing[i], depth, at, dir);
      if ok {
        EntriesSoFarNext(old(source.history), old(source.Now()), source.history, source.Now(), src, at, dir, listing, i, kids, node);
        PlannedSoFarNext(plan, old(names), names, prefix, listing, i, kids, node);
        if !destination.disturbed {
          FilledNext(old(source.history), before, old(destination.world.nodes), source.history, destination.world.nodes, dst, kids, made, node);
        }
      }
    }

    method EnterNames(src: Ino, dst: Ino, prefix: Path, listing: seq<Name>, depth: nat, ghost at: nat, ghost dir: Inode)
      returns (ok: bool, ghost kids: seq<Node>)
      requires Valid() && depth <= MAX_DEPTH && Unplanned(names, prefix)
      requires at <= source.Now() && Has(source.history, at, src, dir)
      requires Distinct(listing) && (!destination.disturbed ==> EmptyDirectory(destination.world.nodes, dst))
      modifies this, source, destination
      ensures ok ==> NamesDone(src, at, dir, prefix, listing, kids) && FilledSince(old(destination.world.nodes), dst, kids)
      decreases MAX_DEPTH + 1 - depth, 4
    {
      kids := [];
      for i := 0 to |listing|
        invariant NamesDone(src, at, dir, prefix, listing[..i], kids) && FilledSince(old(destination.world.nodes), dst, kids)
      {
        ghost var node;
        ok, node := EnterNext(src, dst, prefix, listing, i, depth, at, dir, old(names), kids, old(destination.world.nodes));
        if !ok {
          return;
        }
        RowsSnoc(prefix, kids, node);
        kids := kids + [node];
      }
      assert listing[..|listing|] == listing;
      ok := true;
    }

    /** The start of one directory: its signature, its attributes and its names. */
    method OpenListing(src: Ino)
      returns (r: Option<(Signature, map<string, Bytes>, seq<Name>)>, ghost at: nat, ghost dir: Inode, ghost listed: nat)
      requires Valid()
      modifies source
      ensures Onward()
      ensures r.Some? ==>
                && |old(source.history)| <= at + 1 && at <= listed <= source.Now()
                && Recorded(source.history, at, src, dir, r.value.0)
                && src in source.history[listed].nodes
                && Lists(r.value.2, Entries(source.history[listed].nodes[src]).Keys)
                && at < source.Now() && src in source.history[at + 1].nodes
                && r.value.1 == source.history[at + 1].nodes[src].body.meta.xattrs
    {
      at, dir, listed := source.Now(), Inode(Body(Special, Meta(Owner(0, 0, 0, 0), map[]), 0), 0), source.Now();
      var before := source.Fstat(src);
      if !source.BeforeDeadline() || before.None? {
        return None, at, dir, listed;
      }
      at, dir := source.Now(), source.world.nodes[src];
      var attrs := source.Attributes(src);
      var listing := source.List(src);
      listed := source.Now();
      if attrs.None? || listing.None? || |listing.value| > limits.maxFiles {
        return None, at, dir, listed;
      }
      r := Some((before.value, attrs.value, listing.value));
    }

    /** The signature of a finished directory of the copy. */
    method RecordHeld(dst: Ino, prefix: Path) returns (ok: bool)
      requires Valid()
      modifies `copied, destination
      ensures Onward() && destination.Still()
      ensures !ok ==> copied == old(copied)
      ensures ok ==> dst in destination.world.nodes && copied == old(copied)[prefix := SigOf(dst, destination.world.nodes[dst])]
    {
      var copy := destination.Fstat(dst);
      AllSeenLater(old(destination.history), destination.history, since, copied);
      ok := copy.Some?;
      if ok {
        AllSeenNext(destination.history, since, copied, prefix, copy.value);
        copied := copied[prefix := copy.value];
      }
    }

    /** The end of one directory's copy: its own metadata, its names and its signature. */
    method LeaveDirectory(dst: Ino, prefix: Path, meta: Meta, listing: seq<Name>) returns (ok: bool)
      requires Valid()
      modifies `names, `copied, destination
      ensures Onward()
      ensures ok ==> names == old(names)[prefix := listing]
      ensures ok && !destination.disturbed ==>
                && dst in old(destination.world.nodes)
                && Rewritten(old(destination.world.nodes), destination.world.nodes, dst,
                             old(destination.world.nodes)[dst].body.(meta := meta))
    {
      ok := ApplyMeta(destination, dst, meta);
      AllSeenLater(old(destination.history), destination.history, since, copied);
      if ok {
        names := names[prefix := listing];
        ok := RecordHeld(dst, prefix);
      }
    }

    /** The same names and the same signature once more: then the attributes read at the start are the directory's. */
    method CloseListing(src: Ino, dst: Ino, listing: seq<Name>, sig: Signature, attrs: map<string, Bytes>, ghost at: nat,
                        ghost dir: Inode, ghost listed: nat, ghost kids: seq<Node>, ghost before: Nodes) returns (ok: bool)
      requires Valid() && at <= listed <= source.Now() && sig == SigOf(src, dir)
      requires src in source.history[listed].nodes && Lists(listing, Entries(source.history[listed].nodes[src]).Keys)
      requires EntriesSoFar(source.history, source.Now(), src, at, dir, listing, kids) && FilledSince(before, dst, kids)
      requires at < source.Now() && src in source.history[at + 1].nodes
      requires attrs == source.history[at + 1].nodes[src].body.meta.xattrs
      modifies source
      ensures Onward()
      ensures ok ==> DirRead(source.history, at, source.Now(), src, dir, kids) && AllTracked(source.history, source.Now(), kids)
      ensures ok ==> FilledSince(before, dst, kids) && attrs == dir.body.meta.xattrs
    {
      ok := CloseRead(source, src, listing, sig, at, dir, listed, kids);
      if ok {
        UntouchedBetween(source.history, at, at + 1, source.Now(), src, dir);
        if !destination.disturbed {
          FilledLater(old(source.history), before, destination.world.nodes, source.history, dst, kids);
        }
      }
    }

    /** A directory's metadata, its names and all that is below them. */
    method VisitNames(src: Ino, dst: Ino, prefix: Path, depth: nat)
      returns (ok: bool, meta: Meta, listing: seq<Name>, ghost kids: seq<Node>, ghost at: nat, ghost dir: Inode)
      requires Valid() && depth <= MAX_DEPTH + 1 && Unplanned(names, prefix)
      requires !destination.disturbed ==> EmptyDirectory(destination.world.nodes, dst)
      modifies this, source, destination
      ensures ok ==> Onward() && |old(source.history)| <= at + 1 <= |source.history| && Counted(0)
      ensures ok ==> DirRead(source.history, at, source.Now(), src, dir, kids) && AllTracked(source.history, source.Now(), kids)
      ensures ok ==> entries == old(entries) + Rows(prefix, kids) && sigs == old(sigs) + Sigs(prefix, kids)
      ensures ok ==> PlannedSoFar(old(names), names, prefix, listing, kids) && Distinct(listing)
      ensures ok ==> FilledSince(old(destination.world.nodes), dst, kids) && meta == dir.body.meta
      decreases MAX_DEPTH + 1 - depth, 5
    {
      var start;
      ghost var listed;
      start, at, dir, listed := OpenListing(src);
      meta, listing, kids := Meta(Owner(0, 0, 0, 0), map[]), [], [];
      if depth > MAX_DEPTH || start.None? {
        return false, meta, listing, kids, at, dir;
      }
      listing, meta := start.value.2, Meta(start.value.0.stat.owner, start.value.1);
      ok, kids := EnterNames(src, dst, prefix, listing, depth, at, dir);
      if !ok {
        return;
      }
      ok := CloseListing(src, dst, listing, start.value.0, start.value.1, at, dir, listed, kids, old(destination.world.nodes));
    }

    method Visit(src: Ino, dst: Ino, prefix: Path, depth: nat)
      returns (ok: bool, ghost kids: seq<Node>, ghost at: nat, ghost dir: Inode)
      requires Valid() && depth <= MAX_DEPTH + 1 && Unplanned(names, prefix)
      requires !destination.disturbed ==> EmptyDirectory(destination.world.nodes, dst)
      modifies this, source, destination
      ensures ok ==> Visited(src, prefix, at, dir, kids) && FilledSince(old(destination.world.nodes), dst, kids)
      ensures ok && !destination.disturbed ==> destination.world.nodes[dst].body.meta == dir.body.meta
      decreases MAX_DEPTH + 1 - depth, 6
    {
      var meta, listing;
      ok, meta, listing, kids, at, dir := VisitNames(src, dst, prefix, depth);
      if !ok {
        return;
      }
      ghost var plan, filled := names, destination.world.nodes;
      ok := LeaveDirectory(dst, prefix, meta, listing);
      if !ok {
        return;
      }
      PlannedWhole(old(names), plan, names, prefix, listing, kids);
      if !destination.disturbed {
        FilledThenSet(source.history, old(destination.world.nodes), filled, source.history, destination.world.nodes, dst, meta, kids);
      }
    }
  }
}
