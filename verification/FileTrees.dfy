/**
 A file system that something else may change before every system call.  Each change of an inode, and
 each reuse of its number, gives it a change time never used before; nothing else is assumed about it.
 */
module FileTrees {
  import opened Prelude

  type Name = string
  type Path = seq<Name>
  type Bytes = seq<nat>

  datatype Ino = Ino(dev: nat, number: nat)

  datatype Owner = Owner(uid: nat, gid: nat, mode: nat, mtime: int)
  datatype Meta = Meta(owner: Owner, xattrs: map<string, Bytes>)

  datatype Content =
    | File(bytes: Bytes)
    | Dir(entries: map<Name, Ino>)
    | Link(target: string)
    | Special

  datatype Body = Body(content: Content, meta: Meta, nlink: nat)
  datatype Inode = Inode(body: Body, ctime: nat)

  datatype World = World(nodes: map<Ino, Inode>, clock: nat)

  // ---------- what `stat` shows ----------

  datatype Kind = Regular | Directory | Symlink | Other

  function KindOf(content: Content): Kind {
    match content
    case File(_) => Regular
    case Dir(_) => Directory
    case Link(_) => Symlink
    case Special => Other
  }

  function SizeOf(content: Content): nat {
    match content
    case File(bytes) => |bytes|
    case Dir(entries) => |entries|
    case Link(target) => |target|
    case Special => 0
  }

  datatype Stat = Stat(kind: Kind, owner: Owner, size: nat, nlink: nat)

  /** `signature` of `copy_tree.py`: extended attributes and contents are not in it. */
  datatype Signature = Signature(ino: Ino, stat: Stat, ctime: nat)

  function StatOf(body: Body): Stat {
    Stat(KindOf(body.content), body.meta.owner, SizeOf(body.content), body.nlink)
  }

  function SigOf(ino: Ino, inode: Inode): Signature {
    Signature(ino, StatOf(inode.body), inode.ctime)
  }

  function Entries(inode: Inode): map<Name, Ino> {
    if inode.body.content.Dir? then inode.body.content.entries else map[]
  }

  function Lookup(w: World, dir: Ino, name: Name): Option<Ino> {
    if dir in w.nodes && name in Entries(w.nodes[dir]) && Entries(w.nodes[dir])[name] in w.nodes
    then Some(Entries(w.nodes[dir])[name]) else None
  }

  /** What `fstat` gives. */
  function StatIn(w: World, ino: Ino): Option<Signature> {
    if ino in w.nodes then Some(SigOf(ino, w.nodes[ino])) else None
  }

  function AttributesIn(w: World, ino: Ino): Option<map<string, Bytes>> {
    if ino in w.nodes then Some(w.nodes[ino].body.meta.xattrs) else None
  }

  function NamesIn(w: World, dir: Ino): Option<set<Name>> {
    if dir in w.nodes && w.nodes[dir].body.content.Dir? then Some(w.nodes[dir].body.content.entries.Keys) else None
  }

  /** The inode that a relative path leads to. */
  function Resolve(w: World, from: Ino, path: Path): Option<Ino>
    decreases |path|
  {
    if path == [] then Some(from)
    else match Lookup(w, from, path[0])
      case None => None
      case Some(next) => Resolve(w, next, path[1..])
  }

  // ---------- change ----------

  /** What one outside step does: inodes rewritten, created or removed. */
  type Change = map<Ino, Option<Body>>

  function Changed(w: World, change: Change): World {
    World(map i | i in w.nodes.Keys + change.Keys && !(i in change && change[i].None?) ::
            if i in change then Inode(change[i].value, w.clock + 1) else w.nodes[i],
          w.clock + 1)
  }

  predicate ClockedAt(w: World, i: Ino) {
    i in w.nodes ==> w.nodes[i].ctime <= w.clock
  }

  predicate QuietAt(script: seq<Change>, k: nat) {
    k < |script| ==> script[k] == map[]
  }

  /** Nothing outside changes anything. */
  ghost predicate AllQuiet(script: seq<Change>) {
    forall k: nat :: QuietAt(script, k)
  }

  ghost predicate WellClocked(w: World) {
    forall i :: ClockedAt(w, i)
  }

  /** Between two instants an inode is either untouched or carries a change time that was unused at the first. */
  predicate EvolvesAt(w: World, w': World, i: Ino) {
    i in w'.nodes ==> (i in w.nodes && w'.nodes[i] == w.nodes[i]) || w.clock < w'.nodes[i].ctime <= w'.clock
  }

  ghost predicate Evolves(w: World, w': World) {
    w.clock <= w'.clock && forall i :: EvolvesAt(w, w', i)
  }

  lemma ChangedEvolves(w: World, change: Change)
    requires WellClocked(w)
    ensures Evolves(w, Changed(w, change)) && WellClocked(Changed(w, change))
  {
    forall i ensures EvolvesAt(w, Changed(w, change), i) && ClockedAt(Changed(w, change), i) {
      assert ClockedAt(w, i);
    }
  }

  ghost predicate LinkAt(h: seq<World>, i: nat) {
    i < |h| ==> WellClocked(h[i]) && (i > 0 ==> Evolves(h[i - 1], h[i]))
  }

  /** The worlds of a run, one after each system call. */
  ghost predicate Chain(h: seq<World>) {
    |h| > 0 && forall i: nat :: LinkAt(h, i)
  }

  lemma ChainGrows(h: seq<World>, w: World)
    requires Chain(h) && Evolves(h[|h| - 1], w) && WellClocked(w)
    ensures Chain(h + [w])
  {
    var longer := h + [w];
    forall i: nat ensures LinkAt(longer, i) {
      assert LinkAt(h, i);
    }
  }

  lemma {:induction false} ChainPair(h: seq<World>, i: nat, j: nat)
    requires Chain(h) && i <= j < |h|
    ensures WellClocked(h[i]) && WellClocked(h[j]) && Evolves(h[i], h[j])
    decreases j
  {
    assert LinkAt(h, i) && LinkAt(h, j);
    if i < j {
      ChainPair(h, i, j - 1);
      forall k ensures EvolvesAt(h[i], h[j], k) {
        assert EvolvesAt(h[i], h[j - 1], k) && EvolvesAt(h[j - 1], h[j], k);
      }
    } else {
      forall k ensures EvolvesAt(h[i], h[i], k) {
      }
    }
  }

  ghost predicate Has(h: seq<World>, n: nat, ino: Ino, inode: Inode) {
    n < |h| && ino in h[n].nodes && h[n].nodes[ino] == inode
  }

  /** The core of every recheck: an equal change time at two instants means the same inode at all instants between. */
  lemma UntouchedBetween(h: seq<World>, a: nat, m: nat, b: nat, ino: Ino, inode: Inode)
    requires Chain(h) && a <= m <= b < |h|
    requires Has(h, a, ino, inode)
    requires ino in h[b].nodes && h[b].nodes[ino].ctime == inode.ctime
    ensures Has(h, m, ino, inode) && Has(h, b, ino, inode)
  {
    ChainPair(h, a, m);
    ChainPair(h, m, b);
    ChainPair(h, a, b);
    assert ClockedAt(h[a], ino) && EvolvesAt(h[a], h[m], ino) && EvolvesAt(h[m], h[b], ino) && EvolvesAt(h[a], h[b], ino);
  }

  lemma QuietRest(script: seq<Change>)
    requires script != []
    ensures AllQuiet(script) ==> script[0] == map[] && AllQuiet(script[1..])
  {
    if AllQuiet(script) {
      assert QuietAt(script, 0);
      var rest := script[1..];
      forall k: nat ensures QuietAt(rest, k) {
        assert QuietAt(script, k + 1);
      }
    }
  }

  lemma NoChange(w: World)
    ensures Changed(w, map[]).nodes == w.nodes
  {
  }

  // ---------- what this process itself changes ----------

  type Nodes = map<Ino, Inode>

  predicate SameAt(a: Nodes, b: Nodes, i: Ino) {
    i in a ==> i in b && b[i] == a[i]
  }

  /** Every inode but one is there as before. */
  ghost predicate SameBut(a: Nodes, b: Nodes, ino: Ino) {
    forall i :: i != ino ==> SameAt(a, b, i)
  }

  /** One inode has a new body. */
  ghost predicate Rewritten(a: Nodes, b: Nodes, ino: Ino, body: Body) {
    ino in a && ino in b && b[ino].body == body && SameBut(a, b, ino)
  }

  /** A directory has a new name for a new inode. */
  ghost predicate Added(a: Nodes, b: Nodes, dir: Ino, name: Name, ino: Ino) {
    && dir in a && a[dir].body.content.Dir? && name !in Entries(a[dir]) && ino !in a && ino in b
    && Rewritten(a, b, dir, a[dir].body.(content := Dir(Entries(a[dir])[name := ino])))
  }

  // ---------- system calls ----------

  const CHUNK := 1048576

  class FileSystem {
    var world: World
    /** What the outside does before each of the next system calls; its end is the deadline. */
    var script: seq<Change>
    ghost var history: seq<World>
    /** Something outside has changed something. */
    ghost var disturbed: bool

    ghost predicate Valid()
      reads this
    {
      Chain(history) && history[|history| - 1] == world
    }

    ghost function Now(): nat
      reads this
      requires Valid()
    {
      |history| - 1
    }

    lemma WorldIsClocked()
      requires Valid()
      ensures WellClocked(world)
    {
      assert LinkAt(history, |history| - 1);
    }

    constructor (world: World, script: seq<Change>)
      requires WellClocked(world)
      ensures Valid() && this.world == world && this.script == script && history == [world] && !disturbed
    {
      this.world, this.script := world, script;
      history, disturbed := [world], false;
      new;
      forall i: nat ensures LinkAt(history, i) {
      }
    }

    twostate predicate Onward()
      reads this
    {
      && Valid() && old(history) <= history && (old(disturbed) ==> disturbed)
      && (!old(disturbed) && AllQuiet(old(script)) ==> !disturbed && AllQuiet(script))
    }

    /** Unless something outside changed something, everything is as it was. */
    twostate predicate Still()
      reads this
    {
      !disturbed ==> world.nodes == old(world.nodes)
    }

    predicate BeforeDeadline()
      reads this
    {
      script != []
    }

    method Tick()
      requires Valid()
      modifies this
      ensures Onward() && Still() && Now() == old(Now()) + 1
      ensures world == if old(script) == [] then old(world) else Changed(old(world), old(script)[0])
      ensures script == if old(script) == [] then [] else old(script)[1..]
      ensures disturbed == (old(disturbed) || (old(script) != [] && old(script)[0] != map[]))
    {
      WorldIsClocked();
      if script != [] {
        ChangedEvolves(world, script[0]);
        QuietRest(script);
        NoChange(world);
        disturbed := disturbed || script[0] != map[];
        world, script := Changed(world, script[0]), script[1..];
      } else {
        ChainPair(history, |history| - 1, |history| - 1);
      }
      ChainGrows(history, world);
      history := history + [world];
    }

    method Fstat(ino: Ino) returns (r: Option<Signature>)
      requires Valid()
      modifies this
      ensures Onward() && Still() && Now() == old(Now()) + 1
      ensures r == if ino in world.nodes then Some(SigOf(ino, world.nodes[ino])) else None
    {
      Tick();
      r := StatIn(world, ino);
    }

    method StatAt(dir: Ino, name: Name) returns (r: Option<Signature>)
      requires Valid()
      modifies this
      ensures Onward() && Still() && Now() == old(Now()) + 1
      ensures r == match Lookup(world, dir, name)
                   case None => None
                   case Some(i) => Some(SigOf(i, world.nodes[i]))
    {
      Tick();
      r := match Lookup(world, dir, name)
        case None => None
        case Some(i) => Some(SigOf(i, world.nodes[i]));
    }

    /** Opens without following a link, and only what has the wanted kind. */
    method OpenAt(dir: Ino, name: Name, want: Kind) returns (r: Option<Ino>)
      requires Valid()
      modifies this
      ensures Onward() && Still() && Now() == old(Now()) + 1
      ensures r == match Lookup(world, dir, name)
                   case None => None
                   case Some(i) => if KindOf(world.nodes[i].body.content) == want then Some(i) else None
    {
      Tick();
      r := match Lookup(world, dir, name)
        case None => None
        case Some(i) => if KindOf(world.nodes[i].body.content) == want then Some(i) else None;
    }

    method ReadLink(dir: Ino, name: Name) returns (r: Option<string>)
      requires Valid()
      modifies this
      ensures Onward() && Still() && Now() == old(Now()) + 1
      ensures r == match Lookup(world, dir, name)
                   case None => None
                   case Some(i) =>
                     if world.nodes[i].body.content.Link? then Some(world.nodes[i].body.content.target) else None
    {
      Tick();
      r := match Lookup(world, dir, name)
        case None => None
        case Some(i) => if world.nodes[i].body.content.Link? then Some(world.nodes[i].body.content.target) else None;
    }

    method Attributes(ino: Ino) returns (r: Option<map<string, Bytes>>)
      requires Valid()
      modifies this
      ensures Onward() && Still() && Now() == old(Now()) + 1
      ensures r == if ino in world.nodes then Some(world.nodes[ino].body.meta.xattrs) else None
    {
      Tick();
      r := AttributesIn(world, ino);
    }

    /** The same by name, without following a link. */
    method AttributesAt(dir: Ino, name: Name) returns (r: Option<map<string, Bytes>>)
      requires Valid()
      modifies this
      ensures Onward() && Still() && Now() == old(Now()) + 1
      ensures r == match Lookup(world, dir, name)
                   case None => None
                   case Some(i) => Some(world.nodes[i].body.meta.xattrs)
    {
      Tick();
      r := match Lookup(world, dir, name)
        case None => None
        case Some(i) => Some(world.nodes[i].body.meta.xattrs);
    }

    /** The next chunk from an offset; empty at the end of the file. */
    method Read(ino: Ino, offset: nat) returns (r: Option<Bytes>)
      requires Valid()
      modifies this
      ensures Onward() && Still() && Now() == old(Now()) + 1
      ensures ino in world.nodes && world.nodes[ino].body.content.File? ==>
                r == Some(ChunkAt(world.nodes[ino].body.content.bytes, offset))
      ensures !(ino in world.nodes && world.nodes[ino].body.content.File?) ==> r == None
    {
      Tick();
      if ino in world.nodes && world.nodes[ino].body.content.File? {
        r := Some(ChunkAt(world.nodes[ino].body.content.bytes, offset));
      } else {
        r := None;
      }
    }

    /** One change made by this process itself. */
    method Perform(change: Change)
      requires Valid()
      modifies this
      ensures Onward() && Now() == old(Now()) + 1
      ensures world == Changed(old(world), change) && script == old(script) && disturbed == old(disturbed)
    {
      WorldIsClocked();
      ChangedEvolves(world, change);
      world := Changed(world, change);
      ChainGrows(history, world);
      history := history + [world];
    }

    /** `mkdir`, `open` with `O_EXCL` and `symlink`: a new inode under a name the directory does not have. */
    method Create(dir: Ino, name: Name, body: Body) returns (r: Option<Ino>)
      requires Valid()
      modifies this
      ensures Onward() && Now() > old(Now())
      ensures r.Some? ==> Lookup(world, dir, name) == r && world.nodes[r.value].body == body
      ensures r.Some? && !disturbed ==> Added(old(world.nodes), world.nodes, dir, name, r.value)
    {
      Tick();
      if dir !in world.nodes || !world.nodes[dir].body.content.Dir? || name in Entries(world.nodes[dir]) {
        return None;
      }
      ghost var above := NumberAbove(world.nodes.Keys);
      assert Ino(dir.dev, above) !in world.nodes;
      var number: nat :| Ino(dir.dev, number) !in world.nodes;
      var ino, parent := Ino(dir.dev, number), world.nodes[dir].body;
      Perform(map[dir := Some(parent.(content := Dir(parent.content.entries[name := ino]))), ino := Some(body)]);
      r := Some(ino);
    }

    /** `write` at the end of a file. */
    method Append(ino: Ino, bytes: Bytes) returns (ok: bool)
      requires Valid()
      modifies this
      ensures Onward() && Now() >= old(Now())
      ensures ok ==> ino in world.nodes && EndsWith(world.nodes[ino].body.content, bytes)
      ensures ok && !disturbed ==>
                && ino in old(world.nodes) && old(world.nodes)[ino].body.content.File?
                && Rewritten(old(world.nodes), world.nodes, ino,
                             old(world.nodes)[ino].body.(content := File(old(world.nodes)[ino].body.content.bytes + bytes)))
    {
      Tick();
      ok := ino in world.nodes && world.nodes[ino].body.content.File?;
      if ok {
        var body := world.nodes[ino].body;
        Perform(map[ino := Some(body.(content := File(body.content.bytes + bytes)))]);
      }
    }

    /** `fchown`, `fchmod`, the extended attributes and `utime`. */
    method SetMeta(ino: Ino, meta: Meta) returns (ok: bool)
      requires Valid()
      modifies this
      ensures Onward() && Now() >= old(Now())
      ensures ok == (ino in world.nodes)
      ensures ok ==> world.nodes[ino].body.meta == meta
      ensures ok && !disturbed ==>
                ino in old(world.nodes) && Rewritten(old(world.nodes), world.nodes, ino, old(world.nodes)[ino].body.(meta := meta))
    {
      Tick();
      ok := ino in world.nodes;
      if ok {
        Perform(map[ino := Some(world.nodes[ino].body.(meta := meta))]);
      }
    }

    /** The names of a directory, in some order. */
    method List(dir: Ino) returns (r: Option<seq<Name>>)
      requires Valid()
      modifies this
      ensures Onward() && Still() && Now() == old(Now()) + 1
      ensures r.Some? <==> dir in world.nodes && world.nodes[dir].body.content.Dir?
      ensures r.Some? ==> Lists(r.value, Entries(world.nodes[dir]).Keys)
    {
      Tick();
      var keys := NamesIn(world, dir);
      if keys.Some? {
        var names := Enumerate(keys.value);
        r := Some(names);
      } else {
        r := None;
      }
    }
  }

  lemma {:induction false} NumberAbove(nodes: set<Ino>) returns (n: nat)
    ensures forall i :: i in nodes ==> i.number < n
  {
    n := 0;
    if nodes != {} {
      var i :| i in nodes;
      var rest := NumberAbove(nodes - {i});
      n := if i.number < rest then rest else i.number + 1;
    }
  }

  predicate EndsWith(content: Content, bytes: Bytes) {
    content.File? && |bytes| <= |content.bytes| && content.bytes[|content.bytes| - |bytes|..] == bytes
  }

  function ChunkAt(bytes: Bytes, offset: nat): (r: Bytes)
    ensures offset <= |bytes| ==> offset + |r| <= |bytes| && r == bytes[offset..offset + |r|]
    ensures r == [] <==> offset >= |bytes|
  {
    if offset >= |bytes| then []
    else if |bytes| - offset <= CHUNK then bytes[offset..]
    else bytes[offset..offset + CHUNK]
  }

  ghost predicate Distinct(names: seq<Name>) {
    forall j, k :: 0 <= j < k < |names| ==> names[j] != names[k]
  }

  /** Every element of the set once. */
  ghost predicate Lists(names: seq<Name>, keys: set<Name>) {
    (forall n :: n in names <==> n in keys) && Distinct(names)
  }

  method Enumerate(keys: set<Name>) returns (r: seq<Name>)
    ensures Lists(r, keys)
  {
    r := [];
    var todo := keys;
    while todo != {}
      invariant todo <= keys
      invariant Lists(r, keys - todo)
      decreases |todo|
    {
      var name :| name in todo;
      todo := todo - {name};
      r := r + [name];
    }
  }
}
