/**
 Copying a family's union into a fresh root: bounded batches, each ended by a barrier, and what a crash at any
 moment can take away.
 */
module BlobCopy {
  import opened Prelude
  import opened BlobUnion

  type Bytes = seq<nat>

  /** A digest says which bytes it was taken of. */
  datatype Digest = Sha256(bytes: Bytes)

  const BATCH_FILES := 64
  const BATCH_BYTES := 4194304
  const CHUNK := 1048576

  // ---------- the disk ----------

  /** A file, whether its name is durable in its shard, and whether its bytes are. */
  datatype FileState = FileState(linked: bool, bytes: Bytes, synced: bool)

  /** A shard directory, and whether its name is durable in the root. */
  datatype Shard = Shard(linked: bool, files: map<string, FileState>)

  /** The new root, and whether its own name is durable in its parent. */
  datatype Disk = Disk(linked: bool, shards: map<string, Shard>)

  type Place = (string, string)

  ghost predicate Present(d: Disk, p: Place) {
    p.0 in d.shards && p.1 in d.shards[p.0].files
  }

  function StateAt(d: Disk, p: Place): FileState
    requires p.0 in d.shards && p.1 in d.shards[p.0].files
  {
    d.shards[p.0].files[p.1]
  }

  /** Root, shard and file names durable, and the bytes too. */
  ghost predicate Durable(d: Disk, p: Place, bytes: Bytes) {
    && d.linked && Present(d, p) && d.shards[p.0].linked
    && StateAt(d, p) == FileState(true, bytes, true)
  }

  /** What may be found after a crash: at least everything durable; unsynced bytes may be anything. */
  type View = map<Place, Bytes>

  ghost predicate MayBeFound(d: Disk, view: View) {
    forall p :: FoundRight(d, view, p)
  }

  ghost predicate FoundRight(d: Disk, view: View, p: Place) {
    && (p in view ==> Present(d, p) && (StateAt(d, p).synced ==> view[p] == StateAt(d, p).bytes))
    && (d.linked && Present(d, p) && d.shards[p.0].linked && StateAt(d, p).linked ==> p in view)
  }

  ghost predicate SurvivesAnyCrash(d: Disk, p: Place, bytes: Bytes) {
    forall view :: MayBeFound(d, view) ==> p in view && view[p] == bytes
  }

  /** The places whose every name is durable. */
  ghost function Named(d: Disk): set<Place> {
    set s, n | s in d.shards && n in d.shards[s].files && d.linked && d.shards[s].linked && d.shards[s].files[n].linked :: (s, n)
  }

  /** The least that can be left, with the unsynced bytes of one file replaced by other ones. */
  ghost function Worst(d: Disk, victim: Place, other: Bytes): View {
    map p | p in Named(d) :: if p == victim && !StateAt(d, p).synced then other else StateAt(d, p).bytes
  }

  /** A file survives every crash exactly when its name, its shard's, its root's and its bytes are all durable. */
  lemma DurableExactly(d: Disk, p: Place, bytes: Bytes)
    ensures SurvivesAnyCrash(d, p, bytes) <==> Durable(d, p, bytes)
  {
    if Durable(d, p, bytes) {
      forall view | MayBeFound(d, view) ensures p in view && view[p] == bytes {
        assert FoundRight(d, view, p);
      }
    }
    if SurvivesAnyCrash(d, p, bytes) {
      var view := Worst(d, p, bytes + [0]);
      forall q ensures FoundRight(d, view, q) {
        if d.linked && Present(d, q) && d.shards[q.0].linked && StateAt(d, q).linked {
          assert (q.0, q.1) in Named(d);
        }
      }
      assert MayBeFound(d, view);
      assert p in view && view[p] == bytes;
    }
  }

  // ---------- one target root ----------

  /** A generation to be copied: its place, the digest of its bytes and their number. */
  datatype Row = Row(place: Place, digest: Digest, size: nat)

  /** Nothing that was durable is lost. */
  ghost predicate KeepsAt(d: Disk, d': Disk, p: Place, bytes: Bytes) {
    Durable(d, p, bytes) ==> Durable(d', p, bytes)
  }

  ghost predicate Keeps(d: Disk, d': Disk) {
    forall p, bytes :: KeepsAt(d, d', p, bytes)
  }

  ghost predicate KeepsFrom(h: seq<Disk>, i: nat) {
    i + 1 < |h| ==> Keeps(h[i], h[i + 1])
  }

  /** The disks of a run, one after each system call: a crash may come at any of them. */
  ghost predicate Chain(h: seq<Disk>) {
    |h| > 0 && forall i: nat :: KeepsFrom(h, i)
  }

  lemma {:induction false} DurableStays(h: seq<Disk>, i: nat, j: nat, p: Place, bytes: Bytes)
    requires Chain(h) && i <= j < |h| && Durable(h[i], p, bytes)
    ensures Durable(h[j], p, bytes)
    decreases j - i
  {
    if i < j {
      assert KeepsFrom(h, i) && KeepsAt(h[i], h[i + 1], p, bytes);
      DurableStays(h, i + 1, j, p, bytes);
    }
  }

  lemma ChainGrows(h: seq<Disk>, d: Disk)
    requires Chain(h) && Keeps(h[|h| - 1], d)
    ensures Chain(h + [d])
  {
    var longer := h + [d];
    forall i: nat ensures KeepsFrom(longer, i) {
      assert KeepsFrom(h, i);
    }
  }

  class Target {
    var disk: Disk
    /** How many more system calls succeed. */
    var budget: nat
    ghost var history: seq<Disk>

    ghost predicate Valid()
      reads this
    {
      Chain(history) && history[|history| - 1] == disk
    }

    /** The empty root after `mkdir`. */
    constructor (budget: nat)
      ensures Valid() && disk == Disk(false, map[]) && this.budget == budget
    {
      disk, this.budget := Disk(false, map[]), budget;
      history := [Disk(false, map[])];
      new;
      forall i: nat ensures KeepsFrom(history, i) {
      }
    }

    twostate predicate Onward()
      reads this
    {
      Valid() && old(history) <= history
    }

    /** One system call, which may fail. */
    method Step(next: Disk) returns (ok: bool)
      requires Valid() && Keeps(disk, next)
      modifies this
      ensures Onward() && disk == (if ok then next else old(disk))
    {
      ok := budget > 0;
      if ok {
        budget := budget - 1;
        ChainGrows(history, next);
        disk := next;
        history := history + [next];
      }
    }

    ghost predicate SyncedFile(p: Place, bytes: Bytes)
      reads this
    {
      Present(disk, p) && StateAt(disk, p).bytes == bytes && StateAt(disk, p).synced
    }

    /** `mkdir` of a shard unless it exists. */
    method MakeShard(s: string) returns (ok: bool)
      requires Valid()
      modifies this
      ensures Onward()
      ensures disk == (if ok && s !in old(disk).shards then old(disk).(shards := old(disk).shards[s := Shard(false, map[])]) else old(disk))
      ensures ok ==> s in disk.shards
    {
      if s in disk.shards {
        return true;
      }
      var next := disk.(shards := disk.shards[s := Shard(false, map[])]);
      forall p, bytes ensures KeepsAt(disk, next, p, bytes) {
      }
      ok := Step(next);
    }

    /** The disk with one file replaced. */
    static function WithFile(d: Disk, p: Place, f: FileState): Disk
      requires p.0 in d.shards
    {
      d.(shards := d.shards[p.0 := d.shards[p.0].(files := d.shards[p.0].files[p.1 := f])])
    }

    lemma ReplacingKeeps(p: Place, f: FileState)
      requires p.0 in disk.shards && (Present(disk, p) ==> StateAt(disk, p).linked && StateAt(disk, p).synced ==> f == StateAt(disk, p))
      ensures Keeps(disk, WithFile(disk, p, f))
    {
      forall q, bytes ensures KeepsAt(disk, WithFile(disk, p, f), q, bytes) {
      }
    }

    /** `open` with `O_EXCL`. */
    method Create(p: Place) returns (ok: bool)
      requires Valid() && p.0 in disk.shards
      modifies this
      ensures Onward()
      ensures ok ==> !old(Present(disk, p))
      ensures disk == if ok then WithFile(old(disk), p, FileState(false, [], false)) else old(disk)
    {
      if p.1 in disk.shards[p.0].files {
        return false;
      }
      ReplacingKeeps(p, FileState(false, [], false));
      ok := Step(WithFile(disk, p, FileState(false, [], false)));
    }

    /** `write`: the system takes as much as it likes, and nothing is a failure. */
    method Write(p: Place, data: Bytes) returns (count: nat)
      requires Valid() && Present(disk, p) && !StateAt(disk, p).linked
      modifies this
      ensures Onward() && count <= |data|
      ensures disk == if count > 0 then WithFile(old(disk), p, FileState(false, StateAt(old(disk), p).bytes + data[..count], false))
                      else old(disk)
    {
      count :| 0 <= count <= |data|;
      if count > 0 {
        var next := FileState(false, StateAt(disk, p).bytes + data[..count], false);
        ReplacingKeeps(p, next);
        var ok := Step(WithFile(disk, p, next));
        count := if ok then count else 0;
      }
    }

    method SyncFile(p: Place) returns (ok: bool)
      requires Valid() && Present(disk, p)
      modifies this
      ensures Onward()
      ensures disk == if ok then WithFile(old(disk), p, StateAt(old(disk), p).(synced := true)) else old(disk)
    {
      var next := StateAt(disk, p).(synced := true);
      ReplacingKeeps(p, next);
      ok := Step(WithFile(disk, p, next));
    }

    static function Linked(shard: Shard): Shard {
      shard.(files := map n | n in shard.files :: shard.files[n].(linked := true))
    }

    /** `fsync` of a shard directory: all its names become durable. */
    method SyncShard(s: string) returns (ok: bool)
      requires Valid() && s in disk.shards
      modifies this
      ensures Onward()
      ensures disk == if ok then old(disk).(shards := old(disk).shards[s := Linked(old(disk).shards[s])]) else old(disk)
    {
      var next := disk.(shards := disk.shards[s := Linked(disk.shards[s])]);
      forall p, bytes ensures KeepsAt(disk, next, p, bytes) {
      }
      ok := Step(next);
    }

    /** `fsync` of the root: all shard names become durable. */
    method SyncRoot() returns (ok: bool)
      requires Valid()
      modifies this
      ensures Onward()
      ensures disk == if ok then old(disk).(shards := map s | s in old(disk).shards :: old(disk).shards[s].(linked := true)) else old(disk)
    {
      var next := disk.(shards := map s | s in disk.shards :: disk.shards[s].(linked := true));
      forall p, bytes ensures KeepsAt(disk, next, p, bytes) {
      }
      ok := Step(next);
    }

    method SyncParent() returns (ok: bool)
      requires Valid()
      modifies this
      ensures Onward()
      ensures disk == if ok then old(disk).(linked := true) else old(disk)
    {
      forall p, bytes ensures KeepsAt(disk, disk.(linked := true), p, bytes) {
      }
      ok := Step(disk.(linked := true));
    }

    /** Every other file is as it was; the one may be new or changed. */
    static ghost predicate SameElse(d: Disk, d': Disk, p: Place) {
      d.shards.Keys <= d'.shards.Keys && d'.linked == d.linked && forall q :: q != p ==> SameAt(d, d', q)
    }

    static ghost predicate SameAt(d: Disk, d': Disk, q: Place) {
      (Present(d, q) <==> Present(d', q)) && (Present(d, q) ==> StateAt(d', q) == StateAt(d, q))
    }

    static lemma ReplacingIsLocal(d: Disk, p: Place, f: FileState)
      requires p.0 in d.shards
      ensures SameElse(d, WithFile(d, p, f), p) && Present(WithFile(d, p, f), p) && StateAt(WithFile(d, p, f), p) == f
    {
    }

    static lemma SameElseTransitive(a: Disk, b: Disk, c: Disk, p: Place)
      requires SameElse(a, b, p) && SameElse(b, c, p)
      ensures SameElse(a, c, p)
    {
      forall q | q != p ensures SameAt(a, c, q) {
        assert SameAt(a, b, q) && SameAt(b, c, q);
      }
    }

    /** One chunk, however short the writes are. */
    method WriteChunk(p: Place, chunk: Bytes) returns (ok: bool)
      requires Valid() && Present(disk, p) && !StateAt(disk, p).linked && !StateAt(disk, p).synced
      modifies this
      ensures Onward() && SameElse(old(disk), disk, p)
      ensures ok ==> Present(disk, p) && StateAt(disk, p) == FileState(false, StateAt(old(disk), p).bytes + chunk, false)
    {
      var sent := 0;
      assert StateAt(disk, p).bytes + chunk[..0] == StateAt(disk, p).bytes;
      while sent < |chunk|
        invariant 0 <= sent <= |chunk|
        invariant Onward() && SameElse(old(disk), disk, p) && Present(disk, p)
        invariant StateAt(disk, p) == FileState(false, StateAt(old(disk), p).bytes + chunk[..sent], false)
      {
        ghost var before, file := disk, StateAt(disk, p).bytes;
        var count := Write(p, chunk[sent..]);
        if count == 0 {
          return false;
        }
        assert file + chunk[sent..][..count] == StateAt(old(disk), p).bytes + chunk[..sent + count];
        ReplacingIsLocal(before, p, StateAt(disk, p));
        SameElseTransitive(old(disk), before, disk, p);
        sent := sent + count;
      }
      assert chunk[..|chunk|] == chunk;
      ok := true;
    }

    /** The copy loop: everything the source holds, a chunk at a time, unless it is longer than the row says. */
    method WriteAll(p: Place, data: Bytes, size: nat) returns (ok: bool)
      requires Valid() && Present(disk, p) && StateAt(disk, p) == FileState(false, [], false)
      modifies this
      ensures Onward() && SameElse(old(disk), disk, p)
      ensures ok ==> |data| <= size && Present(disk, p) && StateAt(disk, p) == FileState(false, data, false)
    {
      var offset := 0;
      while offset < |data|
        invariant 0 <= offset <= |data| && offset <= size
        invariant Onward() && SameElse(old(disk), disk, p)
        invariant Present(disk, p) && StateAt(disk, p) == FileState(false, data[..offset], false)
      {
        var count := if |data| - offset < CHUNK then |data| - offset else CHUNK;
        if offset + count > size {
          return false;
        }
        assert data[..offset] + data[offset..offset + count] == data[..offset + count];
        ghost var before := disk;
        ok := WriteChunk(p, data[offset..offset + count]);
        SameElseTransitive(old(disk), before, disk, p);
        if !ok {
          return;
        }
        offset := offset + count;
      }
      assert data[..|data|] == data;
      ok := true;
    }

    /** `_copy_file` after its shard is open: the new file holds exactly the bytes of its row, on the medium. */
    method CopyInto(row: Row, data: Option<Bytes>) returns (ok: bool)
      requires Valid() && row.place.0 in disk.shards
      modifies this
      ensures Onward() && SameElse(old(disk), disk, row.place)
      ensures ok ==> !old(Present(disk, row.place)) && SyncedFile(row.place, row.digest.bytes) && |row.digest.bytes| == row.size
      ensures ok ==> data == Some(row.digest.bytes)
    {
      if data.None? {
        return false;
      }
      ok := Create(row.place);
      if !ok {
        return;
      }
      ReplacingIsLocal(old(disk), row.place, FileState(false, [], false));
      ghost var created := disk;
      ok := WriteAll(row.place, data.value, row.size);
      SameElseTransitive(old(disk), created, disk, row.place);
      if !ok || |data.value| != row.size || Sha256(data.value) != row.digest {
        return false;
      }
      ghost var written := disk;
      ok := SyncFile(row.place);
      if !ok {
        return;
      }
      ReplacingIsLocal(written, row.place, StateAt(written, row.place).(synced := true));
      SameElseTransitive(old(disk), written, disk, row.place);
      ok := Sha256(StateAt(disk, row.place).bytes) == row.digest;
    }

    // ---------- the barrier ----------

    static ghost predicate ContentAt(d: Disk, d': Disk, p: Place) {
      && (Present(d, p) <==> Present(d', p))
      && (Present(d, p) ==> StateAt(d', p).bytes == StateAt(d, p).bytes && StateAt(d', p).synced == StateAt(d, p).synced)
    }

    /** The same files with the same bytes. */
    static ghost predicate SameContent(d: Disk, d': Disk) {
      d.shards.Keys == d'.shards.Keys && forall p :: ContentAt(d, d', p)
    }

    static lemma SameContentTransitive(a: Disk, b: Disk, c: Disk)
      requires SameContent(a, b) && SameContent(b, c)
      ensures SameContent(a, c)
    {
      forall p ensures ContentAt(a, c, p) {
        assert ContentAt(a, b, p) && ContentAt(b, c, p);
      }
    }

    static ghost predicate AllLinked(d: Disk, s: string) {
      s in d.shards && forall n :: n in d.shards[s].files ==> d.shards[s].files[n].linked
    }

    static function ShardSynced(d: Disk, s: string): Disk
      requires s in d.shards
    {
      d.(shards := d.shards[s := Linked(d.shards[s])])
    }

    static lemma ShardSyncedLinks(d: Disk, s: string, earlier: set<string>)
      requires s in d.shards && forall t :: t in earlier ==> AllLinked(d, t)
      ensures SameContent(d, ShardSynced(d, s)) && forall t :: t in earlier + {s} ==> AllLinked(ShardSynced(d, s), t)
    {
      forall p ensures ContentAt(d, ShardSynced(d, s), p) {
      }
    }

    method SyncShards(dirty: set<string>) returns (ok: bool)
      requires Valid() && dirty <= disk.shards.Keys
      modifies this
      ensures Onward() && SameContent(old(disk), disk)
      ensures ok ==> forall s :: s in dirty ==> AllLinked(disk, s)
    {
      var todo := dirty;
      forall p ensures ContentAt(disk, disk, p) {
      }
      while todo != {}
        invariant todo <= dirty && Onward() && SameContent(old(disk), disk)
        invariant forall s :: s in dirty - todo ==> AllLinked(disk, s)
        decreases |todo|
      {
        var s :| s in todo;
        ghost var before := disk;
        ok := SyncShard(s);
        if !ok {
          return;
        }
        ShardSyncedLinks(before, s, dirty - todo);
        SameContentTransitive(old(disk), before, disk);
        todo := todo - {s};
      }
      ok := true;
    }

    static function RootSynced(d: Disk): Disk {
      d.(shards := map s | s in d.shards :: d.shards[s].(linked := true))
    }

    static lemma RootSyncedLinks(d: Disk)
      ensures SameContent(d, RootSynced(d)) && SameContent(d, RootSynced(d).(linked := true))
      ensures forall s :: AllLinked(d, s) ==> AllLinked(RootSynced(d), s)
    {
      forall p ensures ContentAt(d, RootSynced(d), p) && ContentAt(d, RootSynced(d).(linked := true), p) {
      }
    }

    /** `_copy_barrier`: afterwards every synced file of a dirty shard is durable by name as well. */
    method Barrier(dirty: set<string>) returns (ok: bool)
      requires Valid() && dirty <= disk.shards.Keys
      modifies this
      ensures Onward() && SameContent(old(disk), disk)
      ensures ok ==> forall p: Place :: p.0 in dirty && Present(disk, p) && StateAt(disk, p).synced ==>
                       Durable(disk, p, StateAt(disk, p).bytes)
    {
      ok := SyncShards(dirty);
      if !ok {
        return;
      }
      ghost var before := disk;
      ok := SyncRoot();
      if !ok {
        return;
      }
      RootSyncedLinks(before);
      SameContentTransitive(old(disk), before, disk);
      ok := SyncParent();
      SameContentTransitive(old(disk), before, disk);
      if ok {
        forall p: Place | p.0 in dirty && Present(disk, p) && StateAt(disk, p).synced
          ensures Durable(disk, p, StateAt(disk, p).bytes)
        {
          assert AllLinked(RootSynced(before), p.0);
        }
      }
    }

    // ---------- one file, one batch, one target ----------

    /** `_copy_file`: its shard joins the dirty ones, of which there may be at most 64. */
    method CopyFile(row: Row, data: Option<Bytes>, dirty: set<string>) returns (outcome: Outcome, dirty': set<string>)
      requires Valid() && dirty <= disk.shards.Keys
      modifies this
      ensures Onward() && dirty' <= disk.shards.Keys
      ensures outcome == DirtyRefusal ==> |dirty| >= BATCH_FILES
      ensures outcome == Done ==>
                && dirty' == dirty + {row.place.0} && !old(Present(disk, row.place))
                && SyncedFile(row.place, row.digest.bytes) && |row.digest.bytes| == row.size
                && data == Some(row.digest.bytes)
      ensures forall q :: q != row.place ==> SameAt(old(disk), disk, q)
    {
      dirty' := dirty;
      if row.place.0 !in dirty {
        if |dirty| >= BATCH_FILES {
          return DirtyRefusal, dirty;
        }
        var made := MakeShard(row.place.0);
        if !made {
          return Failed, dirty;
        }
        dirty' := dirty + {row.place.0};
      }
      ghost var entered := disk;
      var ok := CopyInto(row, data);
      outcome := if ok then Done else Failed;
      forall q | q != row.place ensures SameAt(old(disk), disk, q) {
        assert SameAt(old(disk), entered, q) && SameAt(entered, disk, q);
      }
      assert dirty + {row.place.0} == dirty';
    }

    /** Row `k` is on the medium. */
    ghost predicate RowSynced(row: Row)
      reads this
    {
      SyncedFile(row.place, row.digest.bytes) && |row.digest.bytes| == row.size
    }

    /** The files are those of the first `n` rows and no others. */
    ghost predicate OnlyRows(rows: seq<Row>, n: nat)
      reads this
      requires n <= |rows|
    {
      forall p :: PresentRight(disk, rows, n, p)
    }
  }

  ghost predicate PresentRight(d: Disk, rows: seq<Row>, n: nat, p: Place)
    requires n <= |rows|
  {
    Present(d, p) <==> PlacedBefore(rows, n, p)
  }

  datatype Outcome = Done | Failed | DirtyRefusal

  ghost predicate PlacedBefore(rows: seq<Row>, n: nat, p: Place)
    requires n <= |rows|
  {
    exists k :: 0 <= k < n && rows[k].place == p
  }

  lemma PlacedNext(rows: seq<Row>, n: nat)
    requires n < |rows|
    ensures forall p :: PlacedBefore(rows, n + 1, p) <==> PlacedBefore(rows, n, p) || p == rows[n].place
  {
    forall p ensures PlacedBefore(rows, n + 1, p) <==> PlacedBefore(rows, n, p) || p == rows[n].place {
      if PlacedBefore(rows, n, p) {
        var k :| 0 <= k < n && rows[k].place == p;
        assert rows[k].place == p;
      }
      if p == rows[n].place {
        assert rows[n].place == p;
      }
    }
  }

  function Size(rows: seq<Row>): nat {
    if rows == [] then 0 else Size(rows[..|rows| - 1]) + rows[|rows| - 1].size
  }

  /** What the sources hold, and which of them each place is taken from. */
  type Sources = map<(Role, Place), Bytes>

  function SourceBytes(sources: Sources, origins: map<Place, Role>, p: Place): Option<Bytes> {
    if p in origins && (origins[p], p) in sources then Some(sources[(origins[p], p)]) else None
  }

  /** The source that the row is taken from holds exactly its bytes. */
  predicate FromSource(sources: Sources, origins: map<Place, Role>, row: Row) {
    SourceBytes(sources, origins, row.place) == Some(row.digest.bytes)
  }

  ghost predicate AllFromSource(sources: Sources, origins: map<Place, Role>, rows: seq<Row>, from: nat, to: nat)
    requires to <= |rows|
  {
    forall k :: from <= k < to ==> FromSource(sources, origins, rows[k])
  }

  /** A batch: at least one row if there is any, at most 64, and at most four megabytes unless it is one row alone. */
  predicate IsBatch(rows: seq<Row>, from: nat, to: nat)
    requires from <= to <= |rows|
  {
    && (from < |rows| ==> from < to) && to - from <= BATCH_FILES
    && (Size(rows[from..to]) <= BATCH_BYTES || to == from + 1)
  }

  predicate Bounded(rows: seq<Row>, from: nat, to: nat)
    requires from <= to <= |rows|
  {
    to - from <= BATCH_FILES && (Size(rows[from..to]) <= BATCH_BYTES || to == from + 1)
  }

  lemma SizeNext(rows: seq<Row>, from: nat, to: nat)
    requires from <= to < |rows|
    ensures Size(rows[from..to + 1]) == Size(rows[from..to]) + rows[to].size
  {
    var longer := rows[from..to + 1];
    assert longer[..|longer| - 1] == rows[from..to];
  }

  /** Rows `from` to `to` are on the medium, their shards are dirty, and nothing else was added. */
  ghost predicate BatchSoFar(target: Target, rows: seq<Row>, from: nat, to: nat, dirty: set<string>)
    reads target
  {
    && from <= to <= |rows| && dirty <= target.disk.shards.Keys && |dirty| <= to - from
    && target.OnlyRows(rows, to)
    && forall k :: from <= k < to ==> target.RowSynced(rows[k]) && rows[k].place.0 in dirty
  }

  method CopyNext(target: Target, sources: Sources, origins: map<Place, Role>, rows: seq<Row>, from: nat, to: nat,
                 dirty: set<string>) returns (outcome: Outcome, dirty': set<string>)
    requires target.Valid() && BatchSoFar(target, rows, from, to, dirty) && to < |rows| && to - from < BATCH_FILES
    requires AllFromSource(sources, origins, rows, from, to)
    modifies target
    ensures target.Onward() && outcome != DirtyRefusal
    ensures outcome == Done ==> BatchSoFar(target, rows, from, to + 1, dirty')
    ensures outcome == Done ==> AllFromSource(sources, origins, rows, from, to + 1)
  {
    ghost var before := target.disk;
    var row := rows[to];
    outcome, dirty' := target.CopyFile(row, SourceBytes(sources, origins, row.place), dirty);
    if outcome == Done {
      PlacedNext(rows, to);
      var next := to + 1;
      forall p ensures PresentRight(target.disk, rows, next, p) {
        assert PresentRight(before, rows, to, p);
        assert p == row.place || Target.SameAt(before, target.disk, p);
      }
      forall k | from <= k < to ensures target.RowSynced(rows[k]) {
        assert PlacedBefore(rows, to, rows[k].place) && PresentRight(before, rows, to, rows[k].place);
        assert Target.SameAt(before, target.disk, rows[k].place);
      }
    }
  }

  /** All that holds in the middle of a batch; `size` is its bytes so far. */
  ghost predicate Copying(target: Target, sources: Sources, origins: map<Place, Role>, rows: seq<Row>, from: nat, to: nat,
                          dirty: set<string>, size: nat)
    reads target
  {
    && BatchSoFar(target, rows, from, to, dirty) && AllFromSource(sources, origins, rows, from, to)
    && size == Size(rows[from..to]) && Bounded(rows, from, to)
  }

  method NextRow(target: Target, sources: Sources, origins: map<Place, Role>, rows: seq<Row>, from: nat, to: nat,
                 dirty: set<string>, size: nat) returns (outcome: Outcome, dirty': set<string>)
    requires target.Valid() && Copying(target, sources, origins, rows, from, to, dirty, size) && to < |rows|
    requires to == from || (to - from < BATCH_FILES && size + rows[to].size <= BATCH_BYTES)
    modifies target
    ensures target.Onward() && outcome != DirtyRefusal
    ensures outcome == Done ==> Copying(target, sources, origins, rows, from, to + 1, dirty', size + rows[to].size)
  {
    SizeNext(rows, from, to);
    outcome, dirty' := CopyNext(target, sources, origins, rows, from, to, dirty);
  }

  /**
     The loop of `_copy_batch`: rows are copied in order until the batch is full or the time is up.  The bound on
     dirty shards never refuses, as there are never more of them than files.
     */
  method CopyRows(target: Target, sources: Sources, origins: map<Place, Role>, rows: seq<Row>, from: nat, slow: seq<bool>)
    returns (outcome: Outcome, to: nat, dirty: set<string>)
    requires target.Valid() && from <= |rows| && target.OnlyRows(rows, from)
    modifies target
    ensures target.Onward() && outcome != DirtyRefusal
    ensures outcome == Done ==> BatchSoFar(target, rows, from, to, dirty) && IsBatch(rows, from, to)
    ensures outcome == Done ==> AllFromSource(sources, origins, rows, from, to)
  {
    to, dirty := from, {};
    var size: nat := 0;
    assert rows[from..from] == [];
    while to < |rows|
      invariant target.Onward() && Copying(target, sources, origins, rows, from, to, dirty, size)
      decreases |rows| - to
    {
      var count := to - from;
      if count > 0 && (count >= BATCH_FILES || size + rows[to].size > BATCH_BYTES || (count < |slow| && slow[count])) {
        break;
      }
      outcome, dirty := NextRow(target, sources, origins, rows, from, to, dirty, size);
      if outcome != Done {
        return;
      }
      size, to := size + rows[to].size, to + 1;
    }
    outcome := Done;
  }

  ghost predicate RowDurable(d: Disk, row: Row) {
    Durable(d, row.place, row.digest.bytes) && |row.digest.bytes| == row.size
  }

  ghost predicate DurableTo(d: Disk, rows: seq<Row>, n: nat)
    requires n <= |rows|
  {
    forall k :: 0 <= k < n ==> RowDurable(d, rows[k])
  }

  lemma DurableToStays(h: seq<Disk>, i: nat, j: nat, rows: seq<Row>, n: nat)
    requires Chain(h) && i <= j < |h| && n <= |rows| && DurableTo(h[i], rows, n)
    ensures DurableTo(h[j], rows, n)
  {
    forall k | 0 <= k < n ensures RowDurable(h[j], rows[k]) {
      DurableStays(h, i, j, rows[k].place, rows[k].digest.bytes);
    }
  }

  /** `_copy_batch`: a batch and its barrier; then everything copied so far survives any crash. */
  method CopyBatch(target: Target, sources: Sources, origins: map<Place, Role>, rows: seq<Row>, from: nat, slow: seq<bool>)
    returns (outcome: Outcome, to: nat)
    requires target.Valid() && from <= |rows| && target.OnlyRows(rows, from) && DurableTo(target.disk, rows, from)
    modifies target
    ensures target.Onward() && outcome != DirtyRefusal
    ensures outcome == Done ==> from <= to <= |rows| && IsBatch(rows, from, to)
    ensures outcome == Done ==> target.OnlyRows(rows, to) && DurableTo(target.disk, rows, to)
    ensures outcome == Done ==> AllFromSource(sources, origins, rows, from, to)
  {
    var dirty;
    outcome, to, dirty := CopyRows(target, sources, origins, rows, from, slow);
    if outcome != Done {
      return;
    }
    ghost var copied := target.disk;
    var ok := target.Barrier(dirty);
    if !ok {
      return Failed, to;
    }
    DurableToStays(target.history, |old(target.history)| - 1, |target.history| - 1, rows, from);
    forall k | from <= k < to ensures RowDurable(target.disk, rows[k]) {
      assert Target.ContentAt(copied, target.disk, rows[k].place);
    }
    forall p ensures PresentRight(target.disk, rows, to, p) {
      assert PresentRight(copied, rows, to, p);
      assert Target.ContentAt(copied, target.disk, p);
    }
  }

  /**
     The copy loop of one target, from its creation to its receipt.  A receipt exists only when every generation of
     the list, and nothing else, is in the target and survives any crash with exactly its bytes.
     */
  method CopyTarget(target: Target, sources: Sources, origins: map<Place, Role>, rows: seq<Row>, slow: seq<seq<bool>>)
    returns (receipt: Option<seq<Row>>, batches: seq<nat>)
    requires target.Valid() && target.disk == Disk(false, map[])
    modifies target
    ensures target.Onward()
    ensures receipt.Some? ==> receipt.value == rows && target.OnlyRows(rows, |rows|) && DurableTo(target.disk, rows, |rows|)
    ensures receipt.Some? ==> Partition(rows, batches) && AllFromSource(sources, origins, rows, 0, |rows|)
  {
    batches := [0];
    var ok := target.SyncParent();
    if !ok {
      return None, batches;
    }
    var offset := 0;
    while offset < |rows|
      invariant target.Onward() && offset <= |rows| && target.OnlyRows(rows, offset) && DurableTo(target.disk, rows, offset)
      invariant batches != [] && batches[|batches| - 1] == offset && Batches(rows, batches)
      invariant AllFromSource(sources, origins, rows, 0, offset)
      decreases |rows| - offset
    {
      var i := |batches| - 1;
      var outcome, next := CopyBatch(target, sources, origins, rows, offset, if i < |slow| then slow[i] else []);
      if outcome != Done {
        return None, batches;
      }
      BatchesNext(rows, batches, next);
      batches := batches + [next];
      offset := next;
    }
    receipt := Some(rows);
  }

  /** Ends of consecutive batches. */
  ghost predicate Batches(rows: seq<Row>, ends: seq<nat>) {
    ends != [] && ends[0] == 0 && forall i: nat :: i + 1 < |ends| ==> BatchAt(rows, ends, i)
  }

  predicate BatchAt(rows: seq<Row>, ends: seq<nat>, i: nat)
    requires i + 1 < |ends|
  {
    ends[i] < ends[i + 1] <= |rows| && IsBatch(rows, ends[i], ends[i + 1])
  }

  lemma BatchesNext(rows: seq<Row>, ends: seq<nat>, next: nat)
    requires Batches(rows, ends) && ends[|ends| - 1] < next <= |rows| && IsBatch(rows, ends[|ends| - 1], next)
    ensures Batches(rows, ends + [next])
  {
    var more := ends + [next];
    forall i: nat | i + 1 < |more| ensures BatchAt(rows, more, i) {
      if i + 1 < |ends| {
        assert BatchAt(rows, ends, i);
      }
    }
  }

  /** Consecutive batches that cover the list. */
  ghost predicate Partition(rows: seq<Row>, ends: seq<nat>) {
    Batches(rows, ends) && ends[|ends| - 1] == |rows|
  }

  /** A receipt stays true: whatever happens later, each of its generations survives a crash at any moment. */
  lemma ReceiptOutlivesCrashes(h: seq<Disk>, i: nat, j: nat, row: Row, view: View)
    requires Chain(h) && i <= j < |h| && Durable(h[i], row.place, row.digest.bytes)
    requires MayBeFound(h[j], view)
    ensures row.place in view && view[row.place] == row.digest.bytes
  {
    DurableStays(h, i, j, row.place, row.digest.bytes);
    DurableExactly(h[j], row.place, row.digest.bytes);
  }
}
