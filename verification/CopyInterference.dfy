/**
 One outside change that `copy_tree` does not notice: a directory's metadata between the check of
 `apply_metadata` and the recording of the copy's signature.
 */
module CopyInterference {
  import opened Prelude
  import opened FileTrees
  import opened CopyFrame

  /** A system call before which nothing outside changes anything. */
  method QuietTick(fs: FileSystem)
    requires fs.Valid() && AllQuiet(fs.script) && fs.BeforeDeadline()
    modifies fs
    ensures fs.Valid() && AllQuiet(fs.script) && |fs.script| == |old(fs.script)| - 1
    ensures fs.world.nodes == old(fs.world.nodes)
  {
    QuietRest(fs.script);
    NoChange(fs.world);
    fs.Tick();
  }

  /** The comparisons that the readback and the last recheck make of an empty directory, with nothing else changing. */
  method RereadEmpty(fs: FileSystem, out: Ino, recorded: Option<Signature>) returns (passed: bool)
    requires fs.Valid() && AllQuiet(fs.script) && |fs.script| >= 6 && EmptyDirectory(fs.world.nodes, out)
    modifies fs
    ensures fs.world.nodes == old(fs.world.nodes)
    ensures passed == (StatIn(old(fs.world), out) == recorded)
  {
    QuietTick(fs);
    passed := StatIn(fs.world, out) == recorded;
    QuietTick(fs);
    passed := passed && NamesIn(fs.world, out) == Some({});
    QuietTick(fs);
    passed := passed && NamesIn(fs.world, out) == Some({});
    QuietTick(fs);
    passed := passed && StatIn(fs.world, out) == recorded;
    QuietTick(fs);
    passed := passed && StatIn(fs.world, out) == recorded && fs.BeforeDeadline();
  }

  /** `apply_metadata` of a directory and its own comparison. */
  method SetAndCompare(fs: FileSystem, out: Ino, wanted: Meta, ghost later: seq<Change>) returns (passed: bool)
    requires fs.Valid() && EmptyDirectory(fs.world.nodes, out) && fs.script == [map[], map[]] + later
    modifies fs
    ensures fs.Valid() && fs.script == later && EmptyDirectory(fs.world.nodes, out) && passed
  {
    var body := Body(Dir(map[]), wanted, 2);
    fs.Perform(map[out := Some(body)]);
    NoChange(fs.world);
    fs.Tick();
    assert fs.script == [map[]] + later;
    passed := StatIn(fs.world, out).Some? && StatIn(fs.world, out).value.stat.owner == wanted.owner;
    NoChange(fs.world);
    fs.Tick();
    passed := passed && AttributesIn(fs.world, out) == Some(wanted.xattrs);
  }

  /**
     The copy of an empty directory, with something outside changing its metadata once, after `apply_metadata`
     has checked it and before its signature is recorded: whatever the wanted metadata, the directory shows the
     outside's, and every later comparison of `copy_tree` passes.
     */
  method TouchedDirectory(wanted: Meta, late: Meta) returns (passed: bool, shown: Meta)
    ensures passed && shown == late
  {
    var out := Ino(0, 1);
    var touch: Change := map[out := Some(Body(Dir(map[]), late, 2))];
    var quiet: seq<Change> := [map[], map[], map[], map[], map[], map[]];
    var fs := new FileSystem(World(map[out := Inode(Body(Dir(map[]), wanted, 2), 0)], 0), [map[], map[]] + ([touch] + quiet));
    passed := SetAndCompare(fs, out, wanted, [touch] + quiet);
    fs.Tick();
    var recorded := StatIn(fs.world, out);
    forall k: nat ensures QuietAt(quiet, k) {
    }
    assert fs.script == quiet;
    var same := RereadEmpty(fs, out, recorded);
    passed := passed && same;
    shown := fs.world.nodes[out].body.meta;
  }
}
