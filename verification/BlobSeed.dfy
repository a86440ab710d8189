/**
 One target of the seed, from the manifests of the sources to its receipt: the union of its family, copied in
 batches from the sources that hold it.
 */
module BlobSeed {
  import opened Prelude
  import opened BlobUnion
  import C = BlobCopy

  /** A storage key is a shard, a slash and a name. */
  function PlaceOf(g: Generation): C.Place
    requires Good(g)
  {
    (g.key[..2], g.key[3..])
  }

  lemma PlaceIsKey(a: Generation, b: Generation)
    requires Good(a) && Good(b)
    ensures PlaceOf(a) == PlaceOf(b) <==> a.key == b.key
  {
    assert a.key == PlaceOf(a).0 + "/" + PlaceOf(a).1;
    assert b.key == PlaceOf(b).0 + "/" + PlaceOf(b).1;
  }

  /** `bytesOf` gives the bytes that a digest was taken of: a digest stands for one content. */
  function RowOf(bytesOf: string -> C.Bytes, g: Generation): C.Row
    requires Good(g)
  {
    C.Row(PlaceOf(g), C.Sha256(bytesOf(g.sha)), g.size)
  }

  predicate AllGood(rows: seq<Generation>) {
    forall k :: 0 <= k < |rows| ==> Good(rows[k])
  }

  function RowsOf(bytesOf: string -> C.Bytes, rows: seq<Generation>): (r: seq<C.Row>)
    requires AllGood(rows)
    ensures |r| == |rows| && forall k :: 0 <= k < |r| ==> r[k] == RowOf(bytesOf, rows[k])
  {
    seq(|rows|, k requires 0 <= k < |rows| => RowOf(bytesOf, rows[k]))
  }

  /** The origins of one family, by place. */
  method OriginsOf(family: Family, rows: seq<Generation>, origins: map<Slot, Role>) returns (r: map<C.Place, Role>)
    requires AllGood(rows) && SortedByKey(rows) && forall g :: g in rows ==> (family, g.key) in origins
    ensures forall k :: 0 <= k < |rows| ==> PlaceOf(rows[k]) in r && r[PlaceOf(rows[k])] == origins[(family, rows[k].key)]
  {
    r := map[];
    for i := 0 to |rows|
      invariant forall k :: 0 <= k < i ==> PlaceOf(rows[k]) in r && r[PlaceOf(rows[k])] == origins[(family, rows[k].key)]
    {
      forall k | 0 <= k < i ensures PlaceOf(rows[k]) == PlaceOf(rows[i]) ==> rows[k].key == rows[i].key {
        PlaceIsKey(rows[k], rows[i]);
      }
      assert rows[i] in rows;
      r := r[PlaceOf(rows[i]) := origins[(family, rows[i].key)]];
    }
  }

  lemma UnionIsGood(held: seq<Held>, family: Family, rows: seq<Generation>)
    requires Consistent(held) && IsUnion(held, family, rows)
    ensures AllGood(rows)
  {
    forall k | 0 <= k < |rows| ensures Good(rows[k]) {
      assert rows[k] in rows && HeldIn(held, family, rows[k]);
    }
  }

  /** Some source of the family holds this generation, and its file has exactly the bytes of the digest. */
  ghost predicate HeldWithBytes(held: seq<Held>, sources: C.Sources, family: Family, bytesOf: string -> C.Bytes, g: Generation)
    requires Good(g)
  {
    exists role :: (role, g) in held && FamilyOf(role) == family
                   && (role, PlaceOf(g)) in sources && sources[(role, PlaceOf(g))] == bytesOf(g.sha)
  }

  /** The target holds exactly the union of its family, durably, each generation from a source that holds it. */
  ghost predicate Seeded(held: seq<Held>, sources: C.Sources, family: Family, bytesOf: string -> C.Bytes,
                         list: seq<Generation>, d: C.Disk) {
    && IsUnion(held, family, list) && AllGood(list)
    && (forall p: C.Place :: C.Present(d, p) <==> exists k :: 0 <= k < |list| && PlaceOf(list[k]) == p)
    && (forall k :: 0 <= k < |list| ==>
          && C.Durable(d, PlaceOf(list[k]), bytesOf(list[k].sha)) && |bytesOf(list[k].sha)| == list[k].size
          && HeldWithBytes(held, sources, family, bytesOf, list[k]))
  }

  lemma CopiedIsSeeded(held: seq<Held>, sources: C.Sources, family: Family, bytesOf: string -> C.Bytes,
                       list: seq<Generation>, origins: map<Slot, Role>, places: map<C.Place, Role>, target: C.Target)
    requires IsUnion(held, family, list) && AllGood(list) && OriginsRight(held, family, list, origins)
    requires forall k :: 0 <= k < |list| ==> PlaceOf(list[k]) in places && places[PlaceOf(list[k])] == origins[(family, list[k].key)]
    requires var rows := RowsOf(bytesOf, list);
             && target.OnlyRows(rows, |rows|) && C.DurableTo(target.disk, rows, |rows|)
             && C.AllFromSource(sources, places, rows, 0, |rows|)
    ensures Seeded(held, sources, family, bytesOf, list, target.disk)
  {
    var rows, d := RowsOf(bytesOf, list), target.disk;
    forall p: C.Place ensures C.Present(d, p) <==> exists k :: 0 <= k < |list| && PlaceOf(list[k]) == p {
      assert C.PresentRight(d, rows, |rows|, p);
      if k :| 0 <= k < |list| && PlaceOf(list[k]) == p {
        assert rows[k].place == p;
      }
      if C.PlacedBefore(rows, |rows|, p) {
        var k :| 0 <= k < |rows| && rows[k].place == p;
        assert PlaceOf(list[k]) == p;
      }
    }
    forall k | 0 <= k < |list|
      ensures C.Durable(d, PlaceOf(list[k]), bytesOf(list[k].sha)) && |bytesOf(list[k].sha)| == list[k].size
      ensures HeldWithBytes(held, sources, family, bytesOf, list[k])
    {
      assert C.RowDurable(d, rows[k]) && C.FromSource(sources, places, rows[k]) && list[k] in list;
      assert (places[PlaceOf(list[k])], list[k]) in held;
    }
  }

  /**
     `_union` and then the copy loop of one target.  A receipt means that the target holds exactly the union of its
     family, every generation durable and with the bytes of a source that really holds it.
     */
  method SeedFamily(source: seq<Manifest>, sources: C.Sources, family: Family, bytesOf: string -> C.Bytes,
                    target: C.Target, slow: seq<seq<bool>>) returns (receipt: Option<seq<Generation>>)
    requires target.Valid() && target.disk == C.Disk(false, map[])
    modifies target
    ensures target.Onward()
    ensures receipt.Some? ==> Consistent(AllHeld(source))
    ensures receipt.Some? ==> Seeded(AllHeld(source), sources, family, bytesOf, receipt.value, target.disk)
  {
    var united := Unite(source);
    if united.None? {
      return None;
    }
    var (cache, corpus, origins) := united.value;
    var list := if family == Cache then cache else corpus;
    UnionIsGood(AllHeld(source), family, list);
    var places := OriginsOf(family, list, origins);
    var copied, batches := C.CopyTarget(target, sources, places, RowsOf(bytesOf, list), slow);
    if copied.None? {
      return None;
    }
    CopiedIsSeeded(AllHeld(source), sources, family, bytesOf, list, origins, places, target);
    receipt := Some(list);
  }
}
