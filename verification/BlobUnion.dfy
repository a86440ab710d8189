/** The union of the source manifests: one list per family, and for each generation a source that holds it. */
module BlobUnion {
  import opened Prelude
  import S = SeedReferences

  type Role = string

  datatype Family = Cache | Corpus

  datatype Generation = Generation(key: string, sha: string, size: int)

  const MAX_ROWS := 200000
  const MAX_BYTES := 0x400_0000_0000

  function FamilyOf(role: Role): Family {
    if role == "cache_hdd" then Cache else Corpus
  }

  /** A single well-formed generation, as the comparison with itself accepts it. */
  predicate Good(g: Generation) {
    S.GoodRow(S.Row("cache", g.key, g.sha, g.size))
  }

  /** A manifest of one source. */
  type Manifest = (Role, seq<Generation>)

  type Held = (Role, Generation)

  function HeldBy(role: Role, rows: seq<Generation>): seq<Held> {
    seq(|rows|, k requires 0 <= k < |rows| => (role, rows[k]))
  }

  /** What each source holds, in the order it is looked at. */
  function AllHeld(source: seq<Manifest>): seq<Held> {
    if source == [] then []
    else AllHeld(source[..|source| - 1]) + HeldBy(source[|source| - 1].0, source[|source| - 1].1)
  }

  predicate Conflict(a: Held, b: Held) {
    FamilyOf(a.0) == FamilyOf(b.0) && a.1.key == b.1.key && a.1 != b.1
  }

  /** Well-formed, and no key with two meanings within a family. */
  ghost predicate Consistent(held: seq<Held>) {
    && (forall p :: p in held ==> Good(p.1))
    && (forall p, q :: p in held && q in held ==> !Conflict(p, q))
  }

  type Slot = (Family, string)

  ghost predicate ValueHeld(held: seq<Held>, values: map<Slot, Generation>, origins: map<Slot, Role>, slot: Slot) {
    slot in values ==>
      && slot in origins && (origins[slot], values[slot]) in held
      && FamilyOf(origins[slot]) == slot.0 && values[slot].key == slot.1
  }

  ghost predicate HeldValued(values: map<Slot, Generation>, p: Held) {
    var slot := (FamilyOf(p.0), p.1.key);
    slot in values && values[slot] == p.1
  }

  /** The dictionaries say exactly what is held so far. */
  ghost predicate Collected(held: seq<Held>, values: map<Slot, Generation>, origins: map<Slot, Role>) {
    && (forall p :: p in held ==> HeldValued(values, p))
    && origins.Keys == values.Keys && (forall slot :: ValueHeld(held, values, origins, slot))
  }

  lemma CollectNext(held: seq<Held>, values: map<Slot, Generation>, origins: map<Slot, Role>, p: Held)
    requires Collected(held, values, origins) && Consistent(held) && Good(p.1)
    requires var slot := (FamilyOf(p.0), p.1.key); slot in values ==> values[slot] == p.1
    ensures var slot := (FamilyOf(p.0), p.1.key);
            Collected(held + [p], values[slot := p.1], if slot in origins then origins else origins[slot := p.0])
    ensures Consistent(held + [p])
  {
    var slot := (FamilyOf(p.0), p.1.key);
    var values', origins' := values[slot := p.1], if slot in origins then origins else origins[slot := p.0];
    assert ValueHeld(held, values, origins, slot);
    forall q | q in held + [p] ensures HeldValued(values', q) && !Conflict(p, q) && !Conflict(q, p) && Good(q.1) {
      if q in held {
        assert HeldValued(values, q);
      }
    }
    forall s ensures ValueHeld(held + [p], values', origins', s) {
      assert ValueHeld(held, values, origins, s);
    }
  }

  lemma NotConsistent(held: seq<Held>, values: map<Slot, Generation>, origins: map<Slot, Role>, p: Held, all: seq<Held>)
    requires Collected(held, values, origins) && p in all && forall q :: q in held ==> q in all
    requires var slot := (FamilyOf(p.0), p.1.key); !Good(p.1) || (slot in values && values[slot] != p.1)
    ensures !Consistent(all)
  {
    var slot := (FamilyOf(p.0), p.1.key);
    if Good(p.1) {
      assert ValueHeld(held, values, origins, slot);
      assert Conflict(p, (origins[slot], values[slot]));
    }
  }

  lemma {:induction false} HeldGrows(source: seq<Manifest>, i: nat)
    requires i < |source|
    ensures AllHeld(source[..i + 1]) == AllHeld(source[..i]) + HeldBy(source[i].0, source[i].1)
    ensures forall p :: p in AllHeld(source[..i + 1]) ==> p in AllHeld(source)
    decreases |source|
  {
    assert source[..i + 1][..i] == source[..i];
    if i + 1 == |source| {
      assert source[..i + 1] == source;
    } else {
      var front := source[..|source| - 1];
      assert front[..i + 1] == source[..i + 1];
      HeldGrows(front, i);
    }
  }

  /** The first loop of `_union`. */
  method Collect(source: seq<Manifest>) returns (r: Option<(map<Slot, Generation>, map<Slot, Role>)>)
    ensures r.Some? <==> Consistent(AllHeld(source))
    ensures r.Some? ==> Collected(AllHeld(source), r.value.0, r.value.1)
  {
    var values: map<Slot, Generation>, origins: map<Slot, Role> := map[], map[];
    for i := 0 to |source|
      invariant Consistent(AllHeld(source[..i])) && Collected(AllHeld(source[..i]), values, origins)
    {
      var role, rows := source[i].0, source[i].1;
      ghost var before := AllHeld(source[..i]);
      HeldGrows(source, i);
      assert before + HeldBy(role, rows)[..0] == before;
      for j := 0 to |rows|
        invariant Consistent(before + HeldBy(role, rows)[..j])
        invariant Collected(before + HeldBy(role, rows)[..j], values, origins)
      {
        var row := rows[j];
        var slot := (FamilyOf(role), row.key);
        ghost var held := before + HeldBy(role, rows)[..j];
        assert held + [(role, row)] == before + HeldBy(role, rows)[..j + 1];
        if !Good(row) || (slot in values && values[slot] != row) {
          assert HeldBy(role, rows)[j] == (role, row);
          NotConsistent(held, values, origins, (role, row), AllHeld(source));
          return None;
        }
        CollectNext(held, values, origins, (role, row));
        values := values[slot := row];
        origins := if slot in origins then origins else origins[slot := role];
      }
      assert HeldBy(role, rows)[..|rows|] == HeldBy(role, rows);
    }
    assert source[..|source|] == source;
    r := Some((values, origins));
  }

  // ---------- sorted lists ----------

  ghost predicate SortedByKey(rows: seq<Generation>) {
    forall i, j :: 0 <= i < j < |rows| ==> S.Below(rows[i].key, rows[j].key)
  }

  lemma {:induction false} BelowTotal(a: string, b: string)
    ensures a == b || S.Below(a, b) || S.Below(b, a)
    decreases |a|
  {
    if a != "" && b != "" && a[0] == b[0] {
      BelowTotal(a[1..], b[1..]);
      assert a == [a[0]] + a[1..] && b == [b[0]] + b[1..];
    }
  }

  /** Where a new key belongs. */
  method Place(rows: seq<Generation>, g: Generation) returns (k: nat)
    requires SortedByKey(rows) && forall i :: 0 <= i < |rows| ==> rows[i].key != g.key
    ensures k <= |rows| && SortedByKey(rows[..k] + [g] + rows[k..])
  {
    k := 0;
    while k < |rows| && S.Below(rows[k].key, g.key)
      invariant k <= |rows| && forall i :: 0 <= i < k ==> S.Below(rows[i].key, g.key)
    {
      k := k + 1;
    }
    forall i | k <= i < |rows| ensures S.Below(g.key, rows[i].key) {
      BelowTotal(g.key, rows[k].key);
      if k < i {
        S.BelowTransitive(g.key, rows[k].key, rows[i].key);
      }
    }
  }

  /** Exactly the values of one family. */
  ghost predicate ListOf(values: map<Slot, Generation>, family: Family, rows: seq<Generation>) {
    && SortedByKey(rows)
    && (forall g :: g in rows <==> (family, g.key) in values && values[(family, g.key)] == g)
  }

  method Sorted(values: map<Slot, Generation>, family: Family) returns (rows: seq<Generation>)
    requires forall slot :: slot in values ==> values[slot].key == slot.1
    ensures ListOf(values, family, rows)
  {
    rows := [];
    var todo := values.Keys;
    while todo != {}
      invariant todo <= values.Keys && SortedByKey(rows)
      invariant forall g :: g in rows <==>
                  (family, g.key) in values && (family, g.key) !in todo && values[(family, g.key)] == g
      decreases |todo|
    {
      var slot :| slot in todo;
      var g := values[slot];
      if slot.0 == family {
        forall i | 0 <= i < |rows| ensures rows[i].key != g.key {
          assert rows[i] in rows;
        }
        var k := Place(rows, g);
        rows := rows[..k] + [g] + rows[k..];
      }
      todo := todo - {slot};
    }
  }

  // ---------- the union ----------

  ghost predicate HeldIn(held: seq<Held>, family: Family, g: Generation) {
    exists p :: p in held && FamilyOf(p.0) == family && p.1 == g
  }

  ghost predicate IsUnion(held: seq<Held>, family: Family, rows: seq<Generation>) {
    SortedByKey(rows) && forall g :: g in rows <==> HeldIn(held, family, g)
  }

  function Bytes(rows: seq<Generation>): int {
    if rows == [] then 0 else Bytes(rows[..|rows| - 1]) + rows[|rows| - 1].size
  }

  predicate WithinBounds(rows: seq<Generation>) {
    |rows| <= MAX_ROWS && Bytes(rows) <= MAX_BYTES
  }

  /** Each row of the family comes from a source of that family that really holds it. */
  ghost predicate OriginsRight(held: seq<Held>, family: Family, rows: seq<Generation>, origins: map<Slot, Role>) {
    forall g :: g in rows ==>
      && (family, g.key) in origins && FamilyOf(origins[(family, g.key)]) == family
      && (origins[(family, g.key)], g) in held
  }

  lemma ValuesAreTheUnion(held: seq<Held>, values: map<Slot, Generation>, origins: map<Slot, Role>, family: Family,
                          rows: seq<Generation>)
    requires Collected(held, values, origins) && ListOf(values, family, rows)
    ensures IsUnion(held, family, rows) && OriginsRight(held, family, rows, origins)
  {
    forall g ensures g in rows <==> HeldIn(held, family, g) {
      if g in rows {
        assert ValueHeld(held, values, origins, (family, g.key));
      }
      if HeldIn(held, family, g) {
        var p :| p in held && FamilyOf(p.0) == family && p.1 == g;
        assert HeldValued(values, p);
      }
    }
    forall g | g in rows
      ensures (family, g.key) in origins && FamilyOf(origins[(family, g.key)]) == family
      ensures (origins[(family, g.key)], g) in held
    {
      assert ValueHeld(held, values, origins, (family, g.key));
    }
  }

  lemma HasFirst(rows: seq<Generation>)
    ensures rows != [] ==> rows[0] in rows
  {
  }

  lemma {:induction false} SameSortedList(a: seq<Generation>, b: seq<Generation>)
    requires SortedByKey(a) && SortedByKey(b) && forall g :: g in a <==> g in b
    ensures a == b
    decreases |a|
  {
    if a == [] {
      HasFirst(b);
    } else {
      assert a[0] in b;
      var k :| 0 <= k < |b| && b[k] == a[0];
      assert b[0] in a;
      var j :| 0 <= j < |a| && a[j] == b[0];
      if k > 0 {
        assert S.Below(b[0].key, b[k].key);
        if j > 0 {
          S.BelowTransitive(a[0].key, a[j].key, a[0].key);
        }
        S.BelowIrreflexive(a[0].key);
      }
      forall g ensures g in a[1..] <==> g in b[1..] {
        S.BelowIrreflexive(a[0].key);
        if g in a[1..] {
          var i :| 1 <= i < |a| && a[i] == g;
          assert S.Below(a[0].key, g.key) && g in b;
        }
        if g in b[1..] {
          var i :| 1 <= i < |b| && b[i] == g;
          assert S.Below(b[0].key, g.key) && g in a;
        }
      }
      SameSortedList(a[1..], b[1..]);
    }
  }

  /** `_union`: it succeeds exactly when the sources are consistent and their union is within bounds. */
  method Unite(source: seq<Manifest>)
    returns (r: Option<(seq<Generation>, seq<Generation>, map<Slot, Role>)>)
    ensures r.Some? ==> UnitedAs(AllHeld(source), r.value.0, r.value.1, r.value.2)
    ensures r.Some? <==> Consistent(AllHeld(source)) && BothWithinBounds(AllHeld(source))
  {
    var collected := Collect(source);
    if collected.None? {
      return None;
    }
    ghost var held := AllHeld(source);
    var (values, origins) := collected.value;
    forall slot | slot in values ensures values[slot].key == slot.1 {
      assert ValueHeld(held, values, origins, slot);
    }
    var cache := Sorted(values, Cache);
    var corpus := Sorted(values, Corpus);
    ValuesAreTheUnion(held, values, origins, Cache, cache);
    ValuesAreTheUnion(held, values, origins, Corpus, corpus);
    if !WithinBounds(cache) || !WithinBounds(corpus) {
      OnlyUnion(held, Cache, cache);
      OnlyUnion(held, Corpus, corpus);
      return None;
    }
    r := Some((cache, corpus, origins));
  }

  lemma OnlyUnion(held: seq<Held>, family: Family, rows: seq<Generation>)
    requires IsUnion(held, family, rows)
    ensures forall other :: IsUnion(held, family, other) ==> other == rows
  {
    forall other | IsUnion(held, family, other) ensures other == rows {
      SameSortedList(other, rows);
    }
  }

  ghost predicate BothWithinBounds(held: seq<Held>) {
    exists cache, corpus :: IsUnion(held, Cache, cache) && IsUnion(held, Corpus, corpus) && WithinBounds(cache) && WithinBounds(corpus)
  }

  /** Nothing lost and nothing invented, in each family, and every origin really holds its row. */
  ghost predicate UnitedAs(held: seq<Held>, cache: seq<Generation>, corpus: seq<Generation>, origins: map<Slot, Role>) {
    && IsUnion(held, Cache, cache) && OriginsRight(held, Cache, cache, origins) && WithinBounds(cache)
    && IsUnion(held, Corpus, corpus) && OriginsRight(held, Corpus, corpus, origins) && WithinBounds(corpus)
  }
}
