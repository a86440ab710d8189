/**
 The physical check of a diagnostic image archive: fixed 512-byte headers of the "ustar Interchange Format"
 (the `pax` utility section of IEEE Std 1003.1), refused before any library sees an extension.
 */
module Ustar {
  import opened Prelude
  import D = Digits

  type byte = x: int | 0 <= x < 256
  type Bytes = seq<byte>

  const BLOCK := 512
  const MAX_MEMBERS := 4096
  const CHUNK := 1048576

  predicate IsZeros(s: Bytes) {
    forall i :: 0 <= i < |s| ==> s[i] == 0
  }

  function Zeros(n: nat): (r: Bytes)
    ensures |r| == n && IsZeros(r)
  {
    seq(n, i => 0)
  }

  function Sum(s: Bytes): nat {
    if s == [] then 0 else Sum(s[..|s| - 1]) + s[|s| - 1]
  }

  lemma {:induction false} SumBound(s: Bytes)
    ensures Sum(s) <= 255 * |s|
    decreases |s|
  {
    if s != [] {
      SumBound(s[..|s| - 1]);
    }
  }

  // ---------- octal fields ----------

  predicate IsDigit(b: byte) {
    48 <= b <= 55
  }

  predicate IsPad(b: byte) {
    b == 0 || b == 32
  }

  predicate AllDigits(s: Bytes) {
    forall i :: 0 <= i < |s| ==> IsDigit(s[i])
  }

  predicate AllPad(s: Bytes) {
    forall i :: 0 <= i < |s| ==> IsPad(s[i])
  }

  function OctalValue(digits: Bytes): nat
    requires AllDigits(digits)
  {
    if digits == [] then 0 else 8 * OctalValue(digits[..|digits| - 1]) + (digits[|digits| - 1] - 48)
  }

  function StripLeft(s: Bytes): Bytes {
    if s != [] && IsPad(s[0]) then StripLeft(s[1..]) else s
  }

  function StripRight(s: Bytes): Bytes {
    if s != [] && IsPad(s[|s| - 1]) then StripRight(s[..|s| - 1]) else s
  }

  /** `_tar_octal`. */
  function TarOctal(raw: Bytes, maximum: nat): Option<nat> {
    var digits := StripRight(StripLeft(raw));
    if raw == [] || !IsPad(raw[|raw| - 1]) || !(1 <= |digits| <= 11) || !AllDigits(digits) then None
    else if OctalValue(digits) <= maximum then Some(OctalValue(digits)) else None
  }

  ghost predicate FieldParts(raw: Bytes, lead: Bytes, digits: Bytes, tail: Bytes) {
    && raw == lead + digits + tail
    && AllPad(lead) && AllDigits(digits) && AllPad(tail)
    && 1 <= |digits| <= 11 && |tail| >= 1
  }

  /** A field of the format: padding, one to eleven octal digits, and at least one terminator. */
  ghost predicate OctalField(raw: Bytes, value: nat) {
    exists lead, digits, tail :: FieldParts(raw, lead, digits, tail) && OctalValue(digits) == value
  }

  lemma {:induction false} StripLeftSplits(s: Bytes) returns (lead: Bytes)
    ensures s == lead + StripLeft(s) && AllPad(lead)
    ensures StripLeft(s) != [] ==> !IsPad(StripLeft(s)[0])
    decreases |s|
  {
    lead := [];
    if s != [] && IsPad(s[0]) {
      var rest := StripLeftSplits(s[1..]);
      lead := [s[0]] + rest;
      assert s == [s[0]] + s[1..];
    }
  }

  lemma {:induction false} StripRightSplits(s: Bytes) returns (tail: Bytes)
    ensures s == StripRight(s) + tail && AllPad(tail)
    ensures StripRight(s) != [] ==> !IsPad(StripRight(s)[|StripRight(s)| - 1])
    decreases |s|
  {
    tail := [];
    if s != [] && IsPad(s[|s| - 1]) {
      var rest := StripRightSplits(s[..|s| - 1]);
      tail := rest + [s[|s| - 1]];
      assert s == s[..|s| - 1] + [s[|s| - 1]];
    }
  }

  lemma {:induction false} StripLeftOf(lead: Bytes, rest: Bytes)
    requires AllPad(lead) && rest != [] && !IsPad(rest[0])
    ensures StripLeft(lead + rest) == rest
    decreases |lead|
  {
    if lead == [] {
      assert lead + rest == rest;
    } else {
      assert (lead + rest)[1..] == lead[1..] + rest;
      StripLeftOf(lead[1..], rest);
    }
  }

  lemma {:induction false} StripRightOf(front: Bytes, tail: Bytes)
    requires AllPad(tail) && front != [] && !IsPad(front[|front| - 1])
    ensures StripRight(front + tail) == front
    decreases |tail|
  {
    if tail == [] {
      assert front + tail == front;
    } else {
      var s := front + tail;
      assert s[..|s| - 1] == front + tail[..|tail| - 1];
      StripRightOf(front, tail[..|tail| - 1]);
    }
  }

  lemma OctalSound(raw: Bytes, maximum: nat)
    requires TarOctal(raw, maximum).Some?
    ensures OctalField(raw, TarOctal(raw, maximum).value) && TarOctal(raw, maximum).value <= maximum
  {
    var lead := StripLeftSplits(raw);
    var tail := StripRightSplits(StripLeft(raw));
    var digits := StripRight(StripLeft(raw));
    assert raw == lead + digits + tail;
    assert FieldParts(raw, lead, digits, tail);
  }

  lemma OctalComplete(raw: Bytes, maximum: nat, lead: Bytes, digits: Bytes, tail: Bytes)
    requires FieldParts(raw, lead, digits, tail) && OctalValue(digits) <= maximum
    ensures TarOctal(raw, maximum) == Some(OctalValue(digits))
  {
    assert raw == lead + (digits + tail);
    StripLeftOf(lead, digits + tail);
    StripRightOf(digits, tail);
    assert raw[|raw| - 1] == tail[|tail| - 1];
  }

  /** The reader accepts exactly the fields of the format whose value is in range. */
  lemma OctalExact(raw: Bytes, maximum: nat, value: nat)
    ensures TarOctal(raw, maximum) == Some(value) <==> OctalField(raw, value) && value <= maximum
  {
    if TarOctal(raw, maximum) == Some(value) {
      OctalSound(raw, maximum);
    }
    if OctalField(raw, value) && value <= maximum {
      var lead, digits, tail :| FieldParts(raw, lead, digits, tail) && OctalValue(digits) == value;
      OctalComplete(raw, maximum, lead, digits, tail);
    }
  }

  /** So many octal digits of a value. */
  function OctalDigits(value: nat, width: nat): (r: Bytes)
    ensures |r| == width && AllDigits(r)
  {
    if width == 0 then [] else OctalDigits(value / 8, width - 1) + [48 + value % 8]
  }

  function Power8(n: nat): nat {
    if n == 0 then 1 else 8 * Power8(n - 1)
  }

  lemma {:induction false} OctalDigitsValue(value: nat, width: nat)
    requires value < Power8(width)
    ensures OctalValue(OctalDigits(value, width)) == value
    decreases width
  {
    if width > 0 {
      OctalDigitsValue(value / 8, width - 1);
      var r := OctalDigits(value, width);
      assert r[..|r| - 1] == OctalDigits(value / 8, width - 1);
    }
  }

  // ---------- headers ----------

  /** What is kept of a header: a directory name is kept without its slash. */
  datatype Header = Header(name: string, dir: bool, size: nat)

  predicate DirectoryName(name: string) {
    name == "blobs" || name == "blobs/sha256"
  }

  predicate FileName(name: string) {
    || name == "oci-layout" || name == "index.json" || name == "manifest.json"
    || (|name| == 77 && name[..13] == "blobs/sha256/" && forall i :: 13 <= i < 77 ==> D.IsHex(name[i]))
  }

  /** The names a member may have once the slash of a directory is dropped. */
  predicate Admissible(h: Header, maximum: nat) {
    && h.size <= maximum
    && if h.dir then DirectoryName(h.name) && h.size == 0 else FileName(h.name)
  }

  function Text(raw: Bytes): (r: string)
    ensures |r| == |raw|
  {
    seq(|raw|, i requires 0 <= i < |raw| => raw[i] as char)
  }

  function FirstZero(s: Bytes): (n: nat)
    ensures n <= |s| && (forall i :: 0 <= i < n ==> s[i] != 0) && (n < |s| ==> s[n] == 0)
  {
    if s == [] || s[0] == 0 then 0 else 1 + FirstZero(s[1..])
  }

  predicate IsAscii(s: Bytes) {
    forall i :: 0 <= i < |s| ==> s[i] < 128
  }

  /** The name field: text up to the first NUL, then nothing but NULs. */
  function ParseName(field: Bytes): Option<string> {
    var n := FirstZero(field);
    if n < |field| && IsZeros(field[n..]) && IsAscii(field[..n]) then Some(Text(field[..n])) else None
  }

  function DropSlash(name: string): string {
    if name != "" && name[|name| - 1] == '/' then name[..|name| - 1] else name
  }

  const MAGIC: Bytes := [117, 115, 116, 97, 114, 0]
  const VERSION: Bytes := [48, 48]
  const FILE_KIND: byte := 48
  const DIR_KIND: byte := 53

  /** Type, magic and version, and no link name or name prefix. */
  predicate PlainUstar(h: Bytes)
    requires |h| == BLOCK
  {
    && (h[156] == FILE_KIND || h[156] == 0 || h[156] == DIR_KIND)
    && h[257..263] == MAGIC && h[263..265] == VERSION
    && IsZeros(h[345..500]) && IsZeros(h[157..257])
  }

  /** The sum of all bytes, the checksum field counted as blanks. */
  function HeaderSum(h: Bytes): nat
    requires |h| == BLOCK
  {
    Sum(h[..148]) + 8 * 32 + Sum(h[156..])
  }

  function ParseHeader(h: Bytes, maximum: nat): Option<Header>
    requires |h| == BLOCK
  {
    if !PlainUstar(h) || TarOctal(h[148..156], 8 * 255 * 512) != Some(HeaderSum(h)) then None
    else match (ParseName(h[..100]), TarOctal(h[124..136], maximum))
      case (Some(name), Some(size)) =>
        var dir := h[156] == DIR_KIND;
        var header := Header(if dir then DropSlash(name) else name, dir, size);
        if Admissible(header, maximum) then Some(header) else None
      case _ => None
  }

  // ---------- the pass ----------

  function Padding(size: nat): (n: nat)
    ensures n < BLOCK && (size + n) % BLOCK == 0
  {
    (BLOCK - size % BLOCK) % BLOCK
  }

  function Span(size: nat): (n: nat)
    ensures n >= BLOCK
  {
    BLOCK + size + Padding(size)
  }

  /** The member at the front of the rest of a stream: its name and how much of the stream it takes. */
  function FrontMember(s: Bytes, maximum: nat, names: set<string>): (r: Option<(string, nat)>)
    requires |s| >= BLOCK
    ensures r.Some? ==> BLOCK <= r.value.1 <= |s|
  {
    match ParseHeader(s[..BLOCK], maximum)
    case None => None
    case Some(h) =>
      if |names| >= MAX_MEMBERS || h.name in names || Span(h.size) > |s| || !IsZeros(s[BLOCK + h.size..Span(h.size)]) then None
      else Some((h.name, Span(h.size)))
  }

  lemma AlignedSum(a: nat, b: nat)
    requires a % BLOCK == 0 && b % BLOCK == 0
    ensures (a + b) % BLOCK == 0
  {
    var i, j := a / BLOCK, b / BLOCK;
    assert a + b == (i + j) * BLOCK;
  }

  /** The rest of a stream, after members of these names: the names of all members, or a refusal. */
  function ParseRest(s: Bytes, maximum: nat, names: set<string>): Option<set<string>>
    decreases |s|
  {
    if |s| < BLOCK then None
    else if IsZeros(s[..BLOCK]) then
      if |s| >= 2 * BLOCK && IsZeros(s) then Some(names) else None
    else match FrontMember(s, maximum, names)
      case None => None
      case Some((name, span)) => ParseRest(s[span..], maximum, names + {name})
  }

  // ---------- what an accepted stream is ----------

  /** One member as it lies in the stream. */
  datatype Member = Member(header: Header, raw: Bytes, payload: Bytes)

  function Whole(m: Member): Bytes {
    m.raw + m.payload + Zeros(Padding(|m.payload|))
  }

  ghost predicate MemberOk(m: Member, maximum: nat) {
    && |m.raw| == BLOCK && !IsZeros(m.raw)
    && ParseHeader(m.raw, maximum) == Some(m.header) && |m.payload| == m.header.size
  }

  function Stream(ms: seq<Member>): Bytes {
    if ms == [] then [] else Whole(ms[0]) + Stream(ms[1..])
  }

  function Names(ms: seq<Member>): set<string> {
    set m | m in ms :: m.header.name
  }

  ghost predicate DistinctNames(ms: seq<Member>) {
    forall j, k :: 0 <= j < k < |ms| ==> ms[j].header.name != ms[k].header.name
  }

  /** Headers, payloads in range, zero padding, and at least two zero blocks: nothing else, and nothing left over. */
  ghost predicate Tiles(s: Bytes, maximum: nat, ms: seq<Member>, trailer: nat) {
    && s == Stream(ms) + Zeros(trailer) && trailer >= 2 * BLOCK
    && (forall m :: m in ms ==> MemberOk(m, maximum))
    && DistinctNames(ms) && |ms| <= MAX_MEMBERS
  }

  /** Good members with new distinct names, some names being taken already. */
  ghost predicate Continues(ms: seq<Member>, maximum: nat, names: set<string>) {
    && (forall m :: m in ms ==> MemberOk(m, maximum) && m.header.name !in names)
    && DistinctNames(ms) && |names| + |ms| <= MAX_MEMBERS
  }

  /** The same, one member after the other. */
  ghost predicate Fits(ms: seq<Member>, maximum: nat, names: set<string>)
    decreases |ms|
  {
    if ms == [] then |names| <= MAX_MEMBERS
    else
      && MemberOk(ms[0], maximum) && ms[0].header.name !in names && |names| < MAX_MEMBERS
      && Fits(ms[1..], maximum, names + {ms[0].header.name})
  }

  lemma {:induction false} ContinuesFits(ms: seq<Member>, maximum: nat, names: set<string>)
    requires Continues(ms, maximum, names)
    ensures Fits(ms, maximum, names)
    decreases |ms|
  {
    if ms != [] {
      var name := ms[0].header.name;
      assert ms[0] in ms && |names + {name}| == |names| + 1;
      forall m | m in ms[1..] ensures m.header.name != name && m in ms {
        var k :| 1 <= k < |ms| && ms[k] == m;
      }
      ContinuesFits(ms[1..], maximum, names + {name});
    }
  }

  lemma DistinctCons(m: Member, rest: seq<Member>)
    requires DistinctNames(rest) && forall x :: x in rest ==> x.header.name != m.header.name
    ensures DistinctNames([m] + rest)
  {
    var ms := [m] + rest;
    forall j, k | 0 <= j < k < |ms| ensures ms[j].header.name != ms[k].header.name {
      assert ms[k] == rest[k - 1] && rest[k - 1] in rest;
      if j > 0 {
        assert ms[j] == rest[j - 1];
      }
    }
  }

  lemma {:induction false} FitsContinues(ms: seq<Member>, maximum: nat, names: set<string>)
    requires Fits(ms, maximum, names)
    ensures Continues(ms, maximum, names)
    decreases |ms|
  {
    if ms != [] {
      var name, rest := ms[0].header.name, ms[1..];
      FitsContinues(rest, maximum, names + {name});
      DistinctCons(ms[0], rest);
      assert ms == [ms[0]] + rest;
      assert |names + {name}| == |names| + 1;
    }
  }

  lemma NamesCons(m: Member, ms: seq<Member>, names: set<string>)
    ensures names + Names([m] + ms) == names + {m.header.name} + Names(ms)
  {
  }

  lemma FirstOf(m: Member, rest: Bytes)
    ensures (Whole(m) + rest)[..|m.raw|] == m.raw
    ensures (Whole(m) + rest)[|m.raw| + |m.payload|..|Whole(m)|] == Zeros(Padding(|m.payload|))
    ensures (Whole(m) + rest)[|Whole(m)|..] == rest
  {
  }

  /** One member is read, and the rest is read with its name taken. */
  lemma ParseStep(m: Member, rest: Bytes, maximum: nat, names: set<string>)
    requires MemberOk(m, maximum) && m.header.name !in names && |names| < MAX_MEMBERS
    ensures ParseRest(Whole(m) + rest, maximum, names) == ParseRest(rest, maximum, names + {m.header.name})
  {
    FirstOf(m, rest);
    var s := Whole(m) + rest;
    assert |Whole(m)| == Span(m.header.size);
    assert s[..BLOCK] == m.raw && s[BLOCK + m.header.size..Span(m.header.size)] == Zeros(Padding(|m.payload|));
  }

  lemma TrailerEnds(trailer: nat, maximum: nat, names: set<string>)
    requires trailer >= 2 * BLOCK
    ensures ParseRest(Zeros(trailer), maximum, names) == Some(names)
  {
  }

  lemma StreamCons(m: Member, rest: seq<Member>, tail: Bytes)
    ensures Stream([m] + rest) + tail == Whole(m) + (Stream(rest) + tail)
  {
    assert ([m] + rest)[1..] == rest;
  }

  /** Whatever is laid out like this is accepted, with exactly these names. */
  lemma {:induction false} TilesAreAccepted(ms: seq<Member>, trailer: nat, maximum: nat, names: set<string>)
    requires Fits(ms, maximum, names) && trailer >= 2 * BLOCK
    ensures ParseRest(Stream(ms) + Zeros(trailer), maximum, names) == Some(names + Names(ms))
    decreases |ms|
  {
    if ms == [] {
      TrailerEnds(trailer, maximum, names);
      assert Stream(ms) + Zeros(trailer) == Zeros(trailer);
      assert names + Names(ms) == names;
    } else {
      var m, rest, tail := ms[0], ms[1..], Zeros(trailer);
      assert ms == [m] + rest;
      NamesCons(m, rest, names);
      StreamCons(m, rest, tail);
      ParseStep(m, Stream(rest) + tail, maximum, names);
      TilesAreAccepted(rest, trailer, maximum, names + {m.header.name});
    }
  }

  lemma MemberCut(s: Bytes, maximum: nat, h: Header) returns (m: Member)
    requires |s| >= BLOCK && ParseHeader(s[..BLOCK], maximum) == Some(h) && !IsZeros(s[..BLOCK])
    requires Span(h.size) <= |s| && IsZeros(s[BLOCK + h.size..Span(h.size)])
    ensures MemberOk(m, maximum) && m.header == h && s == Whole(m) + s[Span(h.size)..]
  {
    m := Member(h, s[..BLOCK], s[BLOCK..BLOCK + h.size]);
    assert s[BLOCK + h.size..Span(h.size)] == Zeros(Padding(h.size));
    assert s == s[..BLOCK] + s[BLOCK..BLOCK + h.size] + s[BLOCK + h.size..Span(h.size)] + s[Span(h.size)..];
  }

  /** Whatever is accepted is laid out like this. */
  lemma {:induction false} AcceptedIsTiled(s: Bytes, maximum: nat, names: set<string>) returns (ms: seq<Member>, trailer: nat)
    requires ParseRest(s, maximum, names).Some? && |names| <= MAX_MEMBERS
    ensures s == Stream(ms) + Zeros(trailer) && trailer >= 2 * BLOCK && Fits(ms, maximum, names)
    ensures ParseRest(s, maximum, names) == Some(names + Names(ms))
    decreases |s|
  {
    if IsZeros(s[..BLOCK]) {
      ms, trailer := [], |s|;
      assert s == [] + Zeros(|s|);
      assert names + Names(ms) == names;
    } else {
      var h := ParseHeader(s[..BLOCK], maximum).value;
      var m := MemberCut(s, maximum, h);
      var after := s[Span(h.size)..];
      ParseStep(m, after, maximum, names);
      var rest;
      rest, trailer := AcceptedIsTiled(after, maximum, names + {h.name});
      ms := [m] + rest;
      assert ms[1..] == rest;
      NamesCons(m, rest, names);
      assert Stream(ms) + Zeros(trailer) == Whole(m) + (Stream(rest) + Zeros(trailer));
    }
  }

  ghost predicate TiledAs(s: Bytes, maximum: nat, names: set<string>) {
    exists ms, trailer :: Tiles(s, maximum, ms, trailer) && names == Names(ms)
  }

  lemma AcceptedIsTiledAs(s: Bytes, maximum: nat)
    requires ParseRest(s, maximum, {}).Some?
    ensures TiledAs(s, maximum, ParseRest(s, maximum, {}).value)
  {
    var ms, trailer := AcceptedIsTiled(s, maximum, {});
    FitsContinues(ms, maximum, {});
    assert {} + Names(ms) == Names(ms);
    assert Tiles(s, maximum, ms, trailer);
  }

  lemma TiledIsAccepted(s: Bytes, maximum: nat, ms: seq<Member>, trailer: nat)
    requires Tiles(s, maximum, ms, trailer)
    ensures ParseRest(s, maximum, {}) == Some(Names(ms))
  {
    ContinuesFits(ms, maximum, {});
    TilesAreAccepted(ms, trailer, maximum, {});
    assert {} + Names(ms) == Names(ms);
  }

  /** Accepted exactly when the stream is tiled, and then the result is the set of its members' names. */
  lemma AcceptedExactlyWhenTiled(s: Bytes, maximum: nat, names: set<string>)
    ensures ParseRest(s, maximum, {}) == Some(names) <==> TiledAs(s, maximum, names)
  {
    if ParseRest(s, maximum, {}) == Some(names) {
      AcceptedIsTiledAs(s, maximum);
    }
    if TiledAs(s, maximum, names) {
      var ms, trailer :| Tiles(s, maximum, ms, trailer) && names == Names(ms);
      TiledIsAccepted(s, maximum, ms, trailer);
    }
  }

  // ---------- what an accepted header is ----------

  predicate NameField(field: Bytes, name: string) {
    && |name| < |field| && IsZeros(field[|name|..])
    && forall i :: 0 <= i < |name| ==> 0 < field[i] < 128 && name[i] == field[i] as char
  }

  lemma NameExact(field: Bytes, name: string)
    ensures ParseName(field) == Some(name) <==> NameField(field, name)
  {
    var n := FirstZero(field);
    if ParseName(field) == Some(name) {
      assert name == Text(field[..n]);
      forall i | 0 <= i < |name| ensures 0 < field[i] < 128 && name[i] == field[i] as char {
        assert field[..n][i] == field[i];
      }
    }
    if NameField(field, name) {
      assert field[|name|..][0] == 0;
      assert n == |name|;
      forall i | 0 <= i < n ensures field[..n][i] < 128 && Text(field[..n])[i] == name[i] {
        assert field[..n][i] == field[i];
      }
      assert Text(field[..n]) == name;
    }
  }

  /** The fields of one header, in the format's own terms. */
  ghost predicate HeaderFields(raw: Bytes, h: Header)
    requires |raw| == BLOCK
  {
    && PlainUstar(raw) && h.dir == (raw[156] == DIR_KIND)
    && OctalField(raw[148..156], HeaderSum(raw)) && OctalField(raw[124..136], h.size)
    && (NameField(raw[..100], h.name) || (h.dir && NameField(raw[..100], h.name + "/")))
  }

  lemma HeaderSumInRange(raw: Bytes)
    requires |raw| == BLOCK
    ensures HeaderSum(raw) <= 255 * 512
  {
    SumBound(raw[..148]);
    SumBound(raw[156..]);
  }

  /** A header is accepted exactly when its fields say so. */
  lemma HeaderExact(raw: Bytes, maximum: nat, h: Header)
    requires |raw| == BLOCK
    ensures ParseHeader(raw, maximum) == Some(h) <==> HeaderFields(raw, h) && Admissible(h, maximum)
  {
    HeaderSumInRange(raw);
    OctalExact(raw[148..156], 8 * 255 * 512, HeaderSum(raw));
    OctalExact(raw[124..136], maximum, h.size);
    NameExact(raw[..100], h.name);
    NameExact(raw[..100], h.name + "/");
    if ParseHeader(raw, maximum) == Some(h) {
      var name := ParseName(raw[..100]).value;
      if h.dir && name != h.name {
        assert name == h.name + "/";
      }
    }
    if h.dir && NameField(raw[..100], h.name + "/") {
      assert DropSlash(h.name + "/") == h.name;
    }
    if h.dir && Admissible(h, maximum) {
      assert DropSlash(h.name) == h.name;
    }
  }

  // ---------- the canonical printer ----------

  ghost predicate AsciiName(name: string) {
    forall i :: 0 <= i < |name| ==> 0 < name[i] as int < 128
  }

  ghost function AsciiBytes(name: string): (r: Bytes)
    requires AsciiName(name)
    ensures |r| == |name| && forall i :: 0 <= i < |r| ==> r[i] as char == name[i]
  {
    seq(|name|, i requires 0 <= i < |name| => name[i] as int)
  }

  lemma AdmissibleIsAscii(h: Header, maximum: nat)
    requires Admissible(h, maximum)
    ensures AsciiName(h.name) && |h.name| <= 77
  {
    if !h.dir && |h.name| == 77 {
      HashedIsAscii(h.name);
    }
  }

  lemma HashedIsAscii(name: string)
    requires |name| == 77 && name[..13] == "blobs/sha256/" && forall i :: 13 <= i < 77 ==> D.IsHex(name[i])
    ensures AsciiName(name)
  {
    var stem := name[..13];
    assert AsciiName(stem);
    forall i | 0 <= i < 77 ensures 0 < name[i] as int < 128 {
      assert i < 13 ==> stem[i] == name[i];
    }
  }

  /** The bytes before the checksum field. */
  ghost function Front(h: Header): (r: Bytes)
    requires AsciiName(h.name) && |h.name| <= 77
    ensures |r| == 148
  {
    AsciiBytes(h.name) + Zeros(124 - |h.name|) + (OctalDigits(h.size, 11) + [0]) + Zeros(12)
  }

  /** The bytes after it. */
  ghost function Back(h: Header): (r: Bytes)
    ensures |r| == 356
  {
    [if h.dir then DIR_KIND else FILE_KIND] + Zeros(100) + MAGIC + VERSION + Zeros(247)
  }

  ghost function PrintHeader(h: Header): (r: Bytes)
    requires AsciiName(h.name) && |h.name| <= 77
    ensures |r| == BLOCK
  {
    Front(h) + (OctalDigits(Sum(Front(h)) + 256 + Sum(Back(h)), 6) + [0, 32]) + Back(h)
  }

  lemma PlainOctal(value: nat, width: nat, tail: Bytes)
    requires value < Power8(width) && 1 <= width <= 11 && |tail| >= 1 && AllPad(tail)
    ensures OctalField(OctalDigits(value, width) + tail, value)
  {
    OctalDigitsValue(value, width);
    var digits := OctalDigits(value, width);
    assert [] + digits == digits;
    assert FieldParts(digits + tail, [], digits, tail);
  }

  lemma FrontFields(h: Header)
    requires AsciiName(h.name) && |h.name| <= 77 && h.size < Power8(11)
    ensures NameField(Front(h)[..100], h.name) && OctalField(Front(h)[124..136], h.size)
  {
    var f := Front(h);
    assert f[124..136] == OctalDigits(h.size, 11) + [0];
    PlainOctal(h.size, 11, [0]);
    forall i | 0 <= i < |h.name| ensures 0 < f[..100][i] < 128 && h.name[i] == f[..100][i] as char {
      assert f[i] == AsciiBytes(h.name)[i];
    }
  }

  lemma BackFields(h: Header)
    ensures Back(h)[0] == (if h.dir then DIR_KIND else FILE_KIND) && IsZeros(Back(h)[1..101])
    ensures Back(h)[101..107] == MAGIC && Back(h)[107..109] == VERSION && IsZeros(Back(h)[189..344])
  {
  }

  /** A printed header is accepted as the header it was printed from. */
  lemma PrintedHeaderIsRead(h: Header, maximum: nat)
    requires Admissible(h, maximum) && h.size < Power8(11) && AsciiName(h.name) && |h.name| <= 77
    ensures ParseHeader(PrintHeader(h), maximum) == Some(h) && !IsZeros(PrintHeader(h))
  {
    var raw, front, back := PrintHeader(h), Front(h), Back(h);
    var sum := Sum(front) + 256 + Sum(back);
    assert raw[..148] == front && raw[156..] == back;
    HeaderSumInRange(raw);
    assert Power8(6) == 262144;
    PlainOctal(sum, 6, [0, 32]);
    assert raw[148..156] == OctalDigits(sum, 6) + [0, 32];
    FrontFields(h);
    assert raw[..100] == front[..100] && raw[124..136] == front[124..136];
    BackFields(h);
    assert raw[156] == back[0] && raw[157..257] == back[1..101];
    assert raw[257..263] == back[101..107] && raw[263..265] == back[107..109] && raw[345..500] == back[189..344];
    HeaderExact(raw, maximum, h);
  }

  /** What a printer is given. */
  datatype Item = Item(name: string, dir: bool, payload: Bytes)

  function HeaderOf(item: Item): Header {
    Header(item.name, item.dir, |item.payload|)
  }

  /** Admissible, of a size that eleven octal digits can hold, and with distinct names. */
  ghost predicate Printable(items: seq<Item>, maximum: nat) {
    && (forall k :: 0 <= k < |items| ==> Admissible(HeaderOf(items[k]), maximum) && |items[k].payload| < Power8(11))
    && (forall j, k :: 0 <= j < k < |items| ==> items[j].name != items[k].name)
  }

  ghost function Printed(item: Item, maximum: nat): (m: Member)
    requires Admissible(HeaderOf(item), maximum)
    ensures |m.raw| == BLOCK
  {
    AdmissibleIsAscii(HeaderOf(item), maximum);
    Member(HeaderOf(item), PrintHeader(HeaderOf(item)), item.payload)
  }

  ghost function Members(items: seq<Item>, maximum: nat): (ms: seq<Member>)
    requires Printable(items, maximum)
    ensures |ms| == |items| && forall k :: 0 <= k < |ms| ==> |ms[k].raw| == BLOCK
  {
    seq(|items|, k requires 0 <= k < |items| => Printed(items[k], maximum))
  }

  ghost function Print(items: seq<Item>, maximum: nat): Bytes
    requires Printable(items, maximum)
  {
    Stream(Members(items, maximum)) + Zeros(2 * BLOCK)
  }

  lemma MembersAreGood(items: seq<Item>, maximum: nat)
    requires Printable(items, maximum) && |items| <= MAX_MEMBERS
    ensures Continues(Members(items, maximum), maximum, {})
  {
    var ms := Members(items, maximum);
    forall m | m in ms ensures MemberOk(m, maximum) {
      var k :| 0 <= k < |ms| && ms[k] == m;
      AdmissibleIsAscii(HeaderOf(items[k]), maximum);
      PrintedHeaderIsRead(HeaderOf(items[k]), maximum);
    }
  }

  lemma MemberNames(items: seq<Item>, maximum: nat)
    requires Printable(items, maximum)
    ensures Names(Members(items, maximum)) == set item | item in items :: item.name
  {
    var ms := Members(items, maximum);
    forall m | m in ms ensures exists item :: item in items && item.name == m.header.name {
      var k :| 0 <= k < |ms| && ms[k] == m;
      assert items[k] in items;
    }
    forall item | item in items ensures exists m :: m in ms && m.header.name == item.name {
      var k :| 0 <= k < |items| && items[k] == item;
      assert ms[k] in ms;
    }
  }

  lemma WholeIsAligned(m: Member)
    requires |m.raw| == BLOCK
    ensures |Whole(m)| % BLOCK == 0
  {
    AlignedSum(BLOCK, |m.payload| + Padding(|m.payload|));
  }

  lemma {:induction false} StreamIsAligned(ms: seq<Member>)
    requires forall k :: 0 <= k < |ms| ==> |ms[k].raw| == BLOCK
    ensures |Stream(ms)| % BLOCK == 0
    decreases |ms|
  {
    if ms != [] {
      WholeIsAligned(ms[0]);
      StreamIsAligned(ms[1..]);
      AlignedSum(|Whole(ms[0])|, |Stream(ms[1..])|);
    }
  }

  lemma EndedIsAligned(ms: seq<Member>)
    requires forall k :: 0 <= k < |ms| ==> |ms[k].raw| == BLOCK
    ensures |Stream(ms) + Zeros(2 * BLOCK)| % BLOCK == 0
  {
    StreamIsAligned(ms);
    AlignedSum(|Stream(ms)|, 2 * BLOCK);
  }

  lemma PrintedIsAligned(items: seq<Item>, maximum: nat)
    requires Printable(items, maximum)
    ensures |Print(items, maximum)| % BLOCK == 0
  {
    EndedIsAligned(Members(items, maximum));
  }

  lemma FittingIsAccepted(ms: seq<Member>, maximum: nat)
    ensures Continues(ms, maximum, {}) ==>
              ParseRest(Stream(ms) + Zeros(2 * BLOCK), maximum, {}) == Some(Names(ms))
  {
    if Continues(ms, maximum, {}) {
      ContinuesFits(ms, maximum, {});
      TilesAreAccepted(ms, 2 * BLOCK, maximum, {});
      assert {} + Names(ms) == Names(ms);
    }
  }

  /** Every list of at most 4096 distinct admissible members prints to an accepted stream with just those names. */
  lemma PrintedIsAccepted(items: seq<Item>, maximum: nat)
    requires Printable(items, maximum) && |items| <= MAX_MEMBERS
    ensures ParseRest(Print(items, maximum), maximum, {}) == Some(set item | item in items :: item.name)
    ensures |Print(items, maximum)| % BLOCK == 0
  {
    MembersAreGood(items, maximum);
    MemberNames(items, maximum);
    FittingIsAccepted(Members(items, maximum), maximum);
    PrintedIsAligned(items, maximum);
  }

  // ---------- the loop ----------

  lemma SpanIsAligned(offset: nat, size: nat)
    requires offset % BLOCK == 0
    ensures (offset + Span(size)) % BLOCK == 0
  {
    AlignedSum(BLOCK, size + Padding(size));
    AlignedSum(offset, Span(size));
  }

  /** The loop's step over one member. */
  lemma FrontTaken(stream: Bytes, offset: nat, maximum: nat, names: set<string>)
    requires offset + BLOCK <= |stream| && offset % BLOCK == 0 && !IsZeros(stream[offset..offset + BLOCK])
    ensures match FrontMember(stream[offset..], maximum, names)
            case None => ParseRest(stream[offset..], maximum, names) == None
            case Some((name, span)) =>
              && offset + span <= |stream| && (offset + span) % BLOCK == 0
              && ParseRest(stream[offset..], maximum, names) == ParseRest(stream[offset + span..], maximum, names + {name})
  {
    var rest := stream[offset..];
    assert rest[..BLOCK] == stream[offset..offset + BLOCK];
    match FrontMember(rest, maximum, names)
    case None =>
    case Some((name, span)) =>
      SpanIsAligned(offset, ParseHeader(rest[..BLOCK], maximum).value.size);
      assert rest[span..] == stream[offset + span..];
  }

  /** One header and what belongs to it: the name taken and how far the next header is. */
  method NextMember(stream: Bytes, offset: nat, maximum: nat, names: set<string>) returns (r: Option<(string, nat)>)
    requires offset + BLOCK <= |stream|
    ensures r == FrontMember(stream[offset..], maximum, names)
  {
    ghost var rest := stream[offset..];
    var header := stream[offset..offset + BLOCK];
    assert header == rest[..BLOCK];
    var parsed := ParseHeader(header, maximum);
    if parsed.None? || |names| >= MAX_MEMBERS || parsed.value.name in names {
      return None;
    }
    var size := parsed.value.size;
    var end := offset + Span(size);
    if end > |stream| {
      return None;
    }
    assert rest[BLOCK + size..Span(size)] == stream[offset + BLOCK + size..end];
    if !IsZeros(stream[offset + BLOCK + size..end]) {
      return None;
    }
    r := Some((parsed.value.name, Span(size)));
  }

  /** The second zero block and the trailer. */
  method AtEnd(stream: Bytes, offset: nat) returns (clean: bool)
    requires offset + BLOCK <= |stream| && IsZeros(stream[offset..offset + BLOCK])
    ensures clean <==> |stream[offset..]| >= 2 * BLOCK && IsZeros(stream[offset..])
  {
    if offset + 2 * BLOCK > |stream| {
      return false;
    }
    ghost var rest := stream[offset..];
    var second, later := IsZeros(stream[offset + BLOCK..offset + 2 * BLOCK]), false;
    if second {
      later := ReadTrailer(stream, offset + 2 * BLOCK);
    }
    clean := second && later;
    assert rest == stream[offset..offset + BLOCK] + stream[offset + BLOCK..offset + 2 * BLOCK] + stream[offset + 2 * BLOCK..];
    ZerosInThree(stream[offset..offset + BLOCK], stream[offset + BLOCK..offset + 2 * BLOCK], stream[offset + 2 * BLOCK..]);
  }

  lemma ZerosInThree(a: Bytes, b: Bytes, c: Bytes)
    ensures IsZeros(a + b + c) <==> IsZeros(a) && IsZeros(b) && IsZeros(c)
  {
    if IsZeros(a + b + c) {
      forall i | 0 <= i < |a| ensures a[i] == 0 {
        assert (a + b + c)[i] == a[i];
      }
      forall i | 0 <= i < |b| ensures b[i] == 0 {
        assert (a + b + c)[|a| + i] == b[i];
      }
      forall i | 0 <= i < |c| ensures c[i] == 0 {
        assert (a + b + c)[|a| + |b| + i] == c[i];
      }
    }
  }

  lemma BlockFits(offset: nat, end: nat)
    requires offset % BLOCK == 0 && end % BLOCK == 0 && offset < end
    ensures offset + BLOCK <= end
  {
  }

  datatype Turn = Done(names: Option<set<string>>) | Further(name: string, span: nat)

  /** One turn of the loop: the end of the stream, or one more member. */
  method OneTurn(stream: Bytes, offset: nat, maximum: nat, names: set<string>) returns (turn: Turn)
    requires offset + BLOCK <= |stream| && offset % BLOCK == 0
    ensures match turn
            case Done(r) => r == ParseRest(stream[offset..], maximum, names)
            case Further(name, span) =>
              && offset < offset + span <= |stream| && (offset + span) % BLOCK == 0
              && ParseRest(stream[offset..], maximum, names) == ParseRest(stream[offset + span..], maximum, names + {name})
  {
    assert stream[offset..][..BLOCK] == stream[offset..offset + BLOCK];
    if IsZeros(stream[offset..offset + BLOCK]) {
      var clean := AtEnd(stream, offset);
      return Done(if clean then Some(names) else None);
    }
    FrontTaken(stream, offset, maximum, names);
    var next := NextMember(stream, offset, maximum, names);
    turn := if next.None? then Done(None) else Further(next.value.0, next.value.1);
  }

  /** `_tar_physical_members` over a stream read to its end. */
  method PhysicalMembers(stream: Bytes, maximum: nat) returns (r: Option<set<string>>)
    ensures r == if |stream| % BLOCK == 0 then ParseRest(stream, maximum, {}) else None
  {
    if |stream| % BLOCK != 0 {
      return None;
    }
    var names: set<string> := {};
    var offset := 0;
    assert stream[0..] == stream;
    while offset < |stream|
      invariant 0 <= offset <= |stream| && offset % BLOCK == 0
      invariant ParseRest(stream, maximum, {}) == ParseRest(stream[offset..], maximum, names)
      decreases |stream| - offset
    {
      BlockFits(offset, |stream|);
      var turn := OneTurn(stream, offset, maximum, names);
      if turn.Done? {
        return turn.names;
      }
      names, offset := names + {turn.name}, offset + turn.span;
    }
    r := None;
  }

  /** The rest of the trailer, a megabyte at a time. */
  method ReadTrailer(stream: Bytes, start: nat) returns (clean: bool)
    requires start <= |stream|
    ensures clean <==> IsZeros(stream[start..])
  {
    var offset := start;
    while offset < |stream|
      invariant start <= offset <= |stream|
      invariant forall i :: start <= i < offset ==> stream[i] == 0
    {
      var count := if |stream| - offset < CHUNK then |stream| - offset else CHUNK;
      if !IsZeros(stream[offset..offset + count]) {
        ghost var i :| 0 <= i < count && stream[offset..offset + count][i] != 0;
        assert stream[start..][offset - start + i] != 0;
        return false;
      }
      forall i | offset <= i < offset + count ensures stream[i] == 0 {
        assert stream[i] == stream[offset..offset + count][i - offset];
      }
      offset := offset + count;
    }
    clean := true;
  }
}
