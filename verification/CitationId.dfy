/** The canonical citation path: which texts are accepted, and that they and the identities they name are the same thing. */
module CitationId {
  import opened Prelude
  import opened Digits
  import U = Utf8

  const MAX_ID := 2048
  const MAX_SECTION := 256
  const MAX_OFFSET := 67108864
  const MAX_SPAN := 8192

  // ---------- percent encoding ----------

  function HexDigit(n: nat): char
    requires n < 16
  {
    if n < 10 then '0' + n as char else 'A' + (n - 10) as char
  }

  /** The value of a hexadecimal digit of either case; -1 for anything else. */
  function HexValue(c: char): int {
    if '0' <= c <= '9' then c as int - '0' as int
    else if 'A' <= c <= 'F' then c as int - 'A' as int + 10
    else if 'a' <= c <= 'f' then c as int - 'a' as int + 10
    else -1
  }

  /** Letters, digits and `-._*`; the tilde, which the library leaves alone, is encoded afterwards. */
  predicate IsPlain(b: int) {
    || '0' as int <= b <= '9' as int || 'A' as int <= b <= 'Z' as int || 'a' as int <= b <= 'z' as int
    || b == '-' as int || b == '.' as int || b == '_' as int || b == '*' as int
  }

  function QuoteByte(b: U.byte): (r: string)
    ensures |r| == 1 || |r| == 3
  {
    if IsPlain(b) then [b as char] else ['%', HexDigit(b / 16), HexDigit(b % 16)]
  }

  function Quote(b: U.Bytes): string {
    if b == [] then "" else QuoteByte(b[0]) + Quote(b[1..])
  }

  /** `quote(section, safe="-._*")` with the tilde encoded too. */
  function Encoded(section: string): string {
    Quote(U.Encode(section))
  }

  predicate IsAscii(s: string) {
    forall i :: 0 <= i < |s| ==> s[i] as int < 128
  }

  /** `unquote_to_bytes`: an escape that is none stays as it is written. */
  function UnquoteBytes(s: string): U.Bytes
    requires IsAscii(s)
    decreases |s|
  {
    if s == "" then []
    else if s[0] == '%' && |s| >= 3 && HexValue(s[1]) >= 0 && HexValue(s[2]) >= 0
    then [HexValue(s[1]) * 16 + HexValue(s[2])] + UnquoteBytes(s[3..])
    else [s[0] as int] + UnquoteBytes(s[1..])
  }

  function AsciiRun(s: string): (n: nat)
    ensures n <= |s| && IsAscii(s[..n]) && (n < |s| ==> s[n] as int >= 128)
  {
    if s == "" || s[0] as int >= 128 then 0
    else
      assert s[..1 + AsciiRun(s[1..])] == [s[0]] + s[1..][..AsciiRun(s[1..])];
      1 + AsciiRun(s[1..])
  }

  /** `unquote` with strict UTF-8: each run of ASCII is decoded by itself, other characters stay. */
  function Unquote(s: string): Option<string>
    decreases |s|
  {
    if s == "" then Some("")
    else
      var n := AsciiRun(s);
      if n == 0 then
        match Unquote(s[1..])
        case None => None
        case Some(rest) => Some([s[0]] + rest)
      else
        match (U.Decode(UnquoteBytes(s[..n])), Unquote(s[n..]))
        case (Some(first), Some(rest)) => Some(first + rest)
        case _ => None
  }

  lemma QuotedByteBack(b: U.byte, rest: string)
    requires IsAscii(rest)
    ensures IsAscii(QuoteByte(b) + rest) && UnquoteBytes(QuoteByte(b) + rest) == [b] + UnquoteBytes(rest)
  {
    var s := QuoteByte(b) + rest;
    if IsPlain(b) {
      assert s[1..] == rest;
    } else {
      assert s[3..] == rest;
      assert HexValue(HexDigit(b / 16)) == b / 16 && HexValue(HexDigit(b % 16)) == b % 16;
    }
  }

  lemma {:induction false} QuoteBack(b: U.Bytes)
    ensures IsAscii(Quote(b)) && UnquoteBytes(Quote(b)) == b
    decreases |b|
  {
    if b != [] {
      QuoteBack(b[1..]);
      QuotedByteBack(b[0], Quote(b[1..]));
    }
  }

  lemma {:induction false} AsciiRunOf(s: string)
    requires IsAscii(s)
    ensures AsciiRun(s) == |s|
    decreases |s|
  {
    if s != "" {
      AsciiRunOf(s[1..]);
    }
  }

  /** Unquoting undoes quoting. */
  lemma UnquoteOfEncoded(section: string)
    ensures IsAscii(Encoded(section)) && Unquote(Encoded(section)) == Some(section)
  {
    var s := Encoded(section);
    QuoteBack(U.Encode(section));
    U.DecodeOf(section);
    AsciiRunOf(s);
    if s == "" {
      assert U.Encode(section) == [];
      assert U.Decode([]) == Some("");
    } else {
      assert s[..|s|] == s && s[|s|..] == "" && Unquote("") == Some("");
      assert section + "" == section;
    }
  }

  /** Only unreserved characters and escapes appear. */
  predicate IsQuotedChar(c: char) {
    IsPlain(c as int) || c == '%'
  }

  lemma {:induction false} QuotedChars(b: U.Bytes)
    ensures forall i :: 0 <= i < |Quote(b)| ==> IsQuotedChar(Quote(b)[i])
    decreases |b|
  {
    if b != [] {
      QuotedChars(b[1..]);
    }
  }

  // ---------- splitting ----------

  function Split(s: string): (parts: seq<string>)
    ensures |parts| >= 1
    decreases |s|
  {
    var n := FirstSlash(s);
    if n == |s| then [s] else [s[..n]] + Split(s[n + 1..])
  }

  function Join(parts: seq<string>): string
    requires |parts| >= 1
  {
    if |parts| == 1 then parts[0] else parts[0] + "/" + Join(parts[1..])
  }

  predicate NoSlash(s: string) {
    forall i :: 0 <= i < |s| ==> s[i] != '/'
  }

  lemma CutAtSlash(s: string, n: nat)
    requires n < |s| && s[n] == '/'
    ensures s[..n] + "/" + s[n + 1..] == s
  {
  }

  lemma JoinCons(part: string, parts: seq<string>)
    requires |parts| >= 1
    ensures Join([part] + parts) == part + "/" + Join(parts)
  {
    assert ([part] + parts)[1..] == parts;
  }

  lemma {:induction false} JoinOfSplit(s: string)
    ensures Join(Split(s)) == s
    decreases |s|
  {
    var n := FirstSlash(s);
    if n < |s| {
      JoinOfSplit(s[n + 1..]);
      JoinCons(s[..n], Split(s[n + 1..]));
      CutAtSlash(s, n);
    }
  }

  lemma FirstSlashOf(part: string, rest: string)
    requires NoSlash(part)
    ensures FirstSlash(part + "/" + rest) == |part|
  {
    var s := part + "/" + rest;
    assert s[|part|] == '/';
    assert forall i :: 0 <= i < |part| ==> s[i] == part[i];
  }

  lemma {:induction false} SplitOfJoin(parts: seq<string>)
    requires |parts| >= 1 && forall k :: 0 <= k < |parts| ==> NoSlash(parts[k])
    ensures Split(Join(parts)) == parts
    decreases |parts|
  {
    if |parts| == 1 {
      assert FirstSlash(parts[0]) == |parts[0]|;
    } else {
      var rest := Join(parts[1..]);
      var s := parts[0] + "/" + rest;
      FirstSlashOf(parts[0], rest);
      assert s[..|parts[0]|] == parts[0] && s[|parts[0]| + 1..] == rest;
      SplitOfJoin(parts[1..]);
    }
  }

  // ---------- numbers ----------

  /** `0`, or up to eight digits that do not start with one. */
  predicate IsNumber(s: string) {
    && 1 <= |s| <= 8 && AllDigits(s) && (s == "0" || s[0] != '0')
  }

  function Decimal(n: nat): (s: string)
    ensures |s| >= 1 && AllDigits(s)
  {
    if n < 10 then ['0' + n as char] else Decimal(n / 10) + ['0' + (n % 10) as char]
  }

  lemma {:induction false} NumberOfDecimal(n: nat)
    ensures Value(Decimal(n)) == n && (Decimal(n) == "0" || Decimal(n)[0] != '0')
    decreases n
  {
    var s := Decimal(n);
    if n < 10 {
      assert s[..0] == "";
    } else {
      NumberOfDecimal(n / 10);
      assert s[..|s| - 1] == Decimal(n / 10);
    }
  }

  lemma {:induction false} DecimalOfNumber(s: string)
    requires |s| >= 1 && AllDigits(s) && (s == "0" || s[0] != '0')
    ensures Decimal(Value(s)) == s && (s != "0" ==> Value(s) >= 1)
    decreases |s|
  {
    if |s| == 1 {
      assert s[..0] == "";
    } else {
      var front, last := s[..|s| - 1], s[|s| - 1];
      DecimalOfNumber(front);
      TenTimes(Value(front), DigitValue(last));
      assert Decimal(Value(s)) == Decimal(Value(front)) + [last];
      assert s == front + [last];
    }
  }

  lemma {:induction false} DecimalLength(n: nat, width: nat)
    requires n < Pow10(width) && width >= 1
    ensures |Decimal(n)| <= width
    decreases width
  {
    if n >= 10 {
      DecimalLength(n / 10, width - 1);
    }
  }

  // ---------- identities ----------

  datatype Where = Doc | Section(section: string) | Passage(section: string, start: nat, end: nat)

  datatype Identity = Identity(jurisdiction: string, provider: string, dataset: string, objectId: string,
                               capture: string, part: Where)

  predicate IsWordChar(c: char) {
    'A' <= c <= 'Z' || 'a' <= c <= 'z' || IsDigit(c) || c == '_' || c == '-'
  }

  predicate IsWord(s: string, maximum: nat) {
    1 <= |s| <= maximum && forall i :: 0 <= i < |s| ==> IsWordChar(s[i])
  }

  predicate IsDataset(s: string) {
    |s| >= 1 && 'a' <= s[0] <= 'z' && forall i :: 0 <= i < |s| ==> 'a' <= s[i] <= 'z' || IsDigit(s[i]) || s[i] == '_'
  }

  predicate IsDigest(s: string) {
    |s| == 64 && AllHex(s)
  }

  predicate IsControl(c: char) {
    c as int < 32 || 127 <= c as int <= 159
  }

  predicate IsSection(s: string) {
    s != "" && |U.Encode(s)| <= MAX_SECTION && forall i :: 0 <= i < |s| ==> !IsControl(s[i])
  }

  predicate IsSpan(start: nat, end: nat) {
    start < end <= MAX_OFFSET && end - start <= MAX_SPAN
  }

  /** What an accepted identity is, in its own terms. */
  predicate WellFormed(f: Identity) {
    && IsWord(f.jurisdiction, 32) && IsWord(f.provider, 64) && IsDataset(f.dataset) && IsWord(f.objectId, 128)
    && IsDigest(f.capture) && WhereOk(f.part)
  }

  predicate WhereOk(part: Where) {
    match part
    case Doc => true
    case Section(section) => IsSection(section)
    case Passage(section, start, end) => IsSection(section) && IsSpan(start, end)
  }

  function Parts(f: Identity): seq<string> {
    ["v1", f.jurisdiction, f.provider, f.dataset, f.objectId, f.capture] + WhereParts(f.part)
  }

  function WhereParts(part: Where): seq<string> {
    match part
    case Doc => ["doc"]
    case Section(section) => ["section", "s-" + Encoded(section)]
    case Passage(section, start, end) => ["passage", "s-" + Encoded(section), Decimal(start), Decimal(end)]
  }

  /** The path of an identity. */
  function Build(f: Identity): string {
    Join(Parts(f))
  }

  // ---------- the parser ----------

  /** The encoded section of a path, if it is the encoding of an admissible one. */
  function ParseSection(part: string): Option<string> {
    if |part| < 2 || part[..2] != "s-" then None
    else match Unquote(part[2..])
      case None => None
      case Some(section) => if IsSection(section) && Encoded(section) == part[2..] then Some(section) else None
  }

  function ParseSpan(start: string, end: string): Option<(nat, nat)> {
    if IsNumber(start) && IsNumber(end) && IsSpan(Value(start), Value(end)) then Some((Value(start), Value(end))) else None
  }

  function ParseWhere(parts: seq<string>): Option<Where>
    requires |parts| == 7 || |parts| == 8 || |parts| == 10
  {
    if parts[6] == "doc" && |parts| == 7 then Some(Doc)
    else if parts[6] == "section" && |parts| == 8 then
      match ParseSection(parts[7])
      case None => None
      case Some(section) => Some(Section(section))
    else if parts[6] == "passage" && |parts| == 10 then
      match (ParseSection(parts[7]), ParseSpan(parts[8], parts[9]))
      case (Some(section), Some((start, end))) => Some(Passage(section, start, end))
      case _ => None
    else None
  }

  /** `citation_identity`. */
  function Parse(ident: string): Option<Identity> {
    var parts := Split(ident);
    if |U.Encode(ident)| > MAX_ID || !(|parts| == 7 || |parts| == 8 || |parts| == 10) || parts[0] != "v1" then None
    else if !IsWord(parts[1], 32) || !IsWord(parts[2], 64) || !IsWord(parts[4], 128) then None
    else if !IsDataset(parts[3]) || !IsDigest(parts[5]) then None
    else match ParseWhere(parts)
      case None => None
      case Some(part) => Some(Identity(parts[1], parts[2], parts[3], parts[4], parts[5], part))
  }

  lemma SectionExact(part: string, section: string)
    ensures ParseSection(part) == Some(section) <==> IsSection(section) && part == "s-" + Encoded(section)
  {
    UnquoteOfEncoded(section);
    if part == "s-" + Encoded(section) {
      assert part[..2] == "s-" && part[2..] == Encoded(section);
    }
    if ParseSection(part) == Some(section) {
      assert part == part[..2] + part[2..];
    }
  }

  lemma NumberExact(s: string, n: nat)
    ensures IsNumber(s) && Value(s) == n <==> s == Decimal(n) && n < Pow10(8)
  {
    if IsNumber(s) && Value(s) == n {
      DecimalOfNumber(s);
      ValueBound(s);
      Pow10Grows(|s|, 8);
    }
    if s == Decimal(n) && n < Pow10(8) {
      NumberOfDecimal(n);
      DecimalLength(n, 8);
    }
  }

  lemma SpanExact(a: string, b: string, start: nat, end: nat)
    ensures ParseSpan(a, b) == Some((start, end)) <==> a == Decimal(start) && b == Decimal(end) && IsSpan(start, end)
  {
    assert MAX_OFFSET < Pow10(8) by {
      assert Pow10(8) == 100_000_000;
    }
    NumberExact(a, start);
    NumberExact(b, end);
  }

  // ---------- the bijection ----------

  predicate HasShape(parts: seq<string>) {
    |parts| == 7 || |parts| == 8 || |parts| == 10
  }

  lemma WhereExact(parts: seq<string>, part: Where)
    requires HasShape(parts)
    ensures ParseWhere(parts) == Some(part) <==> WhereOk(part) && parts[6..] == WhereParts(part)
  {
    match part {
      case Doc =>
        assert parts[6..] == ["doc"] <==> |parts| == 7 && parts[6] == "doc";
      case Section(section) =>
        assert parts[6..] == WhereParts(part) <==>
            |parts| == 8 && parts[6] == "section" && parts[7] == "s-" + Encoded(section);
        if |parts| == 8 {
          SectionExact(parts[7], section);
        }
      case Passage(section, start, end) =>
        assert parts[6..] == WhereParts(part) <==>
            |parts| == 10 && parts[6] == "passage" && parts[7] == "s-" + Encoded(section)
            && parts[8] == Decimal(start) && parts[9] == Decimal(end);
        if |parts| == 10 {
          SectionExact(parts[7], section);
          SpanExact(parts[8], parts[9], start, end);
        }
    }
  }

  lemma PartsHaveNoSlash(f: Identity)
    requires WellFormed(f)
    ensures forall k :: 0 <= k < |Parts(f)| ==> NoSlash(Parts(f)[k])
  {
    forall section ensures NoSlash("s-" + Encoded(section)) {
      QuotedChars(U.Encode(section));
      var s := "s-" + Encoded(section);
      forall i | 0 <= i < |s| ensures s[i] != '/' {
        if i >= 2 {
          assert s[i] == Encoded(section)[i - 2];
        }
      }
    }
  }

  /** Splitting gives these parts exactly when they are the identity's. */
  lemma PartsExact(parts: seq<string>, f: Identity)
    ensures parts == Parts(f) <==>
              && HasShape(parts) && parts[0] == "v1" && parts[1] == f.jurisdiction && parts[2] == f.provider
              && parts[3] == f.dataset && parts[4] == f.objectId && parts[5] == f.capture && parts[6..] == WhereParts(f.part)
  {
    if HasShape(parts) {
      assert parts == parts[..6] + parts[6..];
    }
    assert Parts(f)[6..] == WhereParts(f.part);
  }

  /**
     A text is accepted with these fields exactly when they are well-formed and the text is their path, of no more
     than 2048 bytes: nothing is accepted twice under two spellings, and every identity has its one path.
     */
  lemma ParseExact(ident: string, f: Identity)
    ensures Parse(ident) == Some(f) <==> WellFormed(f) && Build(f) == ident && |U.Encode(ident)| <= MAX_ID
  {
    var parts := Split(ident);
    PartsExact(parts, f);
    if HasShape(parts) {
      WhereExact(parts, f.part);
    }
    if Parse(ident) == Some(f) {
      JoinOfSplit(ident);
      assert parts == Parts(f);
    }
    if WellFormed(f) && Build(f) == ident {
      PartsHaveNoSlash(f);
      SplitOfJoin(Parts(f));
      assert parts == Parts(f);
    }
  }
}
