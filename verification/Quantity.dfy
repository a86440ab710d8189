/**
 Kubernetes quantities in rounded milli base units, as the offline validator and the cluster acceptance
 script each compute them, and the quota that has to hold exactly the configured number of workers.
 */
module Quantity {
  import opened Prelude
  import opened Digits

  const MAX_TEXT := 128
  const INT32 := 0x8000_0000
  const LIMIT := (0x8000_0000_0000_0000 - 1) * 1000

  // ---------- the written form ----------

  /** The digits before and after the point, and what follows them. */
  datatype Parts = Parts(whole: string, fraction: string, suffix: string)

  function Leading(s: string): (n: nat)
    ensures n <= |s| && AllDigits(s[..n]) && (n < |s| ==> !IsDigit(s[n]))
  {
    if s == "" || !IsDigit(s[0]) then 0
    else
      assert s[..1 + Leading(s[1..])] == [s[0]] + s[1..][..Leading(s[1..])];
      1 + Leading(s[1..])
  }

  const SCALES: set<string> := {"", "n", "u", "m", "k", "M", "G", "T", "P", "E", "Ki", "Mi", "Gi", "Ti", "Pi", "Ei"}

  /** An `e` or `E`, an optional sign, and digits. */
  predicate IsExponent(s: string) {
    && |s| >= 2 && (s[0] == 'e' || s[0] == 'E')
    && AllDigits(ExponentDigits(s)) && ExponentDigits(s) != ""
  }

  function ExponentDigits(s: string): string
    requires |s| >= 2
  {
    if s[1] == '+' || s[1] == '-' then s[2..] else s[1..]
  }

  function ExponentOf(s: string): int
    requires IsExponent(s)
  {
    if s[1] == '-' then 0 - Value(ExponentDigits(s)) else Value(ExponentDigits(s))
  }

  predicate IsSuffix(s: string) {
    s in SCALES || IsExponent(s)
  }

  function Unsigned(text: string): string {
    if text != "" && text[0] == '+' then text[1..] else text
  }

  /** After the first digits: the digits behind a point, and the rest. */
  function Tail(rest: string): (string, string) {
    if rest != "" && rest[0] == '.' then (rest[1..][..Leading(rest[1..])], rest[1..][Leading(rest[1..])..]) else ("", rest)
  }

  function Split(text: string): Parts {
    var body := Unsigned(text);
    var (fraction, suffix) := Tail(body[Leading(body)..]);
    Parts(body[..Leading(body)], fraction, suffix)
  }

  /** The pattern both programs match: it can be read in one way only. */
  function Parse(text: string): Option<Parts> {
    var p := Split(text);
    if (p.whole == "" && p.fraction == "") || !IsSuffix(p.suffix) then None else Some(p)
  }

  /** One way of writing these parts. */
  function Written(plus: bool, dot: bool, p: Parts): string {
    (if plus then "+" else "") + p.whole + (if dot then "." + p.fraction else "") + p.suffix
  }

  ghost predicate WellWritten(dot: bool, p: Parts) {
    && AllDigits(p.whole) && AllDigits(p.fraction) && (p.whole != "" || p.fraction != "")
    && (!dot ==> p.fraction == "") && IsSuffix(p.suffix)
  }

  lemma {:induction false} LeadingOf(digits: string, rest: string)
    requires AllDigits(digits) && (rest != "" ==> !IsDigit(rest[0]))
    ensures Leading(digits + rest) == |digits|
    decreases |digits|
  {
    if digits == "" {
      assert digits + rest == rest;
    } else {
      assert (digits + rest)[1..] == digits[1..] + rest;
      LeadingOf(digits[1..], rest);
    }
  }

  predicate EndsNumber(s: string) {
    s == "" || (!IsDigit(s[0]) && s[0] != '.' && s[0] != '+')
  }

  lemma SuffixEndsNumber(s: string)
    requires IsSuffix(s)
    ensures EndsNumber(s)
  {
  }

  lemma TailOf(dot: bool, fraction: string, suffix: string)
    requires AllDigits(fraction) && EndsNumber(suffix) && (!dot ==> fraction == "")
    ensures Tail((if dot then "." + fraction else "") + suffix) == (fraction, suffix)
  {
    if dot {
      var rest := "." + fraction + suffix;
      assert rest[1..] == fraction + suffix;
      LeadingOf(fraction, suffix);
    } else {
      assert "" + suffix == suffix;
    }
  }

  lemma SplitReadsWritten(plus: bool, dot: bool, p: Parts)
    requires AllDigits(p.whole) && AllDigits(p.fraction) && EndsNumber(p.suffix) && (!dot ==> p.fraction == "")
    ensures Split(Written(plus, dot, p)) == p
  {
    var text := Written(plus, dot, p);
    var rest := (if dot then "." + p.fraction else "") + p.suffix;
    var body := p.whole + rest;
    assert text == (if plus then "+" else "") + body;
    assert Unsigned(text) == body;
    LeadingOf(p.whole, rest);
    assert body[..|p.whole|] == p.whole && body[|p.whole|..] == rest;
    TailOf(dot, p.fraction, p.suffix);
  }

  lemma Joined(s: string, n: nat)
    requires n <= |s|
    ensures s == s[..n] + s[n..]
  {
  }

  lemma Regroup(a: string, b: string, c: string)
    ensures a + (b + c) == a + b + c
  {
  }

  lemma TailIsWritten(rest: string)
    ensures var (fraction, suffix) := Tail(rest);
            var dot := rest != "" && rest[0] == '.';
            AllDigits(fraction) && (!dot ==> fraction == "") && rest == (if dot then "." + fraction else "") + suffix
  {
    if rest != "" && rest[0] == '.' {
      var after := rest[1..];
      Joined(rest, 1);
      Joined(after, Leading(after));
      Regroup(".", after[..Leading(after)], after[Leading(after)..]);
      assert rest[..1] == ".";
    } else {
      Regroup("", "", rest);
    }
  }

  lemma SplitIsWritten(text: string)
    ensures var p := Split(text);
            var plus, dot := text != "" && text[0] == '+', HasPoint(text);
            && AllDigits(p.whole) && AllDigits(p.fraction) && (!dot ==> p.fraction == "")
            && text == Written(plus, dot, p)
  {
    var body, p := Unsigned(text), Split(text);
    TailIsWritten(body[Leading(body)..]);
    var sign, ending := (if text != "" && text[0] == '+' then "+" else ""), (if HasPoint(text) then "." + p.fraction else "");
    SignAndBody(text);
    Joined(body, Leading(body));
    Regroup(p.whole, ending, p.suffix);
    Regroup(sign, p.whole + ending, p.suffix);
    Regroup(sign, p.whole, ending);
  }

  lemma SignAndBody(text: string)
    ensures text == (if text != "" && text[0] == '+' then "+" else "") + Unsigned(text)
  {
    if text != "" && text[0] == '+' {
      Joined(text, 1);
      assert text[..1] == "+";
    }
  }

  predicate HasPoint(text: string) {
    var body := Unsigned(text);
    var rest := body[Leading(body)..];
    rest != "" && rest[0] == '.'
  }

  /** Text is read as these parts exactly when it is a way of writing them. */
  lemma ParseExact(text: string, p: Parts)
    ensures Parse(text) == Some(p) <==> exists plus, dot :: WellWritten(dot, p) && text == Written(plus, dot, p)
  {
    if Parse(text) == Some(p) {
      SplitIsWritten(text);
      assert WellWritten(HasPoint(text), p) && text == Written(text != "" && text[0] == '+', HasPoint(text), p);
    }
    if exists plus, dot :: WellWritten(dot, p) && text == Written(plus, dot, p) {
      var plus, dot :| WellWritten(dot, p) && text == Written(plus, dot, p);
      SuffixEndsNumber(p.suffix);
      SplitReadsWritten(plus, dot, p);
    }
  }

  lemma ParsedIsShort(text: string)
    requires Parse(text).Some?
    ensures var p := Parse(text).value;
            AllDigits(p.whole) && AllDigits(p.fraction) && IsSuffix(p.suffix)
            && |p.whole| + |p.fraction| + |p.suffix| <= |text|
  {
    SplitIsWritten(text);
  }

  // ---------- the value ----------

  /** A positive scale as a fraction. */
  function Scale(name: string): (r: (nat, nat))
    requires name in SCALES
    ensures r.0 >= 1 && r.1 >= 1
  {
    if name == "n" then (1, 1_000_000_000)
    else if name == "u" then (1, 1_000_000)
    else if name == "m" then (1, 1000)
    else if name == "k" then (1000, 1)
    else if name == "M" then (1_000_000, 1)
    else if name == "G" then (1_000_000_000, 1)
    else if name == "T" then (1_000_000_000_000, 1)
    else if name == "P" then (1_000_000_000_000_000, 1)
    else if name == "E" then (1_000_000_000_000_000_000, 1)
    else if name == "Ki" then (0x400, 1)
    else if name == "Mi" then (0x10_0000, 1)
    else if name == "Gi" then (0x4000_0000, 1)
    else if name == "Ti" then (0x100_0000_0000, 1)
    else if name == "Pi" then (0x4_0000_0000_0000, 1)
    else if name == "Ei" then (0x1000_0000_0000_0000, 1)
    else (1, 1)
  }

  function PowerOfTen(e: int): (r: (nat, nat))
    ensures r.0 >= 1 && r.1 >= 1
  {
    if e >= 0 then (Pow10(e), 1) else (1, Pow10(-e))
  }

  /** `-(-numerator // denominator)`. */
  function Ceiling(numerator: nat, denominator: nat): int
    requires denominator > 0
  {
    -((0 - numerator) / denominator)
  }

  function Rounded(p: Parts, scale: (nat, nat)): int
    requires AllDigits(p.whole) && AllDigits(p.fraction) && scale.1 >= 1
  {
    Positive(Pow10(|p.fraction|), scale.1);
    Ceiling(Value(p.whole + p.fraction) * scale.0 * 1000, Pow10(|p.fraction|) * scale.1)
  }

  lemma Positive(a: nat, b: nat)
    requires a >= 1 && b >= 1
    ensures a * b >= 1
  {
  }

  /** `normalize_quantity`. */
  function Normalize(text: string): Option<int> {
    if |text| > MAX_TEXT || Parse(text).None? then None
    else
      ParsedIsShort(text);
      var p := Parse(text).value;
      var number := Value(p.whole + p.fraction);
      if p.suffix in SCALES then
        if number * Scale(p.suffix).0 * 1000 <= 0 then None
        else if Rounded(p, Scale(p.suffix)) <= LIMIT then Some(Rounded(p, Scale(p.suffix))) else None
      else
        var e := ExponentOf(p.suffix);
        if !(-INT32 <= e <= INT32 - 1) then None
        else if e < -200 then (if number > 0 then Some(1) else None)
        else if e > 200 then None
        else if number * PowerOfTen(e).0 * 1000 <= 0 then None
        else if Rounded(p, PowerOfTen(e)) <= LIMIT then Some(Rounded(p, PowerOfTen(e))) else None
  }

  /** `quantity` of the acceptance script: the sign of the number is looked at first. */
  function AcceptanceQuantity(text: string): Option<int> {
    if |text| > MAX_TEXT || Parse(text).None? then None
    else
      ParsedIsShort(text);
      var p := Parse(text).value;
      if Value(p.whole + p.fraction) <= 0 then None
      else if p.suffix !in SCALES && !(-INT32 <= ExponentOf(p.suffix) <= INT32 - 1) then None
      else if p.suffix !in SCALES && ExponentOf(p.suffix) < -200 then Some(1)
      else if p.suffix !in SCALES && ExponentOf(p.suffix) > 200 then None
      else
        var scale := if p.suffix in SCALES then Scale(p.suffix) else PowerOfTen(ExponentOf(p.suffix));
        if Rounded(p, scale) > LIMIT then None else Some(Rounded(p, scale))
  }

  lemma PositiveProduct(a: nat, b: nat)
    requires b >= 1
    ensures a * b * 1000 > 0 <==> a > 0
  {
  }

  lemma ScaledAgree(text: string)
    requires |text| <= MAX_TEXT && Parse(text).Some? && Parse(text).value.suffix in SCALES
    ensures Normalize(text) == AcceptanceQuantity(text)
  {
    ParsedIsShort(text);
    var p := Parse(text).value;
    PositiveProduct(Value(p.whole + p.fraction), Scale(p.suffix).0);
  }

  lemma PowersAgree(text: string)
    requires |text| <= MAX_TEXT && Parse(text).Some? && Parse(text).value.suffix !in SCALES
    ensures Normalize(text) == AcceptanceQuantity(text)
  {
    ParsedIsShort(text);
    var p := Parse(text).value;
    PositiveProduct(Value(p.whole + p.fraction), PowerOfTen(ExponentOf(p.suffix)).0);
  }

  /** The two programs agree on every text. */
  lemma BothAgree(text: string)
    ensures Normalize(text) == AcceptanceQuantity(text)
  {
    if |text| <= MAX_TEXT && Parse(text).Some? {
      if Parse(text).value.suffix in SCALES {
        ScaledAgree(text);
      } else {
        PowersAgree(text);
      }
    }
  }

  // ---------- what the answer means ----------

  /** The scale of any suffix, without shortcuts: a positive fraction. */
  function ExactScale(suffix: string): (r: (nat, nat))
    requires IsSuffix(suffix)
    ensures r.0 >= 1 && r.1 >= 1
  {
    if suffix in SCALES then Scale(suffix) else PowerOfTen(ExponentOf(suffix))
  }

  /** The written value as a fraction. */
  function Numerator(p: Parts): nat
    requires AllDigits(p.whole) && AllDigits(p.fraction) && IsSuffix(p.suffix)
  {
    Value(p.whole + p.fraction) * ExactScale(p.suffix).0
  }

  function Denominator(p: Parts): (r: nat)
    requires IsSuffix(p.suffix)
    ensures r >= 1
  {
    Positive(Pow10(|p.fraction|), ExactScale(p.suffix).1);
    Pow10(|p.fraction|) * ExactScale(p.suffix).1
  }

  predicate ExponentFits(suffix: string)
    requires IsSuffix(suffix)
  {
    suffix in SCALES || -INT32 <= ExponentOf(suffix) <= INT32 - 1
  }

  /** The least integer that is at least the fraction. */
  predicate IsCeiling(r: int, numerator: nat, denominator: nat) {
    (r - 1) * denominator < numerator <= r * denominator
  }

  /** `r` is a thousand times the written value, rounded up; the value is positive and in range. */
  ghost predicate Means(p: Parts, r: int)
    requires AllDigits(p.whole) && AllDigits(p.fraction) && IsSuffix(p.suffix)
  {
    && ExponentFits(p.suffix) && Numerator(p) > 0
    && IsCeiling(r, 1000 * Numerator(p), Denominator(p)) && r <= LIMIT
  }

  lemma CeilingExact(r: int, numerator: nat, denominator: nat)
    requires denominator >= 1
    ensures r == Ceiling(numerator, denominator) <==> IsCeiling(r, numerator, denominator)
  {
    var q, m := (0 - numerator) / denominator, (0 - numerator) % denominator;
    assert 0 - numerator == q * denominator + m && 0 <= m < denominator;
    assert IsCeiling(-q, numerator, denominator) by {
      assert (-q) * denominator == -(q * denominator);
      assert (-q - 1) * denominator == -(q * denominator) - denominator;
    }
    if IsCeiling(r, numerator, denominator) {
      OneCeiling(r, -q, numerator, denominator);
    }
  }

  lemma OneCeiling(a: int, b: int, numerator: nat, denominator: nat)
    requires denominator >= 1 && IsCeiling(a, numerator, denominator) && IsCeiling(b, numerator, denominator)
    ensures a == b
  {
    if a < b {
      Monotone(a, b - 1, denominator);
    } else if b < a {
      Monotone(b, a - 1, denominator);
    }
  }

  lemma Monotone(a: int, b: int, d: nat)
    requires a <= b
    ensures a * d <= b * d
  {
  }

  // ---------- the shortcuts ----------

  lemma Scaled(a: nat, b: nat)
    requires b >= 1
    ensures a <= a * b
  {
  }

  /** Far below one thousandth of a unit: the ceiling is one, because so short a number cannot make up for it. */
  lemma TinyRoundsToOne(p: Parts)
    requires AllDigits(p.whole) && AllDigits(p.fraction) && IsExponent(p.suffix) && p.suffix !in SCALES
    requires |p.whole| + |p.fraction| <= MAX_TEXT && ExponentOf(p.suffix) < -200
    requires Value(p.whole + p.fraction) > 0
    ensures IsCeiling(1, 1000 * Numerator(p), Denominator(p)) && Numerator(p) > 0
  {
    var n, e := Value(p.whole + p.fraction), -ExponentOf(p.suffix);
    ShortIsSmall(p.whole + p.fraction, e);
    Scaled(Pow10(e), Pow10(|p.fraction|));
    assert Denominator(p) == Pow10(|p.fraction|) * Pow10(e);
    assert Numerator(p) == n;
    assert 1000 * n <= Denominator(p);
  }

  lemma ShortIsSmall(digits: string, e: nat)
    requires AllDigits(digits) && |digits| <= MAX_TEXT && e > 200
    ensures 1000 * Value(digits) <= Pow10(e)
  {
    ValueBound(digits);
    Thousand();
    Pow10Adds(3, |digits|);
    Pow10Grows(3 + |digits|, e);
  }

  lemma Thousand()
    ensures Pow10(3) == 1000
  {
  }

  /** Far above the range: nothing positive and so short can be within it. */
  lemma HugeIsOutOfRange(p: Parts, r: int)
    requires AllDigits(p.whole) && AllDigits(p.fraction) && IsExponent(p.suffix) && p.suffix !in SCALES
    requires |p.whole| + |p.fraction| <= MAX_TEXT && ExponentOf(p.suffix) > 200
    ensures !(Numerator(p) > 0 && IsCeiling(r, 1000 * Numerator(p), Denominator(p)) && r <= LIMIT)
  {
    var n, e, f := Value(p.whole + p.fraction), ExponentOf(p.suffix), |p.fraction|;
    if Numerator(p) > 0 && r <= LIMIT {
      assert Numerator(p) == n * Pow10(e) && Denominator(p) == Pow10(f);
      LimitBelow();
      HugeAt(n, r, e, f, MAX_TEXT, 22);
    }
  }

  lemma HugeAt(n: nat, r: int, e: nat, f: nat, most: nat, c: nat)
    requires n >= 1 && f <= most && c + most <= e && r <= LIMIT <= Pow10(c)
    ensures 1000 * (n * Pow10(e)) > r * Pow10(f)
  {
    Pow10Grows(f, most);
    Pow10Adds(c, most);
    Pow10Grows(c + most, e);
    TooHuge(n, r, Pow10(e), Pow10(f), Pow10(most), Pow10(c));
  }

  lemma TooHuge(n: nat, r: int, scale: nat, below: nat, bound: nat, limit: nat)
    requires n >= 1 && scale >= 1 && r <= LIMIT <= limit && below <= bound && limit * bound <= scale
    ensures 1000 * (n * scale) > r * below
  {
    Scaled(scale, n);
    Monotone(r, LIMIT, below);
    Monotone(below, bound, LIMIT);
    Monotone(LIMIT, limit, bound);
  }

  lemma LimitBelow()
    ensures LIMIT <= Pow10(22)
  {
    assert Pow10(4) == 10_000;
    Pow10Adds(4, 4);
    Pow10Adds(8, 8);
    Pow10Adds(16, 4);
    Pow10Adds(20, 2);
    assert Pow10(2) == 100;
    assert Pow10(8) == 100_000_000;
    assert Pow10(16) == 10_000_000_000_000_000;
    assert Pow10(20) == 100_000_000_000_000_000_000;
  }

  lemma RoundedExact(p: Parts, r: int)
    requires AllDigits(p.whole) && AllDigits(p.fraction) && IsSuffix(p.suffix)
    ensures r == Rounded(p, ExactScale(p.suffix)) <==> IsCeiling(r, 1000 * Numerator(p), Denominator(p))
  {
    CeilingExact(r, 1000 * Numerator(p), Denominator(p));
  }

  /** Text of at most 128 characters is normalised to `r` exactly when it is written right and `r` is what it means. */
  lemma NormalizeExact(text: string, r: int)
    ensures Normalize(text) == Some(r) <==>
              |text| <= MAX_TEXT && Parse(text).Some? && (ParsedIsShort(text); Means(Parse(text).value, r))
  {
    if |text| <= MAX_TEXT && Parse(text).Some? {
      ParsedIsShort(text);
      var p := Parse(text).value;
      RoundedExact(p, r);
      PositiveProduct(Value(p.whole + p.fraction), ExactScale(p.suffix).0);
      if p.suffix !in SCALES {
        var e := ExponentOf(p.suffix);
        if e < -200 && Value(p.whole + p.fraction) > 0 {
          TinyRoundsToOne(p);
          if IsCeiling(r, 1000 * Numerator(p), Denominator(p)) {
            OneCeiling(r, 1, 1000 * Numerator(p), Denominator(p));
          }
        }
        if e > 200 {
          HugeIsOutOfRange(p, r);
        }
      }
    }
  }

  // ---------- worker settings and the quota ----------

  /** A configured value as it comes out of the file. */
  datatype Setting = Text(text: string) | Number(value: int) | Other

  type Settings = map<string, Setting>

  const RESOURCES: seq<string> := ["cpu", "memory", "scratch"]
  const FIELDS: set<string> := {"cpu", "memory", "scratch", "pool_limit"}
  const MAX_POOL := 0xFFFF_FFFF

  /** The two programs have different default pool sizes. */
  const VALIDATOR_DEFAULTS: Settings :=
    map["cpu" := Text("2"), "memory" := Text("4Gi"), "scratch" := Text("2Gi"), "pool_limit" := Number(16)]
  const ACCEPTANCE_DEFAULTS: Settings :=
    map["cpu" := Text("2"), "memory" := Text("4Gi"), "scratch" := Text("2Gi"), "pool_limit" := Number(2)]

  function QuantityOf(s: Setting): Option<int> {
    match s
    case Text(text) => Normalize(text)
    case _ => None
  }

  function AcceptanceQuantityOf(s: Setting): Option<int> {
    match s
    case Text(text) => AcceptanceQuantity(text)
    case _ => None
  }

  predicate PoolFits(s: Setting) {
    s.Number? && 0 < s.value <= MAX_POOL
  }

  predicate HasFields(settings: Settings) {
    settings.Keys == FIELDS
  }

  /** One resource's setting, by its place in the list. */
  function Resource(settings: Settings, k: nat): Setting
    requires HasFields(settings) && k < 3
  {
    assert RESOURCES[k] in FIELDS;
    settings[RESOURCES[k]]
  }

  predicate WorkerFits(settings: Settings, k: nat, pool: int)
    requires HasFields(settings) && k < 3
  {
    QuantityOf(Resource(settings, k)).Some? && QuantityOf(Resource(settings, k)).value * pool <= LIMIT
  }

  /** Only known fields, quantities that are in range for one worker and for the whole pool, and a positive pool. */
  predicate Acceptable(settings: Settings) {
    && HasFields(settings) && PoolFits(settings["pool_limit"])
    && forall k :: 0 <= k < 3 ==> WorkerFits(settings, k, settings["pool_limit"].value)
  }

  /** Known fields only: the rest come from the defaults. */
  lemma MergedFields(defaults: Settings, supplied: Settings)
    requires HasFields(defaults)
    ensures HasFields(defaults + supplied) <==> supplied.Keys <= FIELDS
  {
    assert (defaults + supplied).Keys == FIELDS + supplied.Keys;
  }

  /** `document_worker_settings`: the loops over the three resources. */
  method DocumentSettings(supplied: Settings) returns (r: Option<Settings>)
    ensures r == if Acceptable(VALIDATOR_DEFAULTS + supplied) then Some(VALIDATOR_DEFAULTS + supplied) else None
  {
    MergedFields(VALIDATOR_DEFAULTS, supplied);
    if !(supplied.Keys <= FIELDS) {
      return None;
    }
    var settings := VALIDATOR_DEFAULTS + supplied;
    for k := 0 to 3
      invariant forall j :: 0 <= j < k ==> QuantityOf(Resource(settings, j)).Some?
    {
      if QuantityOf(Resource(settings, k)).None? {
        assert PoolFits(settings["pool_limit"]) ==> !WorkerFits(settings, k, settings["pool_limit"].value);
        return None;
      }
    }
    var pool := settings["pool_limit"];
    if !PoolFits(pool) {
      return None;
    }
    for k := 0 to 3
      invariant forall j :: 0 <= j < k ==> WorkerFits(settings, j, pool.value)
    {
      if QuantityOf(Resource(settings, k)).value * pool.value > LIMIT {
        assert !WorkerFits(settings, k, pool.value);
        return None;
      }
    }
    r := Some(settings);
  }

  lemma SameQuantity(s: Setting)
    ensures AcceptanceQuantityOf(s) == QuantityOf(s)
  {
    if s.Text? {
      BothAgree(s.text);
    }
  }

  lemma QuantitiesOfAcceptable(settings: Settings)
    ensures Acceptable(settings) ==> forall k :: 0 <= k < 3 ==> QuantityOf(Resource(settings, k)).Some?
  {
    if Acceptable(settings) {
      forall k | 0 <= k < 3 ensures QuantityOf(Resource(settings, k)).Some? {
        assert WorkerFits(settings, k, settings["pool_limit"].value);
      }
    }
  }

  /** The acceptance script's loops over the three resources. */
  method AcceptedQuantities(selected: Settings) returns (ok: bool)
    requires HasFields(selected)
    ensures ok <==> forall k :: 0 <= k < 3 ==> QuantityOf(Resource(selected, k)).Some?
  {
    for k := 0 to 3
      invariant forall j :: 0 <= j < k ==> QuantityOf(Resource(selected, j)).Some?
    {
      SameQuantity(Resource(selected, k));
      if AcceptanceQuantityOf(Resource(selected, k)).None? {
        return false;
      }
    }
    ok := true;
  }

  method AcceptedWorkers(selected: Settings, pool: int) returns (ok: bool)
    requires HasFields(selected) && forall k :: 0 <= k < 3 ==> QuantityOf(Resource(selected, k)).Some?
    ensures ok <==> forall k :: 0 <= k < 3 ==> WorkerFits(selected, k, pool)
  {
    for k := 0 to 3
      invariant forall j :: 0 <= j < k ==> WorkerFits(selected, j, pool)
    {
      SameQuantity(Resource(selected, k));
      if AcceptanceQuantityOf(Resource(selected, k)).value * pool > LIMIT {
        assert !WorkerFits(selected, k, pool);
        return false;
      }
    }
    ok := true;
  }

  /** `worker_settings`: the acceptance script accepts the same settings, over its own defaults. */
  method AcceptanceSettings(overrides: Settings) returns (r: Option<Settings>)
    ensures r == if Acceptable(ACCEPTANCE_DEFAULTS + overrides) then Some(ACCEPTANCE_DEFAULTS + overrides) else None
  {
    MergedFields(ACCEPTANCE_DEFAULTS, overrides);
    if overrides.Keys - FIELDS != {} {
      return None;
    }
    var selected := ACCEPTANCE_DEFAULTS + overrides;
    var ok := AcceptedQuantities(selected);
    QuantitiesOfAcceptable(selected);
    if !ok || !PoolFits(selected["pool_limit"]) {
      return None;
    }
    ok := AcceptedWorkers(selected, selected["pool_limit"].value);
    r := if ok then Some(selected) else None;
  }

  // ---------- the quota ----------

  type Hard = map<string, Setting>

  const QUOTA_KEYS: set<string> := {
    "pods", "requests.cpu", "limits.cpu", "requests.memory", "limits.memory",
    "requests.ephemeral-storage", "limits.ephemeral-storage"
  }

  function BoundKey(k: nat, limits: bool): (key: string)
    requires k < 3
    ensures key in QUOTA_KEYS
  {
    if k == 0 then (if limits then "limits.cpu" else "requests.cpu")
    else if k == 1 then (if limits then "limits.memory" else "requests.memory")
    else (if limits then "limits.ephemeral-storage" else "requests.ephemeral-storage")
  }

  function Bound(hard: Hard, k: nat, limits: bool): Option<int>
    requires hard.Keys == QUOTA_KEYS && k < 3
  {
    QuantityOf(hard[BoundKey(k, limits)])
  }

  function Each(settings: Settings, k: nat): int
    requires Acceptable(settings) && k < 3
  {
    assert WorkerFits(settings, k, settings["pool_limit"].value);
    QuantityOf(Resource(settings, k)).value
  }

  /** The quota check of both programs. */
  predicate QuotaMatches(settings: Settings, hard: Hard)
    requires Acceptable(settings)
  {
    && hard.Keys == QUOTA_KEYS
    && QuantityOf(hard["pods"]) == Some(settings["pool_limit"].value * 1000)
    && forall k, limits :: 0 <= k < 3 ==>
         Bound(hard, k, limits) == Some(Each(settings, k) * settings["pool_limit"].value)
  }

  /** So many workers, each asking for what is configured, stay within the quota. */
  predicate Admitted(settings: Settings, hard: Hard, workers: nat)
    requires Acceptable(settings) && QuotaMatches(settings, hard)
  {
    && workers * 1000 <= QuantityOf(hard["pods"]).value
    && forall k, limits :: 0 <= k < 3 ==> workers * Each(settings, k) <= Bound(hard, k, limits).value
  }

  lemma QuantitiesArePositive(s: Setting)
    requires QuantityOf(s).Some?
    ensures 1 <= QuantityOf(s).value <= LIMIT
  {
    var text, r := s.text, QuantityOf(s).value;
    NormalizeExact(text, r);
    ParsedIsShort(text);
    var p := Parse(text).value;
    if r <= 0 {
      Monotone(r, 0, Denominator(p));
    }
  }

  lemma FitsExactly(workers: nat, pool: nat, each: int)
    requires each >= 1
    ensures workers * each <= each * pool <==> workers <= pool
  {
    if workers <= pool {
      Monotone(workers, pool, each);
    } else {
      Monotone(pool + 1, workers, each);
    }
  }

  /** A checked quota admits exactly the configured number of workers, and its bounds are representable. */
  lemma QuotaHoldsThePool(settings: Settings, hard: Hard, workers: nat)
    requires Acceptable(settings) && QuotaMatches(settings, hard)
    ensures Admitted(settings, hard, workers) <==> workers <= settings["pool_limit"].value
    ensures forall k, limits :: 0 <= k < 3 ==> Bound(hard, k, limits).value <= LIMIT
  {
    var pool := settings["pool_limit"].value;
    forall k: nat, limits | k < 3
      ensures Bound(hard, k, limits).Some? && Bound(hard, k, limits).value <= LIMIT
      ensures workers * Each(settings, k) <= Bound(hard, k, limits).value <==> workers <= pool
    {
      assert WorkerFits(settings, k, pool);
      QuantitiesArePositive(Resource(settings, k));
      FitsExactly(workers, pool, Each(settings, k));
    }
  }
}
