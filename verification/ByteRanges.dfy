/** Single byte ranges of a download, against the ranges of section 14.1.2 of RFC 9110. */
module ByteRanges {
  import opened Machine
  import opened Text

  datatype ByteRange = Full | Partial(start: nat, end: nat) | Unsatisfiable

  // --- the parser ------------------------------------------------------------

  ghost predicate AllDigits(s: string) {
    forall i :: 0 <= i < |s| ==> IsDigit(s[i])
  }

  function WithoutPlus(s: string): string {
    if StartsWith(s, "+") then s[1..] else s
  }

  // `parse::<u64>`: digits after an optional plus sign, if the number fits.
  function ParseU64(s: string): (r: Option<nat>)
    ensures r.Some? ==> r.value <= U64_MAX
  {
    var digits := WithoutPlus(s);
    if digits == "" || exists i :: 0 <= i < |digits| && !IsDigit(digits[i]) then None
    else if Denotes(digits) > U64_MAX then None
    else Some(Denotes(digits))
  }

  function SaturatingSub(a: nat, b: nat): nat {
    if a < b then 0 else a - b
  }

  // A partial answer lies within the object.
  predicate Inside(r: ByteRange, size: nat) {
    r.Partial? ==> r.start <= r.end < size
  }

  function ParseSuffix(last: string, size: nat): (r: ByteRange)
    ensures Inside(r, size)
  {
    match ParseU64(last)
    case None => Full
    case Some(n) =>
      if n == 0 || size == 0 then Unsatisfiable else Partial(SaturatingSub(size, n), size - 1)
  }

  function ParsePositions(first: string, last: string, size: nat): (r: ByteRange)
    ensures Inside(r, size)
  {
    match ParseU64(first)
    case None => Full
    case Some(start) =>
      var end := if last == "" then None else ParseU64(last);
      if last != "" && (end.None? || end.value < start) then Full
      else if start >= size then Unsatisfiable
      else Partial(start, if end.None? then size - 1 else Min(end.value, size - 1))
  }

  function ParseSpec(spec: string, size: nat): (r: ByteRange)
    ensures Inside(r, size)
  {
    match SplitOnce(spec, '-')
    case None => Full
    case Some((a, b)) =>
      var (first, last) := (Trim(a), Trim(b));
      if first == "" then ParseSuffix(last, size) else ParsePositions(first, last, size)
  }

  const UNIT := "bytes="

  function ParseRange(header: string, size: nat): (r: ByteRange)
    ensures Inside(r, size)
  {
    match StripPrefix(Trim(header), UNIT)
    case None => Full
    case Some(spec) => if ',' in spec then Full else ParseSpec(Trim(spec), size)
  }

  // --- ranges as the RFC has them --------------------------------------------

  datatype Spec = FromTo(first: nat, last: nat) | From(first: nat) | Suffix(length: nat)

  function Print(spec: Spec): string {
    "bytes=" +
    match spec
    case FromTo(first, last) => Decimal(first) + "-" + Decimal(last)
    case From(first) => Decimal(first) + "-"
    case Suffix(length) => "-" + Decimal(length)
  }

  // Does the range select position `k` of an object of this size?
  predicate Selects(spec: Spec, size: nat, k: nat) {
    k < size &&
    match spec
    case FromTo(first, last) => first <= k <= last
    case From(first) => first <= k
    case Suffix(length) => size <= k + length
  }

  // A range that names its end before its start is invalid, and is to be ignored.
  predicate Valid(spec: Spec) {
    spec.FromTo? ==> spec.first <= spec.last
  }

  predicate FitsU64(spec: Spec) {
    match spec
    case FromTo(first, last) => first < 0x1_0000_0000_0000_0000 && last < 0x1_0000_0000_0000_0000
    case From(first) => first < 0x1_0000_0000_0000_0000
    case Suffix(length) => length < 0x1_0000_0000_0000_0000
  }

  // `r` is exactly what `spec` selects.
  ghost predicate Answers(r: ByteRange, spec: Spec, size: nat) {
    match r
    case Full => false
    case Partial(start, end) =>
      start <= end < size && forall k: nat :: Selects(spec, size, k) <==> start <= k <= end
    case Unsatisfiable => forall k: nat :: !Selects(spec, size, k)
  }

  lemma ParseDecimal(n: nat)
    ensures ParseU64(Decimal(n)) == if n <= U64_MAX then Some(n) else None
  {
    DecimalDenotes(n);
    hide Decimal, Denotes;
    assert !StartsWith(Decimal(n), "+");
  }

  lemma TightEnds(s: string)
    requires s != "" && !IsSpace(s[0]) && !IsSpace(s[|s| - 1])
    ensures Trim(s) == s
  {
    TrimTight(s);
  }

  // The parser on a tight header, its parts still untrimmed.
  lemma ParseParts(spec: string, a: string, b: string, size: nat)
    requires spec != "" && !IsSpace(spec[|spec| - 1]) && ',' !in spec
    requires Trim(spec) == a + ['-'] + b && '-' !in a
    ensures ParseRange(UNIT + spec, size)
            == if Trim(a) == "" then ParseSuffix(Trim(b), size) else ParsePositions(Trim(a), Trim(b), size)
  {
    var header := UNIT + spec;
    UnitIsTight(spec);
    hide Trim, SplitOnce, ParseSuffix, ParsePositions, StripPrefix;
    TightEnds(header);
    StripsPrefix(UNIT, spec);
    SplitOnceJoined(a, '-', b);
  }

  lemma UnitIsTight(spec: string)
    requires spec != "" && !IsSpace(spec[|spec| - 1])
    ensures var header := UNIT + spec; header != "" && !IsSpace(header[0]) && !IsSpace(header[|header| - 1])
  {
    assert (UNIT + spec)[0] == 'b';
  }

  // On an untouched `bytes=<a>-<b>`.
  lemma ParsePrinted(a: string, b: string, size: nat)
    requires AllDigits(a) && AllDigits(b)
    ensures ParseRange(UNIT + (a + "-" + b), size)
            == if a == "" then ParseSuffix(b, size) else ParsePositions(a, b, size)
  {
    hide Trim, ParseRange, ParseSuffix, ParsePositions;
    var spec := a + ['-'] + b;
    assert a + "-" + b == spec;
    TightEnds(spec);
    DigitsTrim(a);
    DigitsTrim(b);
    ParseParts(spec, a, b, size);
  }

  lemma DigitsTrim(s: string)
    requires AllDigits(s)
    ensures Trim(s) == s
  {
    TrimTight(s);
  }

  lemma ParsePrint(spec: Spec, size: nat)
    ensures ParseRange(Print(spec), size) == match spec
      case FromTo(first, last) => ParsePositions(Decimal(first), Decimal(last), size)
      case From(first) => ParsePositions(Decimal(first), "", size)
      case Suffix(length) => ParseSuffix(Decimal(length), size)
  {
    hide Decimal, ParseRange, ParsePositions, ParseSuffix;
    match spec
    case FromTo(first, last) =>
      ParsePrinted(Decimal(first), Decimal(last), size);
    case From(first) =>
      ParsePrinted(Decimal(first), "", size);
      assert Decimal(first) + "-" + "" == Decimal(first) + "-";
    case Suffix(length) =>
      ParsePrinted("", Decimal(length), size);
      assert "" + "-" + Decimal(length) == "-" + Decimal(length);
  }

  /** A range header is answered with exactly the selected positions when it is valid and its
    * numbers are 64-bit, and is otherwise ignored.
    */
  lemma AnsweredOrIgnored(spec: Spec, size: nat)
    requires size <= U64_MAX
    ensures Valid(spec) && FitsU64(spec) ==> Answers(ParseRange(Print(spec), size), spec, size)
    ensures !(Valid(spec) && FitsU64(spec)) ==> ParseRange(Print(spec), size) == Full
  {
    hide Decimal, ParseRange, ParseU64;
    ParsePrint(spec, size);
    match spec
    case FromTo(first, last) =>
      ParseDecimal(first);
      ParseDecimal(last);
      assert Selects(spec, size, first) <==> first < size && first <= last;
    case From(first) =>
      ParseDecimal(first);
      assert Selects(spec, size, first) <==> first < size;
    case Suffix(length) =>
      ParseDecimal(length);
  }

  // --- every header ----------------------------------------------------------

  // White space before the unit, around the two parts, and at the end.
  datatype Margins = Margins(front: string, first: string, dash: string, last: string, end: string)

  predicate Blank(m: Margins) {
    Spaces(m.front) && Spaces(m.first) && Spaces(m.dash) && Spaces(m.last) && Spaces(m.end)
  }

  function Spelled(m: Margins, a: string, b: string): string {
    m.front + "bytes=" + (m.first + a + m.dash) + ['-'] + (m.last + b + m.end)
  }

  ghost predicate Spells(header: string, a: string, b: string) {
    exists m: Margins :: Blank(m) && header == Spelled(m, a, b)
  }

  // Digits after an optional plus sign.
  ghost predicate Numeral(s: string, n: nat) {
    WithoutPlus(s) != "" && AllDigits(WithoutPlus(s)) && Denotes(WithoutPlus(s)) == n
  }

  // The header spells the range: leading zeros, plus signs and white space around the parts are
  // all the freedom there is.
  ghost predicate Reads(header: string, spec: Spec) {
    match spec
    case FromTo(first, last) => exists a, b :: Spells(header, a, b) && Numeral(a, first) && Numeral(b, last)
    case From(first) => exists a :: Spells(header, a, "") && Numeral(a, first)
    case Suffix(length) => exists b :: Spells(header, "", b) && Numeral(b, length)
  }

  lemma ParseU64Iff(s: string, n: nat)
    ensures ParseU64(s) == Some(n) <==> Numeral(s, n) && n <= U64_MAX
  {
    hide Denotes, WithoutPlus;
  }

  // Neither white space, comma nor dash.
  predicate PlainPart(s: string) {
    Tight(s) && '-' !in s && ',' !in s
  }

  lemma NumeralIsPlain(s: string, n: nat)
    requires Numeral(s, n)
    ensures s != "" && PlainPart(s)
  {
    hide Denotes;
    var d := WithoutPlus(s);
    assert s == d || s == "+" + d by { if StartsWith(s, "+") { assert s == s[..1] + s[1..]; } }
    assert s[|s| - 1] == d[|d| - 1];
  }

  function ParseBoth(a: string, b: string, size: nat): ByteRange {
    if a == "" then ParseSuffix(b, size) else ParsePositions(a, b, size)
  }

  lemma ParseSpecOf(v: string, a: string, v': string, x: string, b: string, x': string, size: nat)
    requires Spaces(v) && Spaces(v') && Spaces(x) && Spaces(x') && PlainPart(a) && PlainPart(b)
    ensures ParseSpec((v + a + v') + ['-'] + (x + b + x'), size) == ParseBoth(a, b, size)
  {
    hide Trim, SplitOnce, ParseSuffix, ParsePositions, Tight;
    assert '-' !in v + a + v';
    SplitOnceJoined(v + a + v', '-', x + b + x');
    TrimOf(v, a, v');
    TrimOf(x, b, x');
  }

  // What trimming leaves of the whole and of the part after the unit still has the two parts.
  lemma SpelledParses(m: Margins, a: string, b: string, size: nat)
    requires Blank(m) && PlainPart(a) && PlainPart(b)
    ensures ParseRange(Spelled(m, a, b), size) == ParseBoth(a, b, size)
  {
    // White space next to an empty part goes with that of the margin.
    hide Trim, ParseSpec, ParseRange;
    var dash := if a == "" then "" else m.dash;
    var last := if b == "" then "" else m.last;
    var core := (a + dash) + ['-'] + (last + b);
    var lead := if a == "" then m.first + m.dash else m.first;
    var tail := if b == "" then m.last + m.end else m.end;
    SpacesJoined(m.first, m.dash);
    SpacesJoined(m.last, m.end);
    hide Tight, Spelled, Spaces;
    CoreIsTight(a, dash, last, b);
    SpelledAs(m, a, b, lead, core, tail);
    var spec := lead + core;
    UnitCoreIsTight(lead, core);
    EmptySpaces();
    NoComma(lead, a, dash, last, b);
    HeaderParses(m.front, spec, tail, size);
    CoreParses(lead, a, dash, last, b, size);
  }

  lemma CoreParses(lead: string, a: string, dash: string, last: string, b: string, size: nat)
    requires Spaces(lead) && Spaces(dash) && Spaces(last) && PlainPart(a) && PlainPart(b)
    requires Tight((a + dash) + ['-'] + (last + b))
    ensures ParseSpec(Trim(lead + ((a + dash) + ['-'] + (last + b))), size) == ParseBoth(a, b, size)
  {
    var core := (a + dash) + ['-'] + (last + b);
    EmptySpaces();
    hide Trim, ParseSpec, Tight, Spaces;
    TrimOf(lead, core, "");
    assert lead + core + "" == lead + core;
    assert "" + a + dash == a + dash && last + b + "" == last + b;
    ParseSpecOf("", a, dash, last, b, "", size);
  }

  lemma HeaderParses(front: string, spec: string, tail: string, size: nat)
    requires Spaces(front) && Spaces(tail) && Tight(UNIT + spec) && ',' !in spec
    ensures ParseRange(front + (UNIT + spec) + tail, size) == ParseSpec(Trim(spec), size)
  {
    hide Trim, ParseSpec, Tight, Spaces, StripPrefix;
    TrimOf(front, UNIT + spec, tail);
    StripsPrefix(UNIT, spec);
  }

  lemma EmptySpaces()
    ensures Spaces("")
  {
  }

  lemma UnitCoreIsTight(lead: string, core: string)
    requires core != "" && Tight(core)
    ensures Tight(UNIT + (lead + core))
  {
    var s := UNIT + (lead + core);
    assert s[0] == 'b' && s[|s| - 1] == core[|core| - 1];
  }

  lemma CoreIsTight(a: string, dash: string, last: string, b: string)
    requires Tight(a) && Tight(b) && (a == "" ==> dash == "") && (b == "" ==> last == "")
    ensures var core := (a + dash) + ['-'] + (last + b); core != "" && Tight(core)
  {
    var core := (a + dash) + ['-'] + (last + b);
    assert core[0] == if a == "" then '-' else a[0];
    assert core[|core| - 1] == if b == "" then '-' else b[|b| - 1];
  }

  lemma SpelledAs(m: Margins, a: string, b: string, lead: string, core: string, tail: string)
    requires lead == if a == "" then m.first + m.dash else m.first
    requires tail == if b == "" then m.last + m.end else m.end
    requires core == (a + (if a == "" then "" else m.dash)) + ['-'] + ((if b == "" then "" else m.last) + b)
    ensures Spelled(m, a, b) == m.front + (UNIT + (lead + core)) + tail
  {
    var left := m.first + a + m.dash;
    var right := m.last + b + m.end;
    assert left == lead + (a + (if a == "" then "" else m.dash));
    assert right == ((if b == "" then "" else m.last) + b) + tail;
    assert lead + core + tail == left + ['-'] + right;
    Regroup(m.front, UNIT, lead + core, tail, left, ['-'], right);
  }

  lemma Regroup(a: string, b: string, c: string, d: string, x: string, y: string, z: string)
    requires c + d == x + y + z
    ensures a + (b + c) + d == a + b + x + y + z
  {
    assert a + (b + c) + d == (a + b) + (c + d);
    assert (a + b) + (x + y + z) == a + b + x + y + z;
  }

  lemma NoComma(lead: string, a: string, dash: string, last: string, b: string)
    requires Spaces(lead) && Spaces(dash) && Spaces(last) && ',' !in a && ',' !in b
    ensures ',' !in lead + ((a + dash) + ['-'] + (last + b))
  {
  }

  // A header that is answered spells two parts, and is answered as they say.
  lemma AnsweredSpells(header: string, size: nat) returns (a: string, b: string)
    requires ParseRange(header, size) != Full
    ensures Spells(header, a, b) && ParseRange(header, size) == ParseBoth(a, b, size)
  {
    hide Trim, SplitOnce, ParseSuffix, ParsePositions, Tight;
    var w, w' := TrimParts(header);
    var h := Trim(header);
    var spec := h[|UNIT|..];
    assert h == UNIT + spec;
    var u, u' := TrimParts(spec);
    var (p, q) := SplitOnce(Trim(spec), '-').value;
    var v, v' := TrimParts(p);
    var x, x' := TrimParts(q);
    a, b := Trim(p), Trim(q);
    var m := Margins(w, u + v, v', x, x' + u' + w');
    RespelledAs(header, w, h, w', spec, u, Trim(spec), u', p, q, m, v, a, b, x');
  }

  lemma RespelledAs(header: string, w: string, h: string, w': string, spec: string, u: string, t: string, u': string,
                    p: string, q: string, m: Margins, v: string, a: string, b: string, x': string)
    requires header == w + h + w' && h == UNIT + spec && spec == u + t + u' && t == p + ['-'] + q
    requires p == v + a + m.dash && q == m.last + b + x'
    requires m.front == w && m.first == u + v && m.end == x' + u' + w'
    ensures header == Spelled(m, a, b)
  {
    assert spec == (u + p) + ['-'] + (q + u');
    assert u + p == m.first + a + m.dash;
    assert q + u' + w' == m.last + b + m.end;
    assert header == w + UNIT + (spec + w');
    assert spec + w' == (u + p) + ['-'] + (q + u' + w');
  }

  lemma BothAnswer(a: string, b: string, spec: Spec, size: nat)
    requires size <= U64_MAX && Valid(spec) && FitsU64(spec)
    requires match spec
      case FromTo(first, last) => Numeral(a, first) && Numeral(b, last)
      case From(first) => Numeral(a, first) && b == ""
      case Suffix(length) => a == "" && Numeral(b, length)
    ensures Answers(ParseBoth(a, b, size), spec, size)
  {
    hide ParseU64, Numeral, WithoutPlus;
    match spec
    case FromTo(first, last) =>
      NumeralIsPlain(a, first);
      NumeralIsPlain(b, last);
      ParseU64Iff(a, first);
      ParseU64Iff(b, last);
      assert Selects(spec, size, first) <==> first < size && first <= last;
    case From(first) =>
      NumeralIsPlain(a, first);
      ParseU64Iff(a, first);
      assert Selects(spec, size, first) <==> first < size;
    case Suffix(length) =>
      ParseU64Iff(b, length);
  }

  lemma ReadIsAnswered(header: string, spec: Spec, size: nat)
    requires size <= U64_MAX && Reads(header, spec) && Valid(spec) && FitsU64(spec)
    ensures Answers(ParseRange(header, size), spec, size)
  {
    var a, b := "", "";
    match spec {
      case FromTo(first, last) =>
        a, b :| Spells(header, a, b) && Numeral(a, first) && Numeral(b, last);
        NumeralIsPlain(a, first);
        NumeralIsPlain(b, last);
      case From(first) =>
        a :| Spells(header, a, "") && Numeral(a, first);
        NumeralIsPlain(a, first);
      case Suffix(length) =>
        b :| Spells(header, "", b) && Numeral(b, length);
        NumeralIsPlain(b, length);
    }
    var m: Margins :| Blank(m) && header == Spelled(m, a, b);
    hide Spelled, ParseRange, Answers, ParseBoth, Numeral, Blank, PlainPart;
    assert PlainPart("") by { EmptyIsPlain(); }
    SpelledParses(m, a, b, size);
    BothAnswer(a, b, spec, size);
  }

  lemma EmptyIsPlain()
    ensures PlainPart("")
  {
  }

  lemma AnsweredBoth(a: string, b: string, size: nat) returns (spec: Spec)
    requires ParseBoth(a, b, size) != Full
    ensures Valid(spec) && FitsU64(spec)
    ensures match spec
      case FromTo(first, last) => Numeral(a, first) && Numeral(b, last)
      case From(first) => Numeral(a, first) && b == ""
      case Suffix(length) => a == "" && Numeral(b, length)
  {
    hide ParseU64, Numeral;
    if a == "" {
      var n := ParseU64(b).value;
      ParseU64Iff(b, n);
      spec := Suffix(n);
    } else {
      var first := ParseU64(a).value;
      ParseU64Iff(a, first);
      if b == "" {
        spec := From(first);
      } else {
        var last := ParseU64(b).value;
        ParseU64Iff(b, last);
        spec := FromTo(first, last);
      }
    }
  }

  lemma AnsweredReads(header: string, size: nat) returns (spec: Spec)
    requires ParseRange(header, size) != Full
    ensures Reads(header, spec) && Valid(spec) && FitsU64(spec)
  {
    hide ParseRange, ParseBoth, Spells, Numeral, Valid, FitsU64;
    var a, b := AnsweredSpells(header, size);
    spec := AnsweredBoth(a, b, size);
  }

  /** For every header whatever: it is answered with exactly the positions that the range it spells
    * selects if it spells a valid 64-bit one, and it is ignored if it does not.
    */
  lemma {:induction false} AnsweredExactly(header: string, size: nat)
    requires size <= U64_MAX
    ensures forall spec: Spec | Reads(header, spec) && Valid(spec) && FitsU64(spec) ::
              Answers(ParseRange(header, size), spec, size)
    ensures ParseRange(header, size) == Full
            <==> !exists spec: Spec :: Reads(header, spec) && Valid(spec) && FitsU64(spec)
  {
    hide ParseRange, Reads, Valid, FitsU64;
    forall spec: Spec | Reads(header, spec) && Valid(spec) && FitsU64(spec)
      ensures Answers(ParseRange(header, size), spec, size)
    {
      ReadIsAnswered(header, spec, size);
    }
    if ParseRange(header, size) != Full {
      var spec := AnsweredReads(header, size);
    }
  }

  function Plus(digits: string): string {
    if digits == "" then "" else "+" + digits
  }

  /** What the RFC has no form for, and the parser takes: plus signs before the numbers and white
    * space around them change nothing.
    */
  lemma {:induction false} LenientFormsAreTaken(m: Margins, a: string, b: string, size: nat)
    requires Blank(m) && AllDigits(a) && AllDigits(b)
    ensures ParseRange(Spelled(m, Plus(a), Plus(b)), size) == ParseRange(UNIT + (a + "-" + b), size)
  {
    DigitsArePlain(a);
    DigitsArePlain(b);
    PlusBoth(a, b, size);
    hide Spelled, ParseRange, Blank, PlainPart, ParseSuffix, ParsePositions, Plus;
    SpelledParses(m, Plus(a), Plus(b), size);
    ParsePrinted(a, b, size);
  }

  lemma PlusBoth(a: string, b: string, size: nat)
    requires AllDigits(a) && AllDigits(b)
    ensures ParseBoth(Plus(a), Plus(b), size) == ParseBoth(a, b, size)
  {
    hide ParseU64;
    if a != "" { PlusParses(a); }
    if b != "" { PlusParses(b); }
  }

  lemma DigitsArePlain(s: string)
    requires AllDigits(s)
    ensures PlainPart(Plus(s))
  {
    if s != "" {
      var plus := Plus(s);
      assert plus[0] == '+' && plus[|plus| - 1] == s[|s| - 1];
    }
  }

  lemma PlusParses(digits: string)
    requires AllDigits(digits) && digits != ""
    ensures ParseU64("+" + digits) == ParseU64(digits)
  {
    hide Denotes;
    assert ("+" + digits)[..1] == "+" && ("+" + digits)[1..] == digits;
    assert digits[..1][0] == digits[0];
  }

  // --- the download ----------------------------------------------------------

  type Content<T> = s: seq<T> | |s| <= U64_MAX

  datatype Reply<T> =
    | Ok(body: seq<T>, contentLength: nat)
    | PartialContent(body: seq<T>, contentLength: nat, contentRange: string)
    | RangeNotSatisfiable(contentRange: string)

  // 64-bit arithmetic.
  function Wrapped(n: int): (r: nat)
    ensures r <= U64_MAX && (0 <= n <= U64_MAX ==> r == n)
  {
    n % (U64_MAX + 1)
  }

  // `open_range`: at most `len` elements from `start` on.
  function OpenRange<T>(content: seq<T>, start: nat, len: nat): seq<T> {
    if start >= |content| then [] else content[start..Min(start + len, |content|)]
  }

  function ContentRange(start: nat, end: nat, size: nat): string {
    "bytes " + Decimal(start) + "-" + Decimal(end) + "/" + Decimal(size)
  }

  function UnsatisfiedRange(size: nat): string {
    "bytes */" + Decimal(size)
  }

  function Download<T>(content: Content<T>, range: Option<string>): Reply<T> {
    var size := |content|;
    match (if range.Some? then ParseRange(range.value, size) else Full)
    case Full => Ok(OpenRange(content, 0, size), size)
    case Partial(start, end) =>
      var len := Wrapped(Wrapped(end - start) + 1);
      PartialContent(OpenRange(content, start, len), len,
                     ContentRange(start, Wrapped(Wrapped(start + len) - 1), size))
    case Unsatisfiable => RangeNotSatisfiable(UnsatisfiedRange(size))
  }

  lemma PartialReply<T>(content: Content<T>, range: string, start: nat, end: nat)
    requires ParseRange(range, |content|) == Partial(start, end)
    ensures start <= end < |content|
    ensures Download(content, Some(range))
            == PartialContent(content[start..end + 1], end - start + 1, ContentRange(start, end, |content|))
  {
    hide ContentRange, UnsatisfiedRange, ParseRange, Wrapped, OpenRange;
    NothingWraps(start, end, |content|);
    OpenRangeIs(content, start, end);
  }

  lemma NothingWraps(start: nat, end: nat, size: nat)
    requires start <= end < size <= U64_MAX
    ensures Wrapped(Wrapped(end - start) + 1) == end - start + 1
    ensures Wrapped(Wrapped(start + (end - start + 1)) - 1) == end
  {
    hide Wrapped;
  }

  lemma OpenRangeIs<T>(content: seq<T>, start: nat, end: nat)
    requires start <= end < |content|
    ensures OpenRange(content, start, end - start + 1) == content[start..end + 1]
  {
  }

  // The text announces these positions of an object of this size.
  predicate Announces(text: string, start: nat, end: nat, size: nat) {
    text == "bytes " + Decimal(start) + "-" + Decimal(end) + "/" + Decimal(size)
  }

  lemma AnnouncesRange(start: nat, end: nat, size: nat)
    ensures Announces(ContentRange(start, end, size), start, end, size)
    ensures UnsatisfiedRange(size) == "bytes */" + Decimal(size)
  {
    hide Decimal;
  }

  /** For every header the announced length and range are those of the body that is sent, and the
    * 64-bit arithmetic that announces them does not wrap.
    */
  lemma DownloadIsConsistent<T>(content: Content<T>, range: Option<string>)
    ensures match Download(content, range)
      case Ok(body, len) => body == content && len == |content|
      case RangeNotSatisfiable(text) => text == "bytes */" + Decimal(|content|)
      case PartialContent(body, len, text) =>
        exists start: nat, end: nat :: start <= end < |content|
          && body == content[start..end + 1] && len == |body|
          && Announces(text, start, end, |content|)
  {
    hide ContentRange, UnsatisfiedRange, ParseRange, Wrapped, Announces, Decimal;
    AnnouncesRange(0, 0, |content|);
    if range.Some? && ParseRange(range.value, |content|).Partial? {
      var Partial(start, end) := ParseRange(range.value, |content|);
      PartialReply(content, range.value, start, end);
      AnnouncesRange(start, end, |content|);
      hide Download;
    }
  }

  /** A valid range is answered with just the selected elements, in order. */
  lemma DownloadSelects<T>(content: Content<T>, spec: Spec)
    requires Valid(spec) && FitsU64(spec)
    ensures match Download(content, Some(Print(spec)))
      case Ok(_, _) => false
      case RangeNotSatisfiable(_) => Answers(Unsatisfiable, spec, |content|)
      case PartialContent(body, _, _) =>
        exists start: nat, end: nat ::
          Answers(Partial(start, end), spec, |content|) && body == content[start..end + 1]
  {
    hide ParseRange, Selects, Print, Wrapped, ContentRange, UnsatisfiedRange;
    AnsweredOrIgnored(spec, |content|);
    if ParseRange(Print(spec), |content|).Partial? {
      var Partial(start, end) := ParseRange(Print(spec), |content|);
      PartialReply(content, Print(spec), start, end);
    }
  }

  // --- in pieces -------------------------------------------------------------

  // Cut points from `from` to the end of the object, each piece non-empty.
  ghost predicate Tiles(cuts: seq<nat>, from: nat, size: nat) {
    if cuts == [] then from == size else from < cuts[0] <= size && Tiles(cuts[1..], cuts[0], size)
  }

  // The bodies of the requests for the pieces, one after the other.
  function Pieces<T>(content: Content<T>, cuts: seq<nat>, from: nat): seq<T>
    decreases |cuts|
  {
    if cuts == [] then [] else
    (match Download(content, Some(Print(FromTo(from, if cuts[0] == 0 then 0 else cuts[0] - 1))))
     case PartialContent(body, _, _) => body
     case _ => [])
    + Pieces(content, cuts[1..], cuts[0])
  }

  lemma PieceAnswer(spec: Spec, size: nat, r: ByteRange)
    requires spec.FromTo? && spec.first <= spec.last < size && Answers(r, spec, size)
    ensures r == Partial(spec.first, spec.last)
  {
    assert Selects(spec, size, spec.first);
    if r.Partial? {
      SelectedBounds(spec, size, r.start, r.end, spec.first, spec.last);
    }
  }

  lemma PieceIs<T>(content: Content<T>, spec: Spec)
    requires spec.FromTo? && spec.first <= spec.last < |content|
    ensures var r := Download(content, Some(Print(spec)));
            r.PartialContent? && r.body == content[spec.first..spec.last + 1]
  {
    hide Download, Print, Selects, Answers, ParseRange, Wrapped, ContentRange, UnsatisfiedRange;
    AnsweredOrIgnored(spec, |content|);
    PieceAnswer(spec, |content|, ParseRange(Print(spec), |content|));
    PartialReply(content, Print(spec), spec.first, spec.last);
  }

  // The first and the last selected position are the bounds.
  lemma SelectedBounds(spec: Spec, size: nat, start: nat, end: nat, low: nat, high: nat)
    requires Answers(Partial(start, end), spec, size)
    requires low <= high && forall k: nat :: Selects(spec, size, k) <==> low <= k <= high
    ensures start == low && end == high
  {
    assert Selects(spec, size, low) && Selects(spec, size, high);
    assert Selects(spec, size, start) && Selects(spec, size, end);
    hide Selects;
  }

  /** Fetched in pieces that tile it, an object is reassembled exactly. */
  lemma {:induction false} PiecesReassemble<T>(content: Content<T>, cuts: seq<nat>, from: nat)
    requires from <= |content| && Tiles(cuts, from, |content|)
    ensures Pieces(content, cuts, from) == content[from..]
    decreases |cuts|
  {
    hide Download, Print;
    if cuts != [] {
      PieceIs(content, FromTo(from, cuts[0] - 1));
      PiecesReassemble(content, cuts[1..], cuts[0]);
      assert content[from..] == content[from..cuts[0]] + content[cuts[0]..];
    }
  }

  /** An interrupted download resumes where it stopped. */
  lemma ResumeCompletes<T>(content: Content<T>, received: nat)
    requires received < |content|
    ensures var r := Download(content, Some(Print(From(received))));
            r.PartialContent? && content[..received] + r.body == content
  {
    var spec := From(received);
    hide Download, Print;
    DownloadSelects(content, spec);
    var r := Download(content, Some(Print(spec)));
    assert Selects(spec, |content|, received);
    var start: nat, end: nat :| Answers(Partial(start, end), spec, |content|) && r.body == content[start..end + 1];
    SelectedBounds(spec, |content|, start, end, received, |content| - 1);
    assert r.body == content[received..];
  }
}
