// Cache metadata in the fixed format: lists, optional strings, flags, error lists, CacheMeta and
// CacheMetaEx.
module CacheFiles {
  import opened Text
  import opened Wire
  import opened Json

  datatype ErrorTuple = ErrorTuple(
    path: Option<Str>, line: int, column: int, endLine: int, endColumn: int, severity: Str, message: Str,
        code: Option<Str>)

  /** A dictionary in the order in which its keys were added. */
  type Lines = seq<(int, seq<Str>)>

  datatype CacheMeta = CacheMeta(
    id: Str, path: Str, mtime: int, size: int, hash: Str,
    dependencies: seq<Str>, dataMtime: int, suppressed: seq<Str>, importsIgnored: Lines,
    options: map<Str, Json>, suppressedDepsOpts: Bytes, depPrios: seq<int>, depLines: seq<int>,
    depHashes: seq<Bytes>, interfaceHash: Bytes, transDepHash: Bytes, versionId: Str, ignoreAll: bool, pluginData: Json)

  datatype CacheMetaEx = CacheMetaEx(
    dependencies: seq<Str>, suppressed: seq<Str>, depHashes: seq<Bytes>, errorLines: seq<ErrorTuple>)

  // Fields.

  /** A tagged string or byte string. */
  ghost function TaggedStr(f: Format, tag: byte, s: Str): Bytes {
    [tag] + f.strBytes(s)
  }

  function ParseTaggedStr(f: Format, tag: byte, b: Bytes): Parsed<Str> {
    if b == [] || b[0] != tag then Err else f.parseStr(b[1..])
  }

  /** A tag and an integer: a field, or the start of a collection. */
  function ParseHeader(f: Format, tag: byte, b: Bytes): Parsed<int> {
    if b == [] || b[0] != tag then Err else f.parseInt(b[1..])
  }

  function ParseIntField(f: Format, b: Bytes): Parsed<int> {
    ParseHeader(f, LITERAL_INT, b)
  }

  function ParseBool(b: Bytes): Parsed<bool> {
    if b == [] || (b[0] != LITERAL_FALSE && b[0] != LITERAL_TRUE) then Err else Ok(b[0] == LITERAL_TRUE, b[1..])
  }

  ghost function OptStr(f: Format, s: Option<Str>): Bytes {
    if s.Some? then TaggedStr(f, LITERAL_STR, s.value) else [LITERAL_NONE]
  }

  function ParseOptStr(f: Format, b: Bytes): Parsed<Option<Str>> {
    if b == [] then Err
    else if b[0] == LITERAL_NONE then Ok(None, b[1..])
    else
      var (s, rest) :- ParseTaggedStr(f, LITERAL_STR, b);
      Ok(Some(s), rest)
  }

  ghost predicate FitsOpt(f: Format, s: Option<Str>) {
    s.Some? ==> f.fitsStr(s.value)
  }

  lemma TaggedStrRoundTrip(f: Format, tag: byte, s: Str, rest: Bytes)
    requires Delimits(f) && f.fitsStr(s)
    ensures ParseTaggedStr(f, tag, TaggedStr(f, tag, s) + rest) == Ok(s, rest)
  {
    TagFirst(tag, f.strBytes(s), rest);
    assert StrDelimits(f, s, rest);
  }

  lemma IntFieldRoundTrip(f: Format, i: int, rest: Bytes)
    requires Delimits(f) && f.fitsInt(i)
    ensures ParseIntField(f, IntField(f, i) + rest) == Ok(i, rest)
  {
    IntFieldFirst(f, i, rest);
  }

  lemma BoolFieldRoundTrip(b: bool, rest: Bytes)
    ensures ParseBool(BoolField(b) + rest) == Ok(b, rest)
  {
    assert (BoolField(b) + rest)[1..] == rest;
  }

  lemma OptStrRoundTrip(f: Format, s: Option<Str>, rest: Bytes)
    requires Delimits(f) && FitsOpt(f, s)
    ensures ParseOptStr(f, OptStr(f, s) + rest) == Ok(s, rest)
  {
    if s.Some? {
      TaggedStrRoundTrip(f, LITERAL_STR, s.value, rest);
    } else {
      assert (OptStr(f, s) + rest)[1..] == rest;
    }
  }

  // Lists. One codec for the items gives one for the list.

  /** How one kind of item is written and read. */
  datatype Codec<!T> = Codec(fits: T -> bool, bytes: T -> Bytes, parse: Bytes -> Parsed<T>)

  ghost predicate ItemRoundTrip<T>(c: Codec<T>, v: T, rest: Bytes) {
    c.fits(v) ==> c.parse(c.bytes(v) + rest) == Ok(v, rest)
  }

  ghost predicate RoundTrips<T(!new)>(c: Codec<T>) {
    forall v, rest :: ItemRoundTrip(c, v, rest)
  }

  ghost predicate AllFitCodec<T>(c: Codec<T>, vs: seq<T>) {
    forall i | 0 <= i < |vs| :: c.fits(vs[i])
  }

  ghost function Many<T>(c: Codec<T>, vs: seq<T>): Bytes {
    if vs == [] then [] else c.bytes(vs[0]) + Many(c, vs[1..])
  }

  function ParseMany<T>(c: Codec<T>, n: int, b: Bytes): Parsed<seq<T>>
    decreases n
  {
    if n <= 0 then Ok([], b)
    else
      var (first, rest) :- c.parse(b);
      var (items, after) :- ParseMany(c, n - 1, rest);
      Ok([first] + items, after)
  }

  lemma {:induction false} ManyRoundTrip<T(!new)>(c: Codec<T>, vs: seq<T>, rest: Bytes)
    requires RoundTrips(c) && AllFitCodec(c, vs)
    ensures ParseMany(c, |vs|, Many(c, vs) + rest) == Ok(vs, rest)
  {
    if vs == [] {
      assert Many(c, vs) + rest == rest;
    } else {
      Assoc(c.bytes(vs[0]), Many(c, vs[1..]), rest);
      assert ItemRoundTrip(c, vs[0], Many(c, vs[1..]) + rest);
      ManyRoundTrip(c, vs[1..], rest);
      assert [vs[0]] + vs[1..] == vs;
    }
  }

  ghost function ListField<T>(f: Format, tag: byte, c: Codec<T>, vs: seq<T>): Bytes {
    Header(f, tag, |vs|) + Many(c, vs)
  }

  function ParseList<T>(f: Format, tag: byte, c: Codec<T>, b: Bytes): Parsed<seq<T>> {
    var (n, rest) :- ParseHeader(f, tag, b);
    ParseMany(c, n, rest)
  }

  ghost predicate FitsList<T>(f: Format, c: Codec<T>, vs: seq<T>) {
    f.fitsInt(|vs|) && AllFitCodec(c, vs)
  }

  lemma ListRoundTrip<T(!new)>(f: Format, tag: byte, c: Codec<T>, vs: seq<T>, rest: Bytes)
    requires Delimits(f) && RoundTrips(c) && FitsList(f, c, vs)
    ensures ParseList(f, tag, c, ListField(f, tag, c, vs) + rest) == Ok(vs, rest)
  {
    HeaderFirst(f, tag, |vs|, Many(c, vs), rest);
    ManyRoundTrip(c, vs, rest);
  }

  function IntItems(f: Format): Codec<int> {
    Codec(f.fitsInt, f.intBytes, f.parseInt)
  }

  function StrItems(f: Format): Codec<Str> {
    Codec(f.fitsStr, f.strBytes, f.parseStr)
  }

  lemma ItemsRoundTrips(f: Format)
    requires Delimits(f)
    ensures RoundTrips(IntItems(f)) && RoundTrips(StrItems(f))
  {
    forall v, rest
      ensures ItemRoundTrip(IntItems(f), v, rest)
    {
      assert IntDelimits(f, v, rest);
    }
    forall s, rest
      ensures ItemRoundTrip(StrItems(f), s, rest)
    {
      assert StrDelimits(f, s, rest);
    }
  }

  // Flags, packed into one integer.

  function Power(i: nat): nat {
    if i == 0 then 1 else 2 * Power(i - 1)
  }

  function Packed(flags: seq<bool>): nat {
    if flags == [] then 0 else (if flags[0] then 1 else 0) + 2 * Packed(flags[1..])
  }

  /** Bit i of a possibly negative integer. */
  predicate Bit(packed: int, i: nat)
    decreases i
  {
    if i == 0 then packed % 2 == 1 else Bit(packed / 2, i - 1)
  }

  function Unpacked(packed: int, n: nat): seq<bool> {
    seq(n, i requires 0 <= i < n => Bit(packed, i))
  }

  lemma {:induction false} PackedBit(flags: seq<bool>, i: nat)
    requires i < |flags|
    ensures Bit(Packed(flags), i) == flags[i]
  {
    if i > 0 {
      PackedBit(flags[1..], i - 1);
      assert Packed(flags) / 2 == Packed(flags[1..]);
    }
  }

  ghost function FlagsBytes(f: Format, flags: seq<bool>): Bytes {
    IntField(f, Packed(flags))
  }

  function ParseFlags(f: Format, n: nat, b: Bytes): Parsed<seq<bool>> {
    var (packed, rest) :- ParseIntField(f, b);
    Ok(Unpacked(packed, n), rest)
  }

  lemma FlagsRoundTrip(f: Format, flags: seq<bool>, rest: Bytes)
    requires Delimits(f) && f.fitsInt(Packed(flags))
    ensures ParseFlags(f, |flags|, FlagsBytes(f, flags) + rest) == Ok(flags, rest)
  {
    IntFieldRoundTrip(f, Packed(flags), rest);
    forall i | 0 <= i < |flags|
      ensures Unpacked(Packed(flags), |flags|)[i] == flags[i]
    {
      PackedBit(flags, i);
    }
    assert Unpacked(Packed(flags), |flags|) == flags;
  }

  // Errors.

  ghost predicate FitsError(f: Format, e: ErrorTuple) {
    && FitsOpt(f, e.path) && f.fitsInt(e.line) && f.fitsInt(e.column) && f.fitsInt(e.endLine) && f.fitsInt(e.endColumn)
    && f.fitsStr(e.severity) && f.fitsStr(e.message) && FitsOpt(f, e.code)
  }

  ghost function PlaceBytes(f: Format, e: ErrorTuple): Bytes {
    IntField(f, e.line) + (IntField(f, e.column) + (IntField(f, e.endLine) + IntField(f, e.endColumn)))
  }

  ghost function ErrorBytes(f: Format, e: ErrorTuple): Bytes {
    [TUPLE_GEN] + (OptStr(f, e.path) + (PlaceBytes(f, e)
      + (TaggedStr(f, LITERAL_STR, e.severity) + (TaggedStr(f, LITERAL_STR, e.message) + OptStr(f, e.code)))))
  }

  function ParsePlace(f: Format, b: Bytes): Parsed<(int, int, int, int)> {
    var (line, b1) :- ParseIntField(f, b);
    var (column, b2) :- ParseIntField(f, b1);
    var (endLine, b3) :- ParseIntField(f, b2);
    var (endColumn, b4) :- ParseIntField(f, b3);
    Ok((line, column, endLine, endColumn), b4)
  }

  function ParseError(f: Format, b: Bytes): Parsed<ErrorTuple> {
    if b == [] || b[0] != TUPLE_GEN then Err
    else
      var (path, b1) :- ParseOptStr(f, b[1..]);
      var (place, b2) :- ParsePlace(f, b1);
      var (severity, b3) :- ParseTaggedStr(f, LITERAL_STR, b2);
      var (message, b4) :- ParseTaggedStr(f, LITERAL_STR, b3);
      var (code, b5) :- ParseOptStr(f, b4);
      Ok(ErrorTuple(path, place.0, place.1, place.2, place.3, severity, message, code), b5)
  }

  lemma PlaceRoundTrip(f: Format, e: ErrorTuple, rest: Bytes)
    requires Delimits(f) && FitsError(f, e)
    ensures ParsePlace(f, PlaceBytes(f, e) + rest) == Ok((e.line, e.column, e.endLine, e.endColumn), rest)
  {
    var r4 := IntField(f, e.endColumn) + rest;
    var r3 := IntField(f, e.endLine) + r4;
    var r2 := IntField(f, e.column) + r3;
    IntFieldRoundTrip(f, e.line, r2);
    IntFieldRoundTrip(f, e.column, r3);
    IntFieldRoundTrip(f, e.endLine, r4);
    IntFieldRoundTrip(f, e.endColumn, rest);
    assert PlaceBytes(f, e) + rest == IntField(f, e.line) + r2;
  }

  lemma ErrorRoundTrip(f: Format, e: ErrorTuple, rest: Bytes)
    requires Delimits(f) && FitsError(f, e)
    ensures ParseError(f, ErrorBytes(f, e) + rest) == Ok(e, rest)
  {
    var r5 := OptStr(f, e.code) + rest;
    var r4 := TaggedStr(f, LITERAL_STR, e.message) + r5;
    var r3 := TaggedStr(f, LITERAL_STR, e.severity) + r4;
    var r2 := PlaceBytes(f, e) + r3;
    var r1 := OptStr(f, e.path) + r2;
    OptStrRoundTrip(f, e.path, r2);
    PlaceRoundTrip(f, e, r3);
    TaggedStrRoundTrip(f, LITERAL_STR, e.severity, r4);
    TaggedStrRoundTrip(f, LITERAL_STR, e.message, r5);
    OptStrRoundTrip(f, e.code, rest);
    ErrorParts(f, e, rest);
    assert ([TUPLE_GEN] + r1)[1..] == r1;
  }

  /** The encoding of an error, part by part. */
  lemma ErrorParts(f: Format, e: ErrorTuple, rest: Bytes)
    requires FitsError(f, e)
    ensures ErrorBytes(f, e) + rest == [TUPLE_GEN] + (OptStr(f, e.path) + (PlaceBytes(f, e)
            + (TaggedStr(f, LITERAL_STR, e.severity) + (TaggedStr(f, LITERAL_STR, e.message)
            + (OptStr(f, e.code) + rest)))))
  {
  }

  ghost function ErrorItems(f: Format): Codec<ErrorTuple> {
    Codec(e => FitsError(f, e), e => ErrorBytes(f, e), b => ParseError(f, b))
  }

  lemma ErrorItemsRoundTrips(f: Format)
    requires Delimits(f)
    ensures RoundTrips(ErrorItems(f))
  {
    forall e, rest
      ensures ItemRoundTrip(ErrorItems(f), e, rest)
    {
      if FitsError(f, e) {
        ErrorRoundTrip(f, e, rest);
      }
    }
  }

  // The lines at which imports are ignored.

  ghost function LineBytes(f: Format, entry: (int, seq<Str>)): Bytes {
    IntField(f, entry.0) + ListField(f, LIST_STR, StrItems(f), entry.1)
  }

  function ParseLine(f: Format, b: Bytes): Parsed<(int, seq<Str>)> {
    var (line, b1) :- ParseIntField(f, b);
    var (codes, b2) :- ParseList(f, LIST_STR, StrItems(f), b1);
    Ok((line, codes), b2)
  }

  ghost predicate FitsLine(f: Format, entry: (int, seq<Str>)) {
    f.fitsInt(entry.0) && FitsList(f, StrItems(f), entry.1)
  }

  ghost function LineItems(f: Format): Codec<(int, seq<Str>)> {
    Codec(e => FitsLine(f, e), e => LineBytes(f, e), b => ParseLine(f, b))
  }

  lemma LineItemsRoundTrips(f: Format)
    requires Delimits(f)
    ensures RoundTrips(LineItems(f))
  {
    ItemsRoundTrips(f);
    forall e, rest
      ensures ItemRoundTrip(LineItems(f), e, rest)
    {
      if FitsLine(f, e) {
        var codes := ListField(f, LIST_STR, StrItems(f), e.1);
        Assoc(IntField(f, e.0), codes, rest);
        IntFieldRoundTrip(f, e.0, codes + rest);
        ListRoundTrip(f, LIST_STR, StrItems(f), e.1, rest);
      }
    }
  }

  /** Adding to a dictionary: a key that is there keeps its place. */
  function SetLine(lines: Lines, line: int, codes: seq<Str>): Lines {
    if lines == [] then [(line, codes)]
    else if lines[0].0 == line then [(line, codes)] + lines[1..]
    else [lines[0]] + SetLine(lines[1..], line, codes)
  }

  function DictOf(entries: Lines): Lines {
    if entries == [] then []
    else SetLine(DictOf(entries[..|entries| - 1]), entries[|entries| - 1].0, entries[|entries| - 1].1)
  }

  ghost predicate DistinctLines(lines: Lines) {
    forall i, j | 0 <= i < j < |lines| :: lines[i].0 != lines[j].0
  }

  lemma {:induction false} SetLineNew(lines: Lines, line: int, codes: seq<Str>)
    requires forall i | 0 <= i < |lines| :: lines[i].0 != line
    ensures SetLine(lines, line, codes) == lines + [(line, codes)]
  {
    if lines != [] {
      SetLineNew(lines[1..], line, codes);
    }
  }

  lemma {:induction false} DictOfDistinct(lines: Lines)
    requires DistinctLines(lines)
    ensures DictOf(lines) == lines
  {
    if lines != [] {
      var before, last := lines[..|lines| - 1], lines[|lines| - 1];
      DictOfDistinct(before);
      SetLineNew(before, last.0, last.1);
      assert lines == before + [(last.0, last.1)];
    }
  }

  ghost function LinesBytes(f: Format, lines: Lines): Bytes {
    f.intBytes(|lines|) + Many(LineItems(f), lines)
  }

  ghost function ParseLines(f: Format, b: Bytes): Parsed<Lines> {
    var (n, rest) :- f.parseInt(b);
    var (entries, after) :- ParseMany(LineItems(f), n, rest);
    Ok(DictOf(entries), after)
  }

  ghost predicate FitsLines(f: Format, lines: Lines) {
    FitsList(f, LineItems(f), lines) && DistinctLines(lines)
  }

  lemma LinesRoundTrip(f: Format, lines: Lines, rest: Bytes)
    requires Delimits(f) && FitsLines(f, lines)
    ensures ParseLines(f, LinesBytes(f, lines) + rest) == Ok(lines, rest)
  {
    var many := Many(LineItems(f), lines);
    Assoc(f.intBytes(|lines|), many, rest);
    assert IntDelimits(f, |lines|, many + rest);
    LineItemsRoundTrips(f);
    ManyRoundTrip(LineItems(f), lines, rest);
    DictOfDistinct(lines);
  }

  // A JSON dictionary on its own.

  function ParseDict(f: Format, b: Bytes): Parsed<map<Str, Json>>
    requires Consumes(f)
  {
    var (n, rest) :- ParseHeader(f, DICT_STR_GEN, b);
    ParseEntries(f, n, rest, map[])
  }

  lemma DictFieldRoundTrip(f: Format, options: map<Str, Json>, rest: Bytes)
    requires Delimits(f) && FitsJson(f, JDict(options))
    ensures ParseDict(f, JsonBytes(f, JDict(options)) + rest) == Ok(options, rest)
  {
    var keys := Sorted(options.Keys);
    HeaderFirst(f, DICT_STR_GEN, |options|, EntriesBytes(f, JDict(options), keys), rest);
    SortedEntriesRoundTrip(f, JDict(options), keys, rest);
  }

  lemma FourParts(a: Bytes, b: Bytes, c: Bytes, d: Bytes, rest: Bytes)
    ensures (a + (b + (c + d))) + rest == a + (b + (c + (d + rest)))
  {
    Assoc(a, b + (c + d), rest);
    Assoc(b, c + d, rest);
    Assoc(c, d, rest);
  }

  lemma SixParts(a: Bytes, b: Bytes, c: Bytes, d: Bytes, e: Bytes, g: Bytes, rest: Bytes)
    ensures (a + (b + (c + (d + (e + g))))) + rest == a + (b + (c + (d + (e + (g + rest)))))
  {
    FourParts(a, b, c, d + (e + g), rest);
    Assoc(d, e + g, rest);
    Assoc(e, g, rest);
  }

  // CacheMeta, in four parts.

  ghost predicate FitsSource(f: Format, m: CacheMeta) {
    f.fitsStr(m.id) && f.fitsStr(m.path) && f.fitsInt(m.mtime) && f.fitsInt(m.size) && f.fitsStr(m.hash)
  }

  ghost function SourceBytes(f: Format, m: CacheMeta): Bytes {
    TaggedStr(f, LITERAL_STR, m.id) + (TaggedStr(f, LITERAL_STR, m.path)
        + (IntField(f, m.mtime) + (IntField(f, m.size) + TaggedStr(f, LITERAL_STR, m.hash))))
  }

  ghost function ParseSource(f: Format, b: Bytes): Parsed<(Str, Str, int, int, Str)> {
    var (id, b1) :- ParseTaggedStr(f, LITERAL_STR, b);
    var (path, b2) :- ParseTaggedStr(f, LITERAL_STR, b1);
    var (mtime, b3) :- ParseIntField(f, b2);
    var (size, b4) :- ParseIntField(f, b3);
    var (hash, b5) :- ParseTaggedStr(f, LITERAL_STR, b4);
    Ok((id, path, mtime, size, hash), b5)
  }

  lemma SourceRoundTrip(f: Format, m: CacheMeta, rest: Bytes)
    requires Delimits(f) && FitsSource(f, m)
    ensures ParseSource(f, SourceBytes(f, m) + rest) == Ok((m.id, m.path, m.mtime, m.size, m.hash), rest)
  {
    var r4 := TaggedStr(f, LITERAL_STR, m.hash) + rest;
    var r3 := IntField(f, m.size) + r4;
    var r2 := IntField(f, m.mtime) + r3;
    var r1 := TaggedStr(f, LITERAL_STR, m.path) + r2;
    TaggedStrRoundTrip(f, LITERAL_STR, m.id, r1);
    TaggedStrRoundTrip(f, LITERAL_STR, m.path, r2);
    IntFieldRoundTrip(f, m.mtime, r3);
    IntFieldRoundTrip(f, m.size, r4);
    TaggedStrRoundTrip(f, LITERAL_STR, m.hash, rest);
    assert SourceBytes(f, m) + rest == TaggedStr(f, LITERAL_STR, m.id) + r1;
  }

  ghost predicate FitsImports(f: Format, m: CacheMeta) {
    FitsList(f, StrItems(f), m.dependencies) && f.fitsInt(m.dataMtime) && FitsList(f, StrItems(f), m.suppressed)
        && FitsLines(f, m.importsIgnored)
  }

  ghost function ImportsBytes(f: Format, m: CacheMeta): Bytes {
    ListField(f, LIST_STR, StrItems(f), m.dependencies)
    + (IntField(f, m.dataMtime) + (ListField(f, LIST_STR, StrItems(f), m.suppressed) + LinesBytes(f, m.importsIgnored)))
  }

  ghost function ParseImports(f: Format, b: Bytes): Parsed<(seq<Str>, int, seq<Str>, Lines)> {
    var (dependencies, b1) :- ParseList(f, LIST_STR, StrItems(f), b);
    var (dataMtime, b2) :- ParseIntField(f, b1);
    var (suppressed, b3) :- ParseList(f, LIST_STR, StrItems(f), b2);
    var (importsIgnored, b4) :- ParseLines(f, b3);
    Ok((dependencies, dataMtime, suppressed, importsIgnored), b4)
  }

  lemma ImportsRoundTrip(f: Format, m: CacheMeta, rest: Bytes)
    requires Delimits(f) && FitsImports(f, m)
    ensures ParseImports(f, ImportsBytes(f, m) + rest)
            == Ok((m.dependencies, m.dataMtime, m.suppressed, m.importsIgnored), rest)
  {
    var r3 := LinesBytes(f, m.importsIgnored) + rest;
    var r2 := ListField(f, LIST_STR, StrItems(f), m.suppressed) + r3;
    var r1 := IntField(f, m.dataMtime) + r2;
    ItemsRoundTrips(f);
    ListRoundTrip(f, LIST_STR, StrItems(f), m.dependencies, r1);
    IntFieldRoundTrip(f, m.dataMtime, r2);
    ListRoundTrip(f, LIST_STR, StrItems(f), m.suppressed, r3);
    LinesRoundTrip(f, m.importsIgnored, rest);
    FourParts(ListField(f, LIST_STR, StrItems(f), m.dependencies), IntField(f, m.dataMtime),
              ListField(f, LIST_STR, StrItems(f), m.suppressed), LinesBytes(f, m.importsIgnored), rest);
  }

  ghost predicate FitsOptions(f: Format, m: CacheMeta) {
    FitsJson(f, JDict(m.options)) && f.fitsStr(m.suppressedDepsOpts) && FitsList(f, IntItems(f), m.depPrios)
        && FitsList(f, IntItems(f), m.depLines)
  }

  ghost function OptionsBytes(f: Format, m: CacheMeta): Bytes {
    JsonBytes(f, JDict(m.options))
    + (TaggedStr(f, LITERAL_BYTES, m.suppressedDepsOpts)
    + (ListField(f, LIST_INT, IntItems(f), m.depPrios) + ListField(f, LIST_INT, IntItems(f), m.depLines)))
  }

  ghost function ParseOptions(f: Format, b: Bytes): Parsed<(map<Str, Json>, Bytes, seq<int>, seq<int>)>
    requires Consumes(f)
  {
    var (options, b1) :- ParseDict(f, b);
    var (suppressedDepsOpts, b2) :- ParseTaggedStr(f, LITERAL_BYTES, b1);
    var (depPrios, b3) :- ParseList(f, LIST_INT, IntItems(f), b2);
    var (depLines, b4) :- ParseList(f, LIST_INT, IntItems(f), b3);
    Ok((options, suppressedDepsOpts, depPrios, depLines), b4)
  }

  lemma OptionsRoundTrip(f: Format, m: CacheMeta, rest: Bytes)
    requires Delimits(f) && FitsOptions(f, m)
    ensures ParseOptions(f, OptionsBytes(f, m) + rest)
            == Ok((m.options, m.suppressedDepsOpts, m.depPrios, m.depLines), rest)
  {
    var r3 := ListField(f, LIST_INT, IntItems(f), m.depLines) + rest;
    var r2 := ListField(f, LIST_INT, IntItems(f), m.depPrios) + r3;
    var r1 := TaggedStr(f, LITERAL_BYTES, m.suppressedDepsOpts) + r2;
    ItemsRoundTrips(f);
    DictFieldRoundTrip(f, m.options, r1);
    TaggedStrRoundTrip(f, LITERAL_BYTES, m.suppressedDepsOpts, r2);
    ListRoundTrip(f, LIST_INT, IntItems(f), m.depPrios, r3);
    ListRoundTrip(f, LIST_INT, IntItems(f), m.depLines, rest);
    FourParts(JsonBytes(f, JDict(m.options)), TaggedStr(f, LITERAL_BYTES, m.suppressedDepsOpts),
              ListField(f, LIST_INT, IntItems(f), m.depPrios), ListField(f, LIST_INT, IntItems(f), m.depLines), rest);
  }

  ghost predicate FitsHashes(f: Format, m: CacheMeta) {
    FitsList(f, StrItems(f), m.depHashes) && f.fitsStr(m.interfaceHash) && f.fitsStr(m.transDepHash)
        && f.fitsStr(m.versionId) && FitsJson(f, m.pluginData)
  }

  ghost function HashesBytes(f: Format, m: CacheMeta): Bytes {
    ListField(f, LIST_BYTES, StrItems(f), m.depHashes)
    + (TaggedStr(f, LITERAL_BYTES, m.interfaceHash) + (TaggedStr(f, LITERAL_BYTES, m.transDepHash)
    + (TaggedStr(f, LITERAL_STR, m.versionId) + (BoolField(m.ignoreAll) + JsonBytes(f, m.pluginData)))))
  }

  ghost function ParseHashes(f: Format, b: Bytes): Parsed<(seq<Bytes>, Bytes, Bytes, Str, bool, Json)>
    requires Consumes(f)
  {
    var (depHashes, b1) :- ParseList(f, LIST_BYTES, StrItems(f), b);
    var (interfaceHash, b2) :- ParseTaggedStr(f, LITERAL_BYTES, b1);
    var (transDepHash, b3) :- ParseTaggedStr(f, LITERAL_BYTES, b2);
    var (versionId, b4) :- ParseTaggedStr(f, LITERAL_STR, b3);
    var (ignoreAll, b5) :- ParseBool(b4);
    var (pluginData, b6) :- ParseJson(f, b5);
    Ok((depHashes, interfaceHash, transDepHash, versionId, ignoreAll, pluginData), b6)
  }

  lemma HashesRoundTrip(f: Format, m: CacheMeta, rest: Bytes)
    requires Delimits(f) && FitsHashes(f, m)
    ensures ParseHashes(f, HashesBytes(f, m) + rest)
            == Ok((m.depHashes, m.interfaceHash, m.transDepHash, m.versionId, m.ignoreAll, m.pluginData), rest)
  {
    var r5 := JsonBytes(f, m.pluginData) + rest;
    var r4 := BoolField(m.ignoreAll) + r5;
    var r3 := TaggedStr(f, LITERAL_STR, m.versionId) + r4;
    var r2 := TaggedStr(f, LITERAL_BYTES, m.transDepHash) + r3;
    var r1 := TaggedStr(f, LITERAL_BYTES, m.interfaceHash) + r2;
    ItemsRoundTrips(f);
    ListRoundTrip(f, LIST_BYTES, StrItems(f), m.depHashes, r1);
    TaggedStrRoundTrip(f, LITERAL_BYTES, m.interfaceHash, r2);
    TaggedStrRoundTrip(f, LITERAL_BYTES, m.transDepHash, r3);
    TaggedStrRoundTrip(f, LITERAL_STR, m.versionId, r4);
    BoolFieldRoundTrip(m.ignoreAll, r5);
    JsonRoundTrip(f, m.pluginData, rest);
    SixParts(ListField(f, LIST_BYTES, StrItems(f), m.depHashes), TaggedStr(f, LITERAL_BYTES, m.interfaceHash),
             TaggedStr(f, LITERAL_BYTES, m.transDepHash), TaggedStr(f, LITERAL_STR, m.versionId),
                 BoolField(m.ignoreAll),
             JsonBytes(f, m.pluginData), rest);
  }

  ghost predicate FitsMeta(f: Format, m: CacheMeta) {
    FitsSource(f, m) && FitsImports(f, m) && FitsOptions(f, m) && FitsHashes(f, m)
  }

  ghost function MetaBytes(f: Format, m: CacheMeta): Bytes {
    SourceBytes(f, m) + (ImportsBytes(f, m) + (OptionsBytes(f, m) + HashesBytes(f, m)))
  }

  ghost function ParseMeta(f: Format, b: Bytes): Parsed<CacheMeta>
    requires Consumes(f)
  {
    var (s, b1) :- ParseSource(f, b);
    var (i, b2) :- ParseImports(f, b1);
    var (o, b3) :- ParseOptions(f, b2);
    var (h, b4) :- ParseHashes(f, b3);
    Ok(CacheMeta(s.0, s.1, s.2, s.3, s.4, i.0, i.1, i.2, i.3, o.0, o.1, o.2, o.3, h.0, h.1, h.2, h.3, h.4, h.5), b4)
  }

  /** Cache metadata that was written is read back, and nothing after it is touched. */
  lemma MetaRoundTrip(f: Format, m: CacheMeta, rest: Bytes)
    requires Delimits(f) && FitsMeta(f, m)
    ensures ParseMeta(f, MetaBytes(f, m) + rest) == Ok(m, rest)
  {
    var r3 := HashesBytes(f, m) + rest;
    var r2 := OptionsBytes(f, m) + r3;
    var r1 := ImportsBytes(f, m) + r2;
    SourceRoundTrip(f, m, r1);
    ImportsRoundTrip(f, m, r2);
    OptionsRoundTrip(f, m, r3);
    HashesRoundTrip(f, m, rest);
    FourParts(SourceBytes(f, m), ImportsBytes(f, m), OptionsBytes(f, m), HashesBytes(f, m), rest);
  }

  ghost predicate FitsMetaEx(f: Format, m: CacheMetaEx) {
    && FitsList(f, StrItems(f), m.dependencies) && FitsList(f, StrItems(f), m.suppressed)
    && FitsList(f, StrItems(f), m.depHashes) && FitsList(f, ErrorItems(f), m.errorLines)
  }

  ghost function MetaExBytes(f: Format, m: CacheMetaEx): Bytes {
    ListField(f, LIST_STR, StrItems(f), m.dependencies) + (ListField(f, LIST_STR, StrItems(f), m.suppressed)
    + (ListField(f, LIST_BYTES, StrItems(f), m.depHashes) + ListField(f, LIST_GEN, ErrorItems(f), m.errorLines)))
  }

  ghost function ParseMetaEx(f: Format, b: Bytes): Parsed<CacheMetaEx> {
    var (dependencies, b1) :- ParseList(f, LIST_STR, StrItems(f), b);
    var (suppressed, b2) :- ParseList(f, LIST_STR, StrItems(f), b1);
    var (depHashes, b3) :- ParseList(f, LIST_BYTES, StrItems(f), b2);
    var (errorLines, b4) :- ParseList(f, LIST_GEN, ErrorItems(f), b3);
    Ok(CacheMetaEx(dependencies, suppressed, depHashes, errorLines), b4)
  }

  lemma MetaExRoundTrip(f: Format, m: CacheMetaEx, rest: Bytes)
    requires Delimits(f) && FitsMetaEx(f, m)
    ensures ParseMetaEx(f, MetaExBytes(f, m) + rest) == Ok(m, rest)
  {
    var r3 := ListField(f, LIST_GEN, ErrorItems(f), m.errorLines) + rest;
    var r2 := ListField(f, LIST_BYTES, StrItems(f), m.depHashes) + r3;
    var r1 := ListField(f, LIST_STR, StrItems(f), m.suppressed) + r2;
    ItemsRoundTrips(f);
    ErrorItemsRoundTrips(f);
    ListRoundTrip(f, LIST_STR, StrItems(f), m.dependencies, r1);
    ListRoundTrip(f, LIST_STR, StrItems(f), m.suppressed, r2);
    ListRoundTrip(f, LIST_BYTES, StrItems(f), m.depHashes, r3);
    ListRoundTrip(f, LIST_GEN, ErrorItems(f), m.errorLines, rest);
    FourParts(ListField(f, LIST_STR, StrItems(f), m.dependencies), ListField(f, LIST_STR, StrItems(f), m.suppressed),
              ListField(f, LIST_BYTES, StrItems(f), m.depHashes), ListField(f, LIST_GEN, ErrorItems(f), m.errorLines),
                  rest);
  }

  // The writers. They stop with a ValueError where a part is beyond the limits.

  lemma {:induction false} ManyNext<T>(c: Codec<T>, vs: seq<T>, v: T)
    ensures Many(c, vs + [v]) == Many(c, vs) + c.bytes(v)
  {
    var all := vs + [v];
    if vs == [] {
      assert all[1..] == [];
    } else {
      assert all[1..] == vs[1..] + [v];
      ManyNext(c, vs[1..], v);
    }
  }

  lemma PrefixMany<T>(c: Codec<T>, vs: seq<T>, k: nat)
    requires k < |vs|
    ensures Many(c, vs[..k + 1]) == Many(c, vs[..k]) + c.bytes(vs[k])
    ensures AllFitCodec(c, vs[..k + 1]) <==> AllFitCodec(c, vs[..k]) && c.fits(vs[k])
  {
    assert vs[..k + 1] == vs[..k] + [vs[k]];
    ManyNext(c, vs[..k], vs[k]);
    assert forall i | 0 <= i < k :: vs[..k + 1][i] == vs[..k][i];
  }

  method WriteTaggedStr(ghost f: Format, data: WriteBuffer, tag: byte, s: Str) returns (ok: bool)
    requires IsFixed(f)
    modifies data
    ensures ok <==> f.fitsStr(s)
    ensures ok ==> data.data == old(data.data) + TaggedStr(f, tag, s)
  {
    data.WriteTag(tag);
    ok := PutStr(f, data, s);
  }

  method WriteOptStr(ghost f: Format, data: WriteBuffer, s: Option<Str>) returns (ok: bool)
    requires IsFixed(f)
    modifies data
    ensures ok <==> FitsOpt(f, s)
    ensures ok ==> data.data == old(data.data) + OptStr(f, s)
  {
    if s.Some? {
      ok := WriteTaggedStr(f, data, LITERAL_STR, s.value);
    } else {
      data.WriteTag(LITERAL_NONE);
      ok := true;
    }
  }

  method WriteStrList(ghost f: Format, data: WriteBuffer, tag: byte, items: seq<Str>) returns (ok: bool)
    requires IsFixed(f)
    modifies data
    ensures ok <==> FitsList(f, StrItems(f), items)
    ensures ok ==> data.data == old(data.data) + ListField(f, tag, StrItems(f), items)
  {
    ghost var before := data.data;
    ok := WriteHeader(f, data, tag, |items|);
    if !ok {
      return;
    }
    ghost var start := data.data;
    for k := 0 to |items|
      invariant AllFitCodec(StrItems(f), items[..k]) && data.data == start + Many(StrItems(f), items[..k])
    {
      ok := PutStr(f, data, items[k]);
      if !ok {
        return;
      }
      PrefixMany(StrItems(f), items, k);
    }
    ok := true;
    assert items[..|items|] == items;
    Assoc(before, Header(f, tag, |items|), Many(StrItems(f), items));
  }

  method WriteIntList(ghost f: Format, data: WriteBuffer, items: seq<int>) returns (ok: bool)
    requires IsFixed(f)
    modifies data
    ensures ok <==> FitsList(f, IntItems(f), items)
    ensures ok ==> data.data == old(data.data) + ListField(f, LIST_INT, IntItems(f), items)
  {
    ghost var before := data.data;
    ok := WriteHeader(f, data, LIST_INT, |items|);
    if !ok {
      return;
    }
    ghost var start := data.data;
    for k := 0 to |items|
      invariant AllFitCodec(IntItems(f), items[..k]) && data.data == start + Many(IntItems(f), items[..k])
    {
      ok := PutInt(f, data, items[k]);
      if !ok {
        return;
      }
      PrefixMany(IntItems(f), items, k);
    }
    ok := true;
    assert items[..|items|] == items;
    Assoc(before, Header(f, LIST_INT, |items|), Many(IntItems(f), items));
  }

  /** c writes what is written below; nothing else about it is needed. */
  ghost predicate WritesLines(f: Format, c: Codec<(int, seq<Str>)>) {
    && (forall e {:trigger FitsLine(f, e)} :: c.fits(e) <==> FitsLine(f, e))
    && (forall e {:trigger LineBytes(f, e)} :: c.bytes(e) == LineBytes(f, e))
  }

  method WriteLineItem(ghost f: Format, ghost c: Codec<(int, seq<Str>)>, data: WriteBuffer, e: (int, seq<Str>))
    returns (ok: bool)
    requires IsFixed(f) && WritesLines(f, c)
    modifies data
    ensures ok <==> c.fits(e)
    ensures ok ==> data.data == old(data.data) + c.bytes(e)
  {
    ok := WriteLine(f, data, e);
  }

  method WriteLineItems(ghost f: Format, ghost c: Codec<(int, seq<Str>)>, data: WriteBuffer, lines: Lines)
    returns (ok: bool)
    requires IsFixed(f) && WritesLines(f, c)
    modifies data
    ensures ok <==> AllFitCodec(c, lines)
    ensures ok ==> data.data == old(data.data) + Many(c, lines)
  {
    ghost var start := data.data;
    for k := 0 to |lines|
      invariant AllFitCodec(c, lines[..k]) && data.data == start + Many(c, lines[..k])
    {
      ok := WriteLineItem(f, c, data, lines[k]);
      if !ok {
        return;
      }
      PrefixMany(c, lines, k);
    }
    ok := true;
    assert lines[..|lines|] == lines;
  }

  method WriteLines(ghost f: Format, data: WriteBuffer, lines: Lines) returns (ok: bool)
    requires IsFixed(f)
    modifies data
    ensures ok <==> FitsList(f, LineItems(f), lines)
    ensures ok ==> data.data == old(data.data) + LinesBytes(f, lines)
  {
    ghost var before := data.data;
    ok := PutInt(f, data, |lines|);
    if !ok {
      return;
    }
    ok := WriteLineItems(f, LineItems(f), data, lines);
    Assoc(before, f.intBytes(|lines|), Many(LineItems(f), lines));
  }

  method WriteLine(ghost f: Format, data: WriteBuffer, entry: (int, seq<Str>)) returns (ok: bool)
    requires IsFixed(f)
    modifies data
    ensures ok <==> FitsLine(f, entry)
    ensures ok ==> data.data == old(data.data) + LineBytes(f, entry)
  {
    ghost var before := data.data;
    ok := WriteInt(f, data, entry.0);
    if ok {
      ok := WriteStrList(f, data, LIST_STR, entry.1);
      Assoc(before, IntField(f, entry.0), ListField(f, LIST_STR, StrItems(f), entry.1));
    }
  }

  /** Packs flags bit by bit; an assertion refuses more than 26. */
  method WriteFlags(ghost f: Format, data: WriteBuffer, flags: seq<bool>) returns (ok: bool)
    requires IsFixed(f) && |flags| <= 26
    modifies data
    ensures ok <==> f.fitsInt(Packed(flags))
    ensures ok ==> data.data == old(data.data) + FlagsBytes(f, flags)
  {
    var packed, bit := 0, 1;
    for i := 0 to |flags|
      invariant packed == Packed(flags[..i]) && bit == Power(i) && data.data == old(data.data)
    {
      assert flags[..i + 1] == flags[..i] + [flags[i]];
      PackedNext(flags[..i], flags[i]);
      if flags[i] {
        packed := packed + bit;
      }
      bit := 2 * bit;
    }
    assert flags[..|flags|] == flags;
    assert packed == Packed(flags);
    ok := WriteInt(f, data, packed);
  }

  lemma {:induction false} PackedNext(flags: seq<bool>, flag: bool)
    ensures Packed(flags + [flag]) == Packed(flags) + if flag then Power(|flags|) else 0
  {
    var all := flags + [flag];
    if flags == [] {
      assert all[1..] == [];
      assert Packed(all[1..]) == 0;
    } else {
      assert all[0] == flags[0] && all[1..] == flags[1..] + [flag];
      PackedNext(flags[1..], flag);
    }
  }

  method WriteError(ghost f: Format, data: WriteBuffer, e: ErrorTuple) returns (ok: bool)
    requires IsFixed(f)
    modifies data
    ensures ok <==> FitsError(f, e)
    ensures ok ==> data.data == old(data.data) + ErrorBytes(f, e)
  {
    ghost var before := data.data;
    data.WriteTag(TUPLE_GEN);
    ok := WriteOptStr(f, data, e.path);
    if !ok { return; }
    ok := WritePlace(f, data, e);
    if !ok { return; }
    ok := WriteTaggedStr(f, data, LITERAL_STR, e.severity);
    if !ok { return; }
    ok := WriteTaggedStr(f, data, LITERAL_STR, e.message);
    if !ok { return; }
    ok := WriteOptStr(f, data, e.code);
    SixWritten(before, [TUPLE_GEN], OptStr(f, e.path), PlaceBytes(f, e), TaggedStr(f, LITERAL_STR, e.severity),
               TaggedStr(f, LITERAL_STR, e.message), OptStr(f, e.code));
  }

  method WritePlace(ghost f: Format, data: WriteBuffer, e: ErrorTuple) returns (ok: bool)
    requires IsFixed(f)
    modifies data
    ensures ok <==> f.fitsInt(e.line) && f.fitsInt(e.column) && f.fitsInt(e.endLine) && f.fitsInt(e.endColumn)
    ensures ok ==> data.data == old(data.data) + PlaceBytes(f, e)
  {
    ghost var before := data.data;
    ok := WriteInt(f, data, e.line);
    if !ok { return; }
    ok := WriteInt(f, data, e.column);
    if !ok { return; }
    ok := WriteInt(f, data, e.endLine);
    if !ok { return; }
    ok := WriteInt(f, data, e.endColumn);
    FourWritten(before, IntField(f, e.line), IntField(f, e.column), IntField(f, e.endLine), IntField(f, e.endColumn));
  }

  lemma FourWritten(before: Bytes, a: Bytes, b: Bytes, c: Bytes, d: Bytes)
    ensures before + a + b + c + d == before + (a + (b + (c + d)))
  {
    Assoc(before, a, b + (c + d));
    Assoc(before + a, b, c + d);
    Assoc(before + a + b, c, d);
  }

  lemma SixWritten(before: Bytes, a: Bytes, b: Bytes, c: Bytes, d: Bytes, e: Bytes, g: Bytes)
    ensures before + a + b + c + d + e + g == before + (a + (b + (c + (d + (e + g)))))
  {
    FourWritten(before, a, b, c, d + (e + g));
    FourWritten(before + a + b + c, d, e, g, []);
    assert g + [] == g && before + a + b + c + d + e + g + [] == before + a + b + c + d + e + g;
  }

  /** c writes what is written below; nothing else about it is needed. */
  ghost predicate WritesErrors(f: Format, c: Codec<ErrorTuple>) {
    && (forall e {:trigger FitsError(f, e)} :: c.fits(e) <==> FitsError(f, e))
    && (forall e {:trigger ErrorBytes(f, e)} :: c.bytes(e) == ErrorBytes(f, e))
  }

  method WriteErrorItem(ghost f: Format, ghost c: Codec<ErrorTuple>, data: WriteBuffer, e: ErrorTuple)
    returns (ok: bool)
    requires IsFixed(f) && WritesErrors(f, c)
    modifies data
    ensures ok <==> c.fits(e)
    ensures ok ==> data.data == old(data.data) + c.bytes(e)
  {
    ok := WriteError(f, data, e);
  }

  method WriteErrorItems(ghost f: Format, ghost c: Codec<ErrorTuple>, data: WriteBuffer, errors: seq<ErrorTuple>)
    returns (ok: bool)
    requires IsFixed(f) && WritesErrors(f, c)
    modifies data
    ensures ok <==> AllFitCodec(c, errors)
    ensures ok ==> data.data == old(data.data) + Many(c, errors)
  {
    ghost var start := data.data;
    for k := 0 to |errors|
      invariant AllFitCodec(c, errors[..k]) && data.data == start + Many(c, errors[..k])
    {
      ok := WriteErrorItem(f, c, data, errors[k]);
      if !ok {
        return;
      }
      PrefixMany(c, errors, k);
    }
    ok := true;
    assert errors[..|errors|] == errors;
  }

  method WriteErrors(ghost f: Format, data: WriteBuffer, errors: seq<ErrorTuple>) returns (ok: bool)
    requires IsFixed(f)
    modifies data
    ensures ok <==> FitsList(f, ErrorItems(f), errors)
    ensures ok ==> data.data == old(data.data) + ListField(f, LIST_GEN, ErrorItems(f), errors)
  {
    ghost var before := data.data;
    ok := WriteHeader(f, data, LIST_GEN, |errors|);
    if !ok {
      return;
    }
    ok := WriteErrorItems(f, ErrorItems(f), data, errors);
    Assoc(before, Header(f, LIST_GEN, |errors|), Many(ErrorItems(f), errors));
  }

  method WriteSource(ghost f: Format, data: WriteBuffer, m: CacheMeta) returns (ok: bool)
    requires IsFixed(f)
    modifies data
    ensures ok <==> FitsSource(f, m)
    ensures ok ==> data.data == old(data.data) + SourceBytes(f, m)
  {
    ghost var before := data.data;
    ok := WriteTaggedStr(f, data, LITERAL_STR, m.id);
    if !ok { return; }
    ok := WriteTaggedStr(f, data, LITERAL_STR, m.path);
    if !ok { return; }
    ok := WriteInt(f, data, m.mtime);
    if !ok { return; }
    ok := WriteInt(f, data, m.size);
    if !ok { return; }
    ok := WriteTaggedStr(f, data, LITERAL_STR, m.hash);
    SixWritten(before, TaggedStr(f, LITERAL_STR, m.id), TaggedStr(f, LITERAL_STR, m.path), IntField(f, m.mtime),
               IntField(f, m.size), TaggedStr(f, LITERAL_STR, m.hash), []);
    assert TaggedStr(f, LITERAL_STR, m.hash) + [] == TaggedStr(f, LITERAL_STR, m.hash);
  }

  method WriteImports(ghost f: Format, data: WriteBuffer, m: CacheMeta) returns (ok: bool)
    requires IsFixed(f) && DistinctLines(m.importsIgnored)
    modifies data
    ensures ok <==> FitsImports(f, m)
    ensures ok ==> data.data == old(data.data) + ImportsBytes(f, m)
  {
    ghost var before := data.data;
    ok := WriteStrList(f, data, LIST_STR, m.dependencies);
    if !ok { return; }
    ok := WriteInt(f, data, m.dataMtime);
    if !ok { return; }
    ok := WriteStrList(f, data, LIST_STR, m.suppressed);
    if !ok { return; }
    ok := WriteLines(f, data, m.importsIgnored);
    FourWritten(before, ListField(f, LIST_STR, StrItems(f), m.dependencies), IntField(f, m.dataMtime),
                ListField(f, LIST_STR, StrItems(f), m.suppressed), LinesBytes(f, m.importsIgnored));
  }

  method WriteOptions(ghost f: Format, data: WriteBuffer, m: CacheMeta) returns (ok: bool)
    requires IsFixed(f)
    modifies data
    ensures ok <==> FitsOptions(f, m)
    ensures ok ==> data.data == old(data.data) + OptionsBytes(f, m)
  {
    ghost var before := data.data;
    ok := WriteJson(f, data, JDict(m.options));
    if !ok { return; }
    ok := WriteTaggedStr(f, data, LITERAL_BYTES, m.suppressedDepsOpts);
    if !ok { return; }
    ok := WriteIntList(f, data, m.depPrios);
    if !ok { return; }
    ok := WriteIntList(f, data, m.depLines);
    FourWritten(before, JsonBytes(f, JDict(m.options)), TaggedStr(f, LITERAL_BYTES, m.suppressedDepsOpts),
                ListField(f, LIST_INT, IntItems(f), m.depPrios), ListField(f, LIST_INT, IntItems(f), m.depLines));
  }

  method WriteHashes(ghost f: Format, data: WriteBuffer, m: CacheMeta) returns (ok: bool)
    requires IsFixed(f)
    modifies data
    ensures ok <==> FitsHashes(f, m)
    ensures ok ==> data.data == old(data.data) + HashesBytes(f, m)
  {
    ghost var before := data.data;
    ok := WriteStrList(f, data, LIST_BYTES, m.depHashes);
    if !ok { return; }
    ok := WriteTaggedStr(f, data, LITERAL_BYTES, m.interfaceHash);
    if !ok { return; }
    ok := WriteTaggedStr(f, data, LITERAL_BYTES, m.transDepHash);
    if !ok { return; }
    ok := WriteTaggedStr(f, data, LITERAL_STR, m.versionId);
    if !ok { return; }
    WriteBool(data, m.ignoreAll);
    ok := WriteJsonValue(f, data, m.pluginData);
    SixWritten(before, ListField(f, LIST_BYTES, StrItems(f), m.depHashes), TaggedStr(f, LITERAL_BYTES, m.interfaceHash),
               TaggedStr(f, LITERAL_BYTES, m.transDepHash), TaggedStr(f, LITERAL_STR, m.versionId),
               BoolField(m.ignoreAll), JsonBytes(f, m.pluginData));
  }

  /** The keys of a dictionary are distinct. */
  method WriteMeta(ghost f: Format, data: WriteBuffer, m: CacheMeta) returns (ok: bool)
    requires IsFixed(f) && DistinctLines(m.importsIgnored)
    modifies data
    ensures ok <==> FitsMeta(f, m)
    ensures ok ==> data.data == old(data.data) + MetaBytes(f, m)
  {
    ghost var before := data.data;
    ok := WriteSource(f, data, m);
    if !ok { return; }
    ok := WriteImports(f, data, m);
    if !ok { return; }
    ok := WriteOptions(f, data, m);
    if !ok { return; }
    ok := WriteHashes(f, data, m);
    FourWritten(before, SourceBytes(f, m), ImportsBytes(f, m), OptionsBytes(f, m), HashesBytes(f, m));
  }

  method WriteMetaEx(ghost f: Format, data: WriteBuffer, m: CacheMetaEx) returns (ok: bool)
    requires IsFixed(f)
    modifies data
    ensures ok <==> FitsMetaEx(f, m)
    ensures ok ==> data.data == old(data.data) + MetaExBytes(f, m)
  {
    ghost var before := data.data;
    ok := WriteStrList(f, data, LIST_STR, m.dependencies);
    if !ok { return; }
    ok := WriteStrList(f, data, LIST_STR, m.suppressed);
    if !ok { return; }
    ok := WriteStrList(f, data, LIST_BYTES, m.depHashes);
    if !ok { return; }
    ok := WriteErrors(f, data, m.errorLines);
    FourWritten(before, ListField(f, LIST_STR, StrItems(f), m.dependencies),
        ListField(f, LIST_STR, StrItems(f), m.suppressed),
                ListField(f, LIST_BYTES, StrItems(f), m.depHashes),
                    ListField(f, LIST_GEN, ErrorItems(f), m.errorLines));
  }

  // The readers. None stands for the errors that make a reader give up on the file.

  method ReadHeader(ghost f: Format, data: ReadBuffer, tag: byte) returns (r: Option<int>)
    requires IsFixed(f) && data.Valid()
    modifies data
    ensures data.Valid()
    ensures data.Matches(ParseHeader(f, tag, old(data.Rest())), r)
  {
    var found := data.ReadTag();
    if found != Some(tag) {
      return None;
    }
    r := GetInt(f, data);
  }

  method ReadTaggedStr(ghost f: Format, data: ReadBuffer, tag: byte) returns (r: Option<Str>)
    requires IsFixed(f) && data.Valid()
    modifies data
    ensures data.Valid()
    ensures data.Matches(ParseTaggedStr(f, tag, old(data.Rest())), r)
  {
    var found := data.ReadTag();
    if found != Some(tag) {
      return None;
    }
    r := GetStr(f, data);
  }

  method ReadBool(data: ReadBuffer) returns (r: Option<bool>)
    requires data.Valid()
    modifies data
    ensures data.Valid()
    ensures data.Matches(ParseBool(old(data.Rest())), r)
  {
    var found := data.ReadTag();
    if found != Some(LITERAL_FALSE) && found != Some(LITERAL_TRUE) {
      return None;
    }
    r := Some(found.value == LITERAL_TRUE);
  }

  method ReadOptStr(ghost f: Format, data: ReadBuffer) returns (r: Option<Option<Str>>)
    requires IsFixed(f) && data.Valid()
    modifies data
    ensures data.Valid()
    ensures data.Matches(ParseOptStr(f, old(data.Rest())), r)
  {
    var found := data.ReadTag();
    if found == Some(LITERAL_NONE) {
      return Some(None);
    }
    if found != Some(LITERAL_STR) {
      return None;
    }
    var s := GetStr(f, data);
    if s.None? {
      return None;
    }
    r := Some(s);
  }

  /** What reading the later items adds to the earlier ones. */
  function AfterMany<T>(items: seq<T>, later: Parsed<seq<T>>): Parsed<seq<T>> {
    if later.Ok? then Ok(items + later.value, later.rest) else Err
  }

  lemma AfterNoItems<T>(p: Parsed<seq<T>>)
    ensures AfterMany([], p) == p
  {
    if p.Ok? {
      assert [] + p.value == p.value;
    }
  }

  lemma AfterOneMore<T>(c: Codec<T>, items: seq<T>, n: nat, b: Bytes)
    requires n > 0
    ensures var first := c.parse(b);
            AfterMany(items, ParseMany(c, n, b)) == if first.Ok?
                then AfterMany(items + [first.value], ParseMany(c, n - 1, first.rest)) else Err
  {
    var first := c.parse(b);
    if first.Ok? && ParseMany(c, n - 1, first.rest).Ok? {
      var later := ParseMany(c, n - 1, first.rest).value;
      assert items + ([first.value] + later) == (items + [first.value]) + later;
    }
  }

  method ReadStrs(ghost f: Format, data: ReadBuffer, size: int) returns (r: Option<seq<Str>>)
    requires IsFixed(f) && data.Valid()
    modifies data
    ensures data.Valid()
    ensures data.Matches(ParseMany(StrItems(f), size, old(data.Rest())), r)
  {
    ghost var start := data.Rest();
    var items := [];
    var left := size;
    AfterNoItems(ParseMany(StrItems(f), left, start));
    while left > 0
      invariant data.Valid() && AfterMany(items, ParseMany(StrItems(f), left, data.Rest()))
                == ParseMany(StrItems(f), size, start)
      decreases left
    {
      AfterOneMore(StrItems(f), items, left, data.Rest());
      var item := GetStr(f, data);
      if item.None? {
        return None;
      }
      items := items + [item.value];
      left := left - 1;
    }
    assert items + [] == items;
    r := Some(items);
  }

  method ReadInts(ghost f: Format, data: ReadBuffer, size: int) returns (r: Option<seq<int>>)
    requires IsFixed(f) && data.Valid()
    modifies data
    ensures data.Valid()
    ensures data.Matches(ParseMany(IntItems(f), size, old(data.Rest())), r)
  {
    ghost var start := data.Rest();
    var items := [];
    var left := size;
    AfterNoItems(ParseMany(IntItems(f), left, start));
    while left > 0
      invariant data.Valid() && AfterMany(items, ParseMany(IntItems(f), left, data.Rest()))
                == ParseMany(IntItems(f), size, start)
      decreases left
    {
      AfterOneMore(IntItems(f), items, left, data.Rest());
      var item := GetInt(f, data);
      if item.None? {
        return None;
      }
      items := items + [item.value];
      left := left - 1;
    }
    assert items + [] == items;
    r := Some(items);
  }

  method ReadStrList(ghost f: Format, data: ReadBuffer, tag: byte) returns (r: Option<seq<Str>>)
    requires IsFixed(f) && data.Valid()
    modifies data
    ensures data.Valid()
    ensures data.Matches(ParseList(f, tag, StrItems(f), old(data.Rest())), r)
  {
    var size := ReadHeader(f, data, tag);
    if size.None? {
      return None;
    }
    r := ReadStrs(f, data, size.value);
  }

  method ReadIntList(ghost f: Format, data: ReadBuffer) returns (r: Option<seq<int>>)
    requires IsFixed(f) && data.Valid()
    modifies data
    ensures data.Valid()
    ensures data.Matches(ParseList(f, LIST_INT, IntItems(f), old(data.Rest())), r)
  {
    var size := ReadHeader(f, data, LIST_INT);
    if size.None? {
      return None;
    }
    r := ReadInts(f, data, size.value);
  }

  method ReadFlags(ghost f: Format, data: ReadBuffer, n: nat) returns (r: Option<seq<bool>>)
    requires IsFixed(f) && data.Valid()
    modifies data
    ensures data.Valid()
    ensures data.Matches(ParseFlags(f, n, old(data.Rest())), r)
  {
    var packed := ReadHeader(f, data, LITERAL_INT);
    if packed.None? {
      return None;
    }
    r := Some(seq(n, i requires 0 <= i < n => Bit(packed.value, i)));
    assert r.value == Unpacked(packed.value, n);
  }

  method ReadPlace(ghost f: Format, data: ReadBuffer) returns (r: Option<(int, int, int, int)>)
    requires IsFixed(f) && data.Valid()
    modifies data
    ensures data.Valid()
    ensures data.Matches(ParsePlace(f, old(data.Rest())), r)
  {
    var line := ReadHeader(f, data, LITERAL_INT);
    if line.None? { return None; }
    var column := ReadHeader(f, data, LITERAL_INT);
    if column.None? { return None; }
    var endLine := ReadHeader(f, data, LITERAL_INT);
    if endLine.None? { return None; }
    var endColumn := ReadHeader(f, data, LITERAL_INT);
    if endColumn.None? { return None; }
    r := Some((line.value, column.value, endLine.value, endColumn.value));
  }

  method ReadError(ghost f: Format, data: ReadBuffer) returns (r: Option<ErrorTuple>)
    requires IsFixed(f) && data.Valid()
    modifies data
    ensures data.Valid()
    ensures data.Matches(ParseError(f, old(data.Rest())), r)
  {
    var found := data.ReadTag();
    if found != Some(TUPLE_GEN) { return None; }
    var path := ReadOptStr(f, data);
    if path.None? { return None; }
    var place := ReadPlace(f, data);
    if place.None? { return None; }
    var severity := ReadTaggedStr(f, data, LITERAL_STR);
    if severity.None? { return None; }
    var message := ReadTaggedStr(f, data, LITERAL_STR);
    if message.None? { return None; }
    var code := ReadOptStr(f, data);
    if code.None? { return None; }
    var at := place.value;
    r := Some(ErrorTuple(path.value, at.0, at.1, at.2, at.3, severity.value, message.value, code.value));
  }

  ghost predicate ReadsErrors(f: Format, c: Codec<ErrorTuple>) {
    forall b {:trigger ParseError(f, b)} :: c.parse(b) == ParseError(f, b)
  }

  method ReadErrorItem(ghost f: Format, ghost c: Codec<ErrorTuple>, data: ReadBuffer) returns (r: Option<ErrorTuple>)
    requires IsFixed(f) && ReadsErrors(f, c) && data.Valid()
    modifies data
    ensures data.Valid()
    ensures data.Matches(c.parse(old(data.Rest())), r)
  {
    r := ReadError(f, data);
  }

  method ReadErrorItems(ghost f: Format, ghost c: Codec<ErrorTuple>, data: ReadBuffer, size: int)
    returns (r: Option<seq<ErrorTuple>>)
    requires IsFixed(f) && ReadsErrors(f, c) && data.Valid()
    modifies data
    ensures data.Valid()
    ensures data.Matches(ParseMany(c, size, old(data.Rest())), r)
  {
    ghost var start := data.Rest();
    var items := [];
    var left := size;
    AfterNoItems(ParseMany(c, left, start));
    while left > 0
      invariant data.Valid() && AfterMany(items, ParseMany(c, left, data.Rest())) == ParseMany(c, size, start)
      decreases left
    {
      AfterOneMore(c, items, left, data.Rest());
      var item := ReadErrorItem(f, c, data);
      if item.None? {
        return None;
      }
      items := items + [item.value];
      left := left - 1;
    }
    assert items + [] == items;
    r := Some(items);
  }

  method ReadErrors(ghost f: Format, data: ReadBuffer) returns (r: Option<seq<ErrorTuple>>)
    requires IsFixed(f) && data.Valid()
    modifies data
    ensures data.Valid()
    ensures data.Matches(ParseList(f, LIST_GEN, ErrorItems(f), old(data.Rest())), r)
  {
    var size := ReadHeader(f, data, LIST_GEN);
    if size.None? {
      return None;
    }
    r := ReadErrorItems(f, ErrorItems(f), data, size.value);
  }

  method ReadLine(ghost f: Format, ghost c: Codec<(int, seq<Str>)>, data: ReadBuffer)
    returns (r: Option<(int, seq<Str>)>)
    requires IsFixed(f) && ReadsLines(f, c) && data.Valid()
    modifies data
    ensures data.Valid()
    ensures data.Matches(c.parse(old(data.Rest())), r)
  {
    ghost var start := data.Rest();
    var line := ReadHeader(f, data, LITERAL_INT);
    if line.None? {
      assert ParseLine(f, start).Err?;
      return None;
    }
    var codes := ReadStrList(f, data, LIST_STR);
    if codes.None? {
      assert ParseLine(f, start).Err?;
      return None;
    }
    r := Some((line.value, codes.value));
    assert ParseLine(f, start) == Ok(r.value, data.Rest());
  }

  ghost predicate ReadsLines(f: Format, c: Codec<(int, seq<Str>)>) {
    forall b {:trigger ParseLine(f, b)} :: c.parse(b) == ParseLine(f, b)
  }

  lemma DictOfNext(entries: Lines, k: nat)
    requires k < |entries|
    ensures DictOf(entries[..k + 1]) == SetLine(DictOf(entries[..k]), entries[k].0, entries[k].1)
  {
    assert entries[..k + 1][..k] == entries[..k];
  }

  /** Builds the dictionary entry by entry. */
  method BuildLines(entries: Lines) returns (lines: Lines)
    ensures lines == DictOf(entries)
  {
    lines := [];
    for k := 0 to |entries|
      invariant lines == DictOf(entries[..k])
    {
      DictOfNext(entries, k);
      lines := SetLine(lines, entries[k].0, entries[k].1);
    }
    assert entries[..|entries|] == entries;
  }

  method ReadLineItems(ghost f: Format, ghost c: Codec<(int, seq<Str>)>, data: ReadBuffer, size: int)
    returns (r: Option<Lines>)
    requires IsFixed(f) && ReadsLines(f, c) && data.Valid()
    modifies data
    ensures data.Valid()
    ensures data.Matches(ParseMany(c, size, old(data.Rest())), r)
  {
    ghost var start := data.Rest();
    var items := [];
    var left := size;
    AfterNoItems(ParseMany(c, left, start));
    while left > 0
      invariant data.Valid() && AfterMany(items, ParseMany(c, left, data.Rest())) == ParseMany(c, size, start)
      decreases left
    {
      AfterOneMore(c, items, left, data.Rest());
      var item := ReadLine(f, c, data);
      if item.None? {
        return None;
      }
      items := items + [item.value];
      left := left - 1;
    }
    assert items + [] == items;
    r := Some(items);
  }

  method ReadLines(ghost f: Format, data: ReadBuffer) returns (r: Option<Lines>)
    requires IsFixed(f) && data.Valid()
    modifies data
    ensures data.Valid()
    ensures data.Matches(ParseLines(f, old(data.Rest())), r)
  {
    var size := GetInt(f, data);
    if size.None? {
      return None;
    }
    var entries := ReadLineItems(f, LineItems(f), data, size.value);
    if entries.None? {
      return None;
    }
    var lines := BuildLines(entries.value);
    r := Some(lines);
  }

  method ReadJson(ghost f: Format, data: ReadBuffer) returns (r: Option<map<Str, Json>>)
    requires IsFixed(f) && Consumes(f) && data.Valid()
    modifies data
    ensures data.Valid()
    ensures data.Matches(ParseDict(f, old(data.Rest())), r)
  {
    var size := ReadHeader(f, data, DICT_STR_GEN);
    if size.None? {
      return None;
    }
    r := ReadEntries(f, data, size.value);
  }

  method ReadSource(ghost f: Format, data: ReadBuffer) returns (r: Option<(Str, Str, int, int, Str)>)
    requires IsFixed(f) && data.Valid()
    modifies data
    ensures data.Valid()
    ensures data.Matches(ParseSource(f, old(data.Rest())), r)
  {
    var id := ReadTaggedStr(f, data, LITERAL_STR);
    if id.None? { return None; }
    var path := ReadTaggedStr(f, data, LITERAL_STR);
    if path.None? { return None; }
    var mtime := ReadHeader(f, data, LITERAL_INT);
    if mtime.None? { return None; }
    var size := ReadHeader(f, data, LITERAL_INT);
    if size.None? { return None; }
    var hash := ReadTaggedStr(f, data, LITERAL_STR);
    if hash.None? { return None; }
    r := Some((id.value, path.value, mtime.value, size.value, hash.value));
  }

  method ReadImports(ghost f: Format, data: ReadBuffer) returns (r: Option<(seq<Str>, int, seq<Str>, Lines)>)
    requires IsFixed(f) && data.Valid()
    modifies data
    ensures data.Valid()
    ensures data.Matches(ParseImports(f, old(data.Rest())), r)
  {
    var dependencies := ReadStrList(f, data, LIST_STR);
    if dependencies.None? { return None; }
    var dataMtime := ReadHeader(f, data, LITERAL_INT);
    if dataMtime.None? { return None; }
    var suppressed := ReadStrList(f, data, LIST_STR);
    if suppressed.None? { return None; }
    var importsIgnored := ReadLines(f, data);
    if importsIgnored.None? { return None; }
    r := Some((dependencies.value, dataMtime.value, suppressed.value, importsIgnored.value));
  }

  method ReadOptions(ghost f: Format, data: ReadBuffer) returns (r: Option<(map<Str, Json>, Bytes, seq<int>, seq<int>)>)
    requires IsFixed(f) && Consumes(f) && data.Valid()
    modifies data
    ensures data.Valid()
    ensures data.Matches(ParseOptions(f, old(data.Rest())), r)
  {
    var options := ReadJson(f, data);
    if options.None? { return None; }
    var suppressedDepsOpts := ReadTaggedStr(f, data, LITERAL_BYTES);
    if suppressedDepsOpts.None? { return None; }
    var depPrios := ReadIntList(f, data);
    if depPrios.None? { return None; }
    var depLines := ReadIntList(f, data);
    if depLines.None? { return None; }
    r := Some((options.value, suppressedDepsOpts.value, depPrios.value, depLines.value));
  }

  method ReadHashes(ghost f: Format, data: ReadBuffer) returns (r: Option<(seq<Bytes>, Bytes, Bytes, Str, bool, Json)>)
    requires IsFixed(f) && Consumes(f) && data.Valid()
    modifies data
    ensures data.Valid()
    ensures data.Matches(ParseHashes(f, old(data.Rest())), r)
  {
    var depHashes := ReadStrList(f, data, LIST_BYTES);
    if depHashes.None? { return None; }
    var interfaceHash := ReadTaggedStr(f, data, LITERAL_BYTES);
    if interfaceHash.None? { return None; }
    var transDepHash := ReadTaggedStr(f, data, LITERAL_BYTES);
    if transDepHash.None? { return None; }
    var versionId := ReadTaggedStr(f, data, LITERAL_STR);
    if versionId.None? { return None; }
    var ignoreAll := ReadBool(data);
    if ignoreAll.None? { return None; }
    var pluginData := ReadJsonValue(f, data);
    if pluginData.None? { return None; }
    r := Some((depHashes.value, interfaceHash.value, transDepHash.value, versionId.value, ignoreAll.value,
        pluginData.value));
  }

  method ReadMeta(ghost f: Format, data: ReadBuffer) returns (r: Option<CacheMeta>)
    requires IsFixed(f) && Consumes(f) && data.Valid()
    modifies data
    ensures data.Valid()
    ensures data.Matches(ParseMeta(f, old(data.Rest())), r)
  {
    var source := ReadSource(f, data);
    if source.None? { return None; }
    var imports := ReadImports(f, data);
    if imports.None? { return None; }
    var options := ReadOptions(f, data);
    if options.None? { return None; }
    var hashes := ReadHashes(f, data);
    if hashes.None? { return None; }
    var s, i, o, h := source.value, imports.value, options.value, hashes.value;
    r := Some(CacheMeta(s.0, s.1, s.2, s.3, s.4, i.0, i.1, i.2, i.3, o.0, o.1, o.2, o.3, h.0, h.1, h.2, h.3, h.4, h.5));
  }

  method ReadMetaEx(ghost f: Format, data: ReadBuffer) returns (r: Option<CacheMetaEx>)
    requires IsFixed(f) && data.Valid()
    modifies data
    ensures data.Valid()
    ensures data.Matches(ParseMetaEx(f, old(data.Rest())), r)
  {
    var dependencies := ReadStrList(f, data, LIST_STR);
    if dependencies.None? { return None; }
    var suppressed := ReadStrList(f, data, LIST_STR);
    if suppressed.None? { return None; }
    var depHashes := ReadStrList(f, data, LIST_BYTES);
    if depHashes.None? { return None; }
    var errorLines := ReadErrors(f, data);
    if errorLines.None? { return None; }
    r := Some(CacheMetaEx(dependencies.value, suppressed.value, depHashes.value, errorLines.value));
  }

  // Writing and reading together.

  /** What one buffer holds after writing metadata, another reads back. */
  method SaveAndLoadMeta(ghost f: Format, m: CacheMeta) returns (saved: bool, loaded: Option<CacheMeta>)
    requires IsFixed(f) && Delimits(f) && DistinctLines(m.importsIgnored)
    ensures saved <==> FitsMeta(f, m)
    ensures saved ==> loaded == Some(m)
  {
    loaded := None;
    var output := new WriteBuffer();
    saved := WriteMeta(f, output, m);
    if saved {
      var input := new ReadBuffer(output.data);
      WholeBuffer(MetaBytes(f, m));
      MetaRoundTrip(f, m, []);
      loaded := ReadMeta(f, input);
    }
  }

  method SaveAndLoadMetaEx(ghost f: Format, m: CacheMetaEx) returns (saved: bool, loaded: Option<CacheMetaEx>)
    requires IsFixed(f) && Delimits(f)
    ensures saved <==> FitsMetaEx(f, m)
    ensures saved ==> loaded == Some(m)
  {
    loaded := None;
    var output := new WriteBuffer();
    saved := WriteMetaEx(f, output, m);
    if saved {
      var input := new ReadBuffer(output.data);
      WholeBuffer(MetaExBytes(f, m));
      MetaExRoundTrip(f, m, []);
      loaded := ReadMetaEx(f, input);
    }
  }

  lemma WholeBuffer(b: Bytes)
    ensures [] + b == b + []
  {
  }

  /** The fixed format is one to which all of this applies. */
  lemma FixedApplies() returns (f: Format)
    ensures IsFixed(f) && Delimits(f)
  {
    f := Fixed();
    FixedIsFixed();
    FixedDelimits(f);
  }
}
