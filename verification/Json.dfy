// JSON values in the fixed format. Lists and tuples are told apart, and dictionaries are written
// with their keys in order.
module Json {
  import opened Text
  import opened Wire

  const LITERAL_FALSE: byte := 0
  const LITERAL_TRUE: byte := 1
  const LITERAL_NONE: byte := 2
  const LITERAL_INT: byte := 3
  const LITERAL_STR: byte := 4
  const LITERAL_BYTES: byte := 5
  const LITERAL_FLOAT: byte := 6
  const LIST_GEN: byte := 20
  const LIST_INT: byte := 21
  const LIST_STR: byte := 22
  const LIST_BYTES: byte := 23
  const TUPLE_GEN: byte := 24
  const DICT_STR_GEN: byte := 30

  /** A float is its eight bytes. */
  type Float = b: Bytes | |b| == 8 witness [0, 0, 0, 0, 0, 0, 0, 0]

  datatype Json =
    | JNull
    | JBool(b: bool)
    | JInt(i: int)
    | JFloat(f: Float)
    | JStr(s: Str)
    | JList(items: seq<Json>)
    | JTuple(items: seq<Json>)
    | JDict(entries: map<Str, Json>)

  /** All parts are within the limits of the format. */
  ghost predicate FitsJson(f: Format, j: Json) {
    match j
    case JNull | JBool(_) | JFloat(_) => true
    case JInt(i) => f.fitsInt(i)
    case JStr(s) => f.fitsStr(s)
    case JList(items) => f.fitsInt(|items|) && FitAll(f, items)
    case JTuple(items) => f.fitsInt(|items|) && FitAll(f, items)
    case JDict(entries) => f.fitsInt(|entries|) && forall k | k in entries :: f.fitsStr(k) && FitsJson(f, entries[k])
  }

  ghost predicate FitAll(f: Format, items: seq<Json>) {
    forall i | 0 <= i < |items| :: FitsJson(f, items[i])
  }

  /** The tag and the size of a collection. */
  ghost function Header(f: Format, tag: byte, size: nat): Bytes {
    [tag] + f.intBytes(size)
  }

  ghost function IntField(f: Format, i: int): Bytes {
    [LITERAL_INT] + f.intBytes(i)
  }

  ghost function StrField(f: Format, s: Str): Bytes {
    [LITERAL_STR] + f.strBytes(s)
  }

  ghost function BoolField(b: bool): Bytes {
    [if b then LITERAL_TRUE else LITERAL_FALSE]
  }

  ghost function JsonBytes(f: Format, j: Json): Bytes
    decreases j
  {
    match j
    case JNull => [LITERAL_NONE]
    case JBool(b) => BoolField(b)
    case JInt(i) => IntField(f, i)
    case JFloat(x) => [LITERAL_FLOAT] + x
    case JStr(s) => StrField(f, s)
    case JList(items) => Header(f, LIST_GEN, |items|) + ItemsBytes(f, items)
    case JTuple(items) => Header(f, TUPLE_GEN, |items|) + ItemsBytes(f, items)
    case JDict(entries) => Header(f, DICT_STR_GEN, |entries|) + EntriesBytes(f, j, Sorted(entries.Keys))
  }

  ghost function ItemsBytes(f: Format, items: seq<Json>): Bytes
    decreases items
  {
    if items == [] then [] else JsonBytes(f, items[0]) + ItemsBytes(f, items[1..])
  }

  /** The entries of a dictionary under these keys. */
  ghost function EntriesBytes(f: Format, j: Json, keys: seq<Str>): Bytes
    requires j.JDict? && forall k | k in keys :: k in j.entries
    decreases j, 0, |keys|
  {
    if keys == [] then []
    else f.strBytes(keys[0]) + (JsonBytes(f, j.entries[keys[0]]) + EntriesBytes(f, j, keys[1..]))
  }

  // Reading.

  function ParseFloat(b: Bytes): (r: Parsed<Float>)
    ensures r.Ok? ==> |r.rest| < |b|
  {
    if |b| < 8 then Err else Ok(b[..8], b[8..])
  }

  /** Reads a value whose tag has been read. */
  function ParseTagged(f: Format, tag: byte, b: Bytes): (r: Parsed<Json>)
    requires Consumes(f)
    ensures r.Ok? ==> |r.rest| <= |b|
    decreases |b|, 1, 0
  {
    if tag == LITERAL_NONE then Ok(JNull, b)
    else if tag == LITERAL_FALSE then Ok(JBool(false), b)
    else if tag == LITERAL_TRUE then Ok(JBool(true), b)
    else if tag == LITERAL_INT then
      var (i, rest) :- f.parseInt(b);
      Ok(JInt(i), rest)
    else if tag == LITERAL_STR then
      var (s, rest) :- f.parseStr(b);
      Ok(JStr(s), rest)
    else if tag == LIST_GEN then
      var (n, rest) :- f.parseInt(b);
      var (items, after) :- ParseItems(f, n, rest);
      Ok(JList(items), after)
    else if tag == TUPLE_GEN then
      var (n, rest) :- f.parseInt(b);
      var (items, after) :- ParseItems(f, n, rest);
      Ok(JTuple(items), after)
    else if tag == DICT_STR_GEN then
      var (n, rest) :- f.parseInt(b);
      var (entries, after) :- ParseEntries(f, n, rest, map[]);
      Ok(JDict(entries), after)
    else if tag == LITERAL_FLOAT then
      var (x, rest) :- ParseFloat(b);
      Ok(JFloat(x), rest)
    else Err
  }

  function ParseJson(f: Format, b: Bytes): (r: Parsed<Json>)
    requires Consumes(f)
    ensures r.Ok? ==> |r.rest| < |b|
    decreases |b|, 0, 0
  {
    if b == [] then Err else ParseTagged(f, b[0], b[1..])
  }

  function ParseItems(f: Format, n: int, b: Bytes): (r: Parsed<seq<Json>>)
    requires Consumes(f)
    ensures r.Ok? ==> |r.rest| <= |b|
    decreases |b|, 1, n
  {
    if n <= 0 then Ok([], b)
    else
      var (first, rest) :- ParseJson(f, b);
      var (items, after) :- ParseItems(f, n - 1, rest);
      Ok([first] + items, after)
  }

  /** Later entries replace earlier ones under the same key. */
  function ParseEntries(f: Format, n: int, b: Bytes, entries: map<Str, Json>): (r: Parsed<map<Str, Json>>)
    requires Consumes(f)
    ensures r.Ok? ==> |r.rest| <= |b|
    decreases |b|, 1, n
  {
    if n <= 0 then Ok(entries, b)
    else
      var (pair, rest) :- ParsePair(f, b);
      ParseEntries(f, n - 1, rest, entries[pair.0 := pair.1])
  }

  function ParsePair(f: Format, b: Bytes): (r: Parsed<(Str, Json)>)
    requires Consumes(f)
    ensures r.Ok? ==> |r.rest| < |b|
    decreases |b|, 0, 1
  {
    var (key, rest) :- f.parseStr(b);
    var (value, after) :- ParseJson(f, rest);
    Ok((key, value), after)
  }

  // Reading undoes writing.

  lemma Assoc(a: Bytes, b: Bytes, c: Bytes)
    ensures (a + b) + c == a + (b + c)
  {
  }

  lemma TagFirst(tag: byte, body: Bytes, rest: Bytes)
    ensures (([tag] + body) + rest)[0] == tag && (([tag] + body) + rest)[1..] == body + rest
  {
  }

  lemma HeaderFirst(f: Format, tag: byte, size: nat, body: Bytes, rest: Bytes)
    requires Delimits(f) && f.fitsInt(size)
    ensures var b := Header(f, tag, size) + body + rest;
            b != [] && b[0] == tag && f.parseInt(b[1..]) == Ok(size, body + rest)
  {
    var b := Header(f, tag, size) + body + rest;
    assert b[1..] == f.intBytes(size) + (body + rest);
    assert IntDelimits(f, size, body + rest);
  }

  lemma IntFieldFirst(f: Format, i: int, rest: Bytes)
    requires Delimits(f) && f.fitsInt(i)
    ensures var b := IntField(f, i) + rest; b[0] == LITERAL_INT && f.parseInt(b[1..]) == Ok(i, rest)
  {
    TagFirst(LITERAL_INT, f.intBytes(i), rest);
    assert IntDelimits(f, i, rest);
  }

  lemma StrFieldFirst(f: Format, s: Str, rest: Bytes)
    requires Delimits(f) && f.fitsStr(s)
    ensures var b := StrField(f, s) + rest; b[0] == LITERAL_STR && f.parseStr(b[1..]) == Ok(s, rest)
  {
    TagFirst(LITERAL_STR, f.strBytes(s), rest);
    assert StrDelimits(f, s, rest);
  }

  /** Reading what was written gives the value back and takes exactly its bytes, whatever follows. */
  lemma {:induction false} JsonRoundTrip(f: Format, j: Json, rest: Bytes)
    requires Delimits(f) && FitsJson(f, j)
    ensures ParseJson(f, JsonBytes(f, j) + rest) == Ok(j, rest)
    decreases j, 2
  {
    match j
    case JNull => assert ([LITERAL_NONE] + rest)[1..] == rest;
    case JBool(b) => assert (BoolField(b) + rest)[1..] == rest;
    case JInt(i) => IntFieldFirst(f, i, rest);
    case JFloat(x) =>
      TagFirst(LITERAL_FLOAT, x, rest);
      assert (x + rest)[..8] == x && (x + rest)[8..] == rest;
    case JStr(s) => StrFieldFirst(f, s, rest);
    case JList(items) =>
      HeaderFirst(f, LIST_GEN, |items|, ItemsBytes(f, items), rest);
      ItemsRoundTrip(f, items, rest);
    case JTuple(items) =>
      HeaderFirst(f, TUPLE_GEN, |items|, ItemsBytes(f, items), rest);
      ItemsRoundTrip(f, items, rest);
    case JDict(entries) =>
      DictRoundTrip(f, j, rest);
  }

  lemma {:induction false} ItemsRoundTrip(f: Format, items: seq<Json>, rest: Bytes)
    requires Delimits(f) && FitAll(f, items)
    ensures ParseItems(f, |items|, ItemsBytes(f, items) + rest) == Ok(items, rest)
    decreases items, 0
  {
    if items == [] {
      assert ItemsBytes(f, items) + rest == rest;
    } else {
      var later := ItemsBytes(f, items[1..]) + rest;
      Assoc(JsonBytes(f, items[0]), ItemsBytes(f, items[1..]), rest);
      JsonRoundTrip(f, items[0], later);
      ItemsRoundTrip(f, items[1..], rest);
      assert [items[0]] + items[1..] == items;
    }
  }

  lemma {:induction false} DictRoundTrip(f: Format, j: Json, rest: Bytes)
    requires Delimits(f) && j.JDict? && FitsJson(f, j)
    ensures ParseJson(f, JsonBytes(f, j) + rest) == Ok(j, rest)
    decreases j, 1
  {
    var keys := Sorted(j.entries.Keys);
    HeaderFirst(f, DICT_STR_GEN, |j.entries|, EntriesBytes(f, j, keys), rest);
    SortedEntriesRoundTrip(f, j, keys, rest);
  }

  /** The dictionary built from the entries under these keys. */
  ghost function Collected(j: Json, keys: seq<Str>, entries: map<Str, Json>): map<Str, Json>
    requires j.JDict? && forall k | k in keys :: k in j.entries
    decreases |keys|
  {
    if keys == [] then entries else Collected(j, keys[1..], entries[keys[0] := j.entries[keys[0]]])
  }

  lemma {:induction false} CollectedHas(j: Json, keys: seq<Str>, entries: map<Str, Json>)
    requires j.JDict? && (forall k | k in keys :: k in j.entries)
             && (forall k | k in entries :: k in j.entries && entries[k] == j.entries[k])
    ensures var r := Collected(j, keys, entries);
            (forall k :: k in r <==> k in keys || k in entries)
                && (forall k | k in r :: k in j.entries && r[k] == j.entries[k])
    decreases |keys|
  {
    if keys != [] {
      CollectedHas(j, keys[1..], entries[keys[0] := j.entries[keys[0]]]);
      assert forall k :: k in keys <==> k == keys[0] || k in keys[1..];
    }
  }

  lemma {:induction false} SortedEntriesRoundTrip(f: Format, j: Json, keys: seq<Str>, rest: Bytes)
    requires Delimits(f) && j.JDict? && FitsJson(f, j) && |keys| == |j.entries|
             && forall k :: k in keys <==> k in j.entries
    ensures ParseEntries(f, |j.entries|, EntriesBytes(f, j, keys) + rest, map[]) == Ok(j.entries, rest)
    decreases j, 0, |keys| + 1
  {
    EntriesRoundTrip(f, j, keys, map[], rest);
    CollectedHas(j, keys, map[]);
    assert Collected(j, keys, map[]) == j.entries;
  }

  lemma {:induction false} EntriesRoundTrip(f: Format, j: Json, keys: seq<Str>, entries: map<Str, Json>, rest: Bytes)
    requires Delimits(f) && j.JDict? && FitsJson(f, j) && forall k | k in keys :: k in j.entries
    ensures ParseEntries(f, |keys|, EntriesBytes(f, j, keys) + rest, entries) == Ok(Collected(j, keys, entries), rest)
    decreases j, 0, |keys|
  {
    if keys == [] {
      assert EntriesBytes(f, j, keys) + rest == rest;
    } else {
      var value := j.entries[keys[0]];
      var later := EntriesBytes(f, j, keys[1..]) + rest;
      Assoc(f.strBytes(keys[0]), JsonBytes(f, value) + EntriesBytes(f, j, keys[1..]), rest);
      Assoc(JsonBytes(f, value), EntriesBytes(f, j, keys[1..]), rest);
      assert StrDelimits(f, keys[0], JsonBytes(f, value) + later);
      JsonRoundTrip(f, value, later);
      EntriesRoundTrip(f, j, keys[1..], entries[keys[0] := value], rest);
    }
  }

  /** Different values never have encodings one of which begins the other. */
  lemma JsonInjective(f: Format, x: Json, y: Json, r: Bytes, s: Bytes)
    requires Delimits(f) && FitsJson(f, x) && FitsJson(f, y) && JsonBytes(f, x) + r == JsonBytes(f, y) + s
    ensures x == y && r == s
  {
    JsonRoundTrip(f, x, r);
    JsonRoundTrip(f, y, s);
  }

  /** The first byte tells what kind of value follows; with two of them, there is nothing more to a boolean. */
  lemma FirstByte(f: Format, j: Json)
    ensures JsonBytes(f, j) != []
    ensures JsonBytes(f, j)[0] == match j
                                  case JBool(b) => if b then 1 else 0
                                  case JNull => 2
                                  case JInt(_) => 3
                                  case JStr(_) => 4
                                  case JFloat(_) => 6
                                  case JList(_) => 20
                                  case JTuple(_) => 24
                                  case JDict(_) => 30
    ensures JsonBytes(f, JBool(false)) == [0] && JsonBytes(f, JBool(true)) == [1] && JsonBytes(f, JNull) == [2]
  {
  }

  /** The bytes of {"b": [true, null]}: each size is written as twice ten more than it is. */
  lemma JsonExample()
    ensures JsonBytes(Fixed(), JDict(map[[98] := JList([JBool(true), JNull])])) == [30, 22, 22, 98, 20, 24, 1, 2]
  {
    var f := Fixed();
    var items := [JBool(true), JNull];
    assert f.intBytes(1) == [22] && f.intBytes(2) == [24] && f.strBytes([98]) == [22, 98];
    ExampleItems(f, items);
    ExampleEntries(f, JDict(map[[98] := JList(items)]), items);
  }

  lemma ExampleItems(f: Format, items: seq<Json>)
    requires items == [JBool(true), JNull] && f.intBytes(2) == [24]
    ensures JsonBytes(f, JList(items)) == [20, 24, 1, 2]
  {
    assert items[1..] == [JNull] && [JNull][1..] == [];
    assert ItemsBytes(f, items) == [1, 2];
  }

  lemma ExampleEntries(f: Format, j: Json, items: seq<Json>)
    requires j == JDict(map[[98] := JList(items)]) && JsonBytes(f, JList(items)) == [20, 24, 1, 2]
    requires f.intBytes(1) == [22] && f.strBytes([98]) == [22, 98]
    ensures JsonBytes(f, j) == [30, 22, 22, 98, 20, 24, 1, 2]
  {
    assert j.entries.Keys == {[98]};
    SortedUnique([[98]], {[98]});
    assert [[98]][1..] == [];
    assert EntriesBytes(f, j, [[98]]) == [22, 98] + ([20, 24, 1, 2] + []);
  }

  /**
   * A snapshot of options keeps only a digest of their encoding: if it does not collide on these two,
   * equal digests mean equal options.
   */
  lemma OptionsDigestFaithful(f: Format, digest: Bytes -> Bytes, x: Json, y: Json)
    requires IsFixed(f) && FitsJson(f, x) && FitsJson(f, y)
    requires digest(JsonBytes(f, x)) == digest(JsonBytes(f, y)) ==> JsonBytes(f, x) == JsonBytes(f, y)
    ensures digest(JsonBytes(f, x)) == digest(JsonBytes(f, y)) <==> x == y
  {
    FixedDelimits(f);
    if digest(JsonBytes(f, x)) == digest(JsonBytes(f, y)) {
      JsonInjective(f, x, y, [], []);
    }
  }

  // The writer.

  /** Writes a value, or stops with a ValueError where a part is beyond the limits. */
  method WriteJsonValue(ghost f: Format, data: WriteBuffer, j: Json) returns (ok: bool)
    requires IsFixed(f)
    modifies data
    ensures ok <==> FitsJson(f, j)
    ensures ok ==> data.data == old(data.data) + JsonBytes(f, j)
    decreases j, 2
  {
    match j {
      case JNull =>
        data.WriteTag(LITERAL_NONE);
        ok := true;
      case JBool(b) =>
        WriteBool(data, b);
        ok := true;
      case JFloat(x) =>
        data.WriteTag(LITERAL_FLOAT);
        data.data := data.data + x;
        ok := true;
      case JInt(i) =>
        ok := WriteInt(f, data, i);
      case JStr(s) =>
        ok := WriteStr(f, data, s);
      case JList(items) =>
        ok := WriteSized(f, data, LIST_GEN, items);
      case JTuple(items) =>
        ok := WriteSized(f, data, TUPLE_GEN, items);
      case JDict(_) =>
        ok := WriteJson(f, data, j);
    }
  }

  method WriteHeader(ghost f: Format, data: WriteBuffer, tag: byte, size: nat) returns (ok: bool)
    requires IsFixed(f)
    modifies data
    ensures ok <==> f.fitsInt(size)
    ensures ok ==> data.data == old(data.data) + Header(f, tag, size)
  {
    data.WriteTag(tag);
    ok := PutInt(f, data, size);
  }

  method WriteInt(ghost f: Format, data: WriteBuffer, i: int) returns (ok: bool)
    requires IsFixed(f)
    modifies data
    ensures ok <==> f.fitsInt(i)
    ensures ok ==> data.data == old(data.data) + IntField(f, i)
  {
    data.WriteTag(LITERAL_INT);
    ok := PutInt(f, data, i);
  }

  method WriteStr(ghost f: Format, data: WriteBuffer, s: Str) returns (ok: bool)
    requires IsFixed(f)
    modifies data
    ensures ok <==> f.fitsStr(s)
    ensures ok ==> data.data == old(data.data) + StrField(f, s)
  {
    data.WriteTag(LITERAL_STR);
    ok := PutStr(f, data, s);
  }

  method WriteBool(data: WriteBuffer, b: bool)
    modifies data
    ensures data.data == old(data.data) + BoolField(b)
  {
    data.WriteTag(if b then LITERAL_TRUE else LITERAL_FALSE);
  }

  method WriteSized(ghost f: Format, data: WriteBuffer, tag: byte, items: seq<Json>) returns (ok: bool)
    requires IsFixed(f)
    modifies data
    ensures ok <==> f.fitsInt(|items|) && FitAll(f, items)
    ensures ok ==> data.data == old(data.data) + (Header(f, tag, |items|) + ItemsBytes(f, items))
    decreases items, 1
  {
    ok := WriteHeader(f, data, tag, |items|);
    if ok {
      ok := WriteItems(f, data, items);
    }
  }

  method WriteItems(ghost f: Format, data: WriteBuffer, items: seq<Json>) returns (ok: bool)
    requires IsFixed(f)
    modifies data
    ensures ok <==> FitAll(f, items)
    ensures ok ==> data.data == old(data.data) + ItemsBytes(f, items)
    decreases items, 0
  {
    ghost var start := data.data;
    for k := 0 to |items|
      invariant FitAll(f, items[..k]) && data.data == start + ItemsBytes(f, items[..k])
    {
      ok := WriteJsonValue(f, data, items[k]);
      if !ok {
        return;
      }
      PrefixItems(f, items, k);
    }
    ok := true;
    assert items[..|items|] == items;
  }

  lemma PrefixItems(f: Format, items: seq<Json>, k: nat)
    requires k < |items|
    ensures ItemsBytes(f, items[..k + 1]) == ItemsBytes(f, items[..k]) + JsonBytes(f, items[k])
    ensures FitAll(f, items[..k + 1]) <==> FitAll(f, items[..k]) && FitsJson(f, items[k])
  {
    ItemsBytesNext(f, items[..k], items[k]);
    assert items[..k + 1] == items[..k] + [items[k]];
    assert forall i | 0 <= i < k :: items[..k + 1][i] == items[..k][i];
  }

  lemma {:induction false} ItemsBytesNext(f: Format, items: seq<Json>, item: Json)
    ensures ItemsBytes(f, items + [item]) == ItemsBytes(f, items) + JsonBytes(f, item)
  {
    var all := items + [item];
    if items == [] {
      assert all[1..] == [];
    } else {
      assert all[1..] == items[1..] + [item];
      ItemsBytesNext(f, items[1..], item);
    }
  }

  /** Writes a dictionary, key by key in order. */
  method WriteJson(ghost f: Format, data: WriteBuffer, j: Json) returns (ok: bool)
    requires IsFixed(f) && j.JDict?
    modifies data
    ensures ok <==> FitsJson(f, j)
    ensures ok ==> data.data == old(data.data) + JsonBytes(f, j)
    decreases j, 1
  {
    var keys := SortSet(j.entries.Keys);
    AllKeysFit(f, j, keys);
    ok := WriteSorted(f, data, j, keys);
  }

  method WriteSorted(ghost f: Format, data: WriteBuffer, j: Json, keys: seq<Str>) returns (ok: bool)
    requires IsFixed(f) && j.JDict? && forall k | k in keys :: k in j.entries
    modifies data
    ensures ok <==> f.fitsInt(|j.entries|) && KeysFit(f, j, keys)
    ensures ok ==> data.data == old(data.data) + (Header(f, DICT_STR_GEN, |j.entries|) + EntriesBytes(f, j, keys))
    decreases j, 0, 1
  {
    ok := WriteHeader(f, data, DICT_STR_GEN, |j.entries|);
    if ok {
      ok := WriteEntries(f, data, j, keys);
    }
  }

  ghost predicate KeysFit(f: Format, j: Json, keys: seq<Str>)
    requires j.JDict? && forall k | k in keys :: k in j.entries
  {
    forall i | 0 <= i < |keys| :: f.fitsStr(keys[i]) && FitsJson(f, j.entries[keys[i]])
  }

  lemma AllKeysFit(f: Format, j: Json, keys: seq<Str>)
    requires j.JDict? && forall k :: k in keys <==> k in j.entries
    ensures KeysFit(f, j, keys) <==> forall k | k in j.entries :: f.fitsStr(k) && FitsJson(f, j.entries[k])
  {
  }

  method WriteEntries(ghost f: Format, data: WriteBuffer, j: Json, keys: seq<Str>) returns (ok: bool)
    requires IsFixed(f) && j.JDict? && forall k | k in keys :: k in j.entries
    modifies data
    ensures ok <==> KeysFit(f, j, keys)
    ensures ok ==> data.data == old(data.data) + EntriesBytes(f, j, keys)
    decreases j, 0, 0
  {
    ghost var start := data.data;
    for k := 0 to |keys|
      invariant KeysFit(f, j, keys[..k]) && data.data == start + EntriesBytes(f, j, keys[..k])
    {
      assert keys[k] in keys;
      ok := WriteEntry(f, data, keys[k], j.entries[keys[k]]);
      if !ok {
        return;
      }
      PrefixEntries(f, j, keys, k);
    }
    ok := true;
    assert keys[..|keys|] == keys;
  }

  method WriteEntry(ghost f: Format, data: WriteBuffer, key: Str, value: Json) returns (ok: bool)
    requires IsFixed(f)
    modifies data
    ensures ok <==> f.fitsStr(key) && FitsJson(f, value)
    ensures ok ==> data.data == old(data.data) + (f.strBytes(key) + JsonBytes(f, value))
    decreases value, 3
  {
    ok := PutStr(f, data, key);
    if ok {
      ok := WriteJsonValue(f, data, value);
    }
  }

  lemma PrefixEntries(f: Format, j: Json, keys: seq<Str>, k: nat)
    requires j.JDict? && k < |keys| && (forall k | k in keys :: k in j.entries)
    ensures EntriesBytes(f, j, keys[..k + 1]) == EntriesBytes(f, j, keys[..k])
            + (f.strBytes(keys[k]) + JsonBytes(f, j.entries[keys[k]]))
    ensures KeysFit(f, j, keys[..k + 1])
            <==> KeysFit(f, j, keys[..k]) && f.fitsStr(keys[k]) && FitsJson(f, j.entries[keys[k]])
  {
    EntriesBytesNext(f, j, keys[..k], keys[k]);
    assert keys[..k + 1] == keys[..k] + [keys[k]];
    assert forall i | 0 <= i < k :: keys[..k + 1][i] == keys[..k][i];
  }

  lemma {:induction false} EntriesBytesNext(f: Format, j: Json, keys: seq<Str>, key: Str)
    requires j.JDict? && key in j.entries && forall k | k in keys :: k in j.entries
    ensures EntriesBytes(f, j, keys + [key]) == EntriesBytes(f, j, keys)
            + (f.strBytes(key) + JsonBytes(f, j.entries[key]))
    decreases |keys|
  {
    var all := keys + [key];
    if keys == [] {
      assert all[1..] == [];
    } else {
      assert all[0] == keys[0] && all[1..] == keys[1..] + [key];
      EntriesBytesNext(f, j, keys[1..], key);
    }
  }

  // The reader. None stands for a ValueError or a failed assertion.

  method ReadJsonValue(ghost f: Format, data: ReadBuffer) returns (r: Option<Json>)
    requires IsFixed(f) && Consumes(f) && data.Valid()
    modifies data
    ensures data.Valid()
    ensures data.Matches(ParseJson(f, old(data.Rest())), r)
    decreases |data.Rest()|, 0, 0
  {
    var tag := data.ReadTag();
    if tag.None? {
      return None;
    }
    r := ReadTagged(f, data, tag.value);
  }

  method ReadTagged(ghost f: Format, data: ReadBuffer, tag: byte) returns (r: Option<Json>)
    requires IsFixed(f) && Consumes(f) && data.Valid()
    modifies data
    ensures data.Valid()
    ensures data.Matches(ParseTagged(f, tag, old(data.Rest())), r)
    decreases |data.Rest()|, 2, 0
  {
    r := None;
    if tag == LITERAL_NONE {
      r := Some(JNull);
    } else if tag == LITERAL_FALSE {
      r := Some(JBool(false));
    } else if tag == LITERAL_TRUE {
      r := Some(JBool(true));
    } else if tag == LITERAL_INT {
      var i := GetInt(f, data);
      if i.Some? { r := Some(JInt(i.value)); }
    } else if tag == LITERAL_STR {
      var s := GetStr(f, data);
      if s.Some? { r := Some(JStr(s.value)); }
    } else if tag == LIST_GEN {
      var size := GetInt(f, data);
      if size.Some? {
        var items := ReadItems(f, data, size.value);
        if items.Some? { r := Some(JList(items.value)); }
      }
    } else if tag == TUPLE_GEN {
      var size := GetInt(f, data);
      if size.Some? {
        var items := ReadItems(f, data, size.value);
        if items.Some? { r := Some(JTuple(items.value)); }
      }
    } else if tag == DICT_STR_GEN {
      var size := GetInt(f, data);
      if size.Some? {
        var entries := ReadEntries(f, data, size.value);
        if entries.Some? { r := Some(JDict(entries.value)); }
      }
    } else if tag == LITERAL_FLOAT {
      var x := data.Take(8);
      if x.Some? { r := Some(JFloat(x.value)); }
    }
  }

  /** What reading the later items adds to the earlier ones. */
  function After(items: seq<Json>, later: Parsed<seq<Json>>): Parsed<seq<Json>> {
    if later.Ok? then Ok(items + later.value, later.rest) else Err
  }

  lemma AfterNone(p: Parsed<seq<Json>>)
    ensures After([], p) == p
  {
    if p.Ok? {
      assert [] + p.value == p.value;
    }
  }

  lemma AfterNext(f: Format, items: seq<Json>, n: nat, b: Bytes)
    requires Consumes(f) && n > 0
    ensures var first := ParseJson(f, b);
            After(items, ParseItems(f, n, b)) == if first.Ok?
                then After(items + [first.value], ParseItems(f, n - 1, first.rest)) else Err
  {
    var first := ParseJson(f, b);
    if first.Ok? && ParseItems(f, n - 1, first.rest).Ok? {
      var later := ParseItems(f, n - 1, first.rest).value;
      assert items + ([first.value] + later) == (items + [first.value]) + later;
    }
  }

  method ReadItems(ghost f: Format, data: ReadBuffer, size: int) returns (r: Option<seq<Json>>)
    requires IsFixed(f) && Consumes(f) && data.Valid()
    modifies data
    ensures data.Valid()
    ensures data.Matches(ParseItems(f, size, old(data.Rest())), r)
    decreases |data.Rest()|, 3, 0
  {
    ghost var start := data.Rest();
    var items := [];
    var left := size;
    AfterNone(ParseItems(f, left, start));
    while left > 0
      invariant data.Valid() && |data.Rest()| <= |start|
      invariant After(items, ParseItems(f, left, data.Rest())) == ParseItems(f, size, start)
      decreases left
    {
      AfterNext(f, items, left, data.Rest());
      var item := ReadJsonValue(f, data);
      if item.None? {
        return None;
      }
      items := items + [item.value];
      left := left - 1;
    }
    assert items + [] == items;
    r := Some(items);
  }

  method ReadEntries(ghost f: Format, data: ReadBuffer, size: int) returns (r: Option<map<Str, Json>>)
    requires IsFixed(f) && Consumes(f) && data.Valid()
    modifies data
    ensures data.Valid()
    ensures data.Matches(ParseEntries(f, size, old(data.Rest()), map[]), r)
    decreases |data.Rest()|, 3, 0
  {
    ghost var start := data.Rest();
    var entries := map[];
    var left := size;
    while left > 0
      invariant data.Valid() && |data.Rest()| <= |start|
      invariant ParseEntries(f, left, data.Rest(), entries) == ParseEntries(f, size, start, map[])
      decreases left
    {
      var key := GetStr(f, data);
      if key.None? {
        return None;
      }
      var value := ReadJsonValue(f, data);
      if value.None? {
        return None;
      }
      entries := entries[key.value := value.value];
      left := left - 1;
    }
    r := Some(entries);
  }
}
