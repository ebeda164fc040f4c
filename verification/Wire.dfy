/**
 * The Protocol Buffers message structure: tags, field values, and a codec driven by a list of
 * field kinds. Field i of a schema has number i + 1, as in every message of proto/dmail.proto.
 */
module Wire {
  import opened Bytes
  import Varint

  // ---------- reading one field ----------

  datatype Tag = Tag(num: nat, wire: nat, size: nat)

  const MAX_TAG_NUMBER := 0x7FFF_FFFF
  const MAX_FIELD_NUMBER := 0x1FFF_FFFF
  const MAX_OPEN_GROUPS: nat := 10001

  function ReadTag(b: bytes): (r: Option<Tag>)
    ensures r.Some? ==> 1 <= r.value.size <= |b|
  {
    match Varint.Decode(b)
    case None => None
    case Some(v) =>
      if 1 <= v.value / 8 <= MAX_TAG_NUMBER then Some(Tag(v.value / 8, v.value % 8, v.size)) else None
  }

  /** The number of bytes the value after a tag takes; `groups` more groups may be opened. */
  function ValueSize(num: nat, wire: nat, b: bytes, groups: nat): (r: Option<nat>)
    ensures r.Some? ==> r.value <= |b|
    decreases |b|, 1
  {
    if wire == 0 then
      match Varint.Decode(b)
      case None => None
      case Some(v) => Some(v.size)
    else if wire == 1 then if 8 <= |b| then Some(8) else None
    else if wire == 2 then
      match Varint.Decode(b)
      case None => None
      case Some(v) => if v.value <= |b| - v.size then Some(v.size + v.value) else None
    else if wire == 3 && groups > 0 then GroupSize(num, b, groups - 1)
    else if wire == 5 then if 4 <= |b| then Some(4) else None
    else None
  }

  /** The size of a group's content and its closing tag. */
  function GroupSize(num: nat, b: bytes, groups: nat): (r: Option<nat>)
    ensures r.Some? ==> r.value <= |b|
    decreases |b|, 0
  {
    match ReadTag(b)
    case None => None
    case Some(t) =>
      if t.wire == 4 then if t.num == num then Some(t.size) else None
      else match ValueSize(t.num, t.wire, b[t.size..], groups)
        case None => None
        case Some(n) =>
          match GroupSize(num, b[t.size + n..], groups)
          case None => None
          case Some(m) => Some(t.size + n + m)
  }

  datatype Value = Number(n: uint64) | Chunk(data: bytes) | Other

  /** One field with the bytes it was read from. */
  datatype Field = Field(num: nat, value: Value, raw: bytes)

  function ReadValue(wire: nat, b: bytes): Value {
    if wire != 0 && wire != 2 then Other
    else match Varint.Decode(b)
      case None => Other
      case Some(v) =>
        if wire == 0 then Number(v.value)
        else if v.value <= |b| - v.size then Chunk(b[v.size..v.size + v.value])
        else Other
  }

  function Next(b: bytes): (r: Option<Field>)
    ensures r.Some? ==> 1 <= |r.value.raw| <= |b| && r.value.raw == b[..|r.value.raw|]
  {
    match ReadTag(b)
    case None => None
    case Some(t) =>
      if t.num > MAX_FIELD_NUMBER then None
      else match ValueSize(t.num, t.wire, b[t.size..], MAX_OPEN_GROUPS)
        case None => None
        case Some(n) => Some(Field(t.num, ReadValue(t.wire, b[t.size..]), b[..t.size + n]))
  }

  // ---------- reading a field looks at no byte beyond it ----------

  lemma VarintIsPrefixStable(b: bytes, n: nat, rest: bytes)
    requires Varint.Decode(b).Some? && Varint.Decode(b).value.size <= n <= |b|
    ensures Varint.Decode(b[..n] + rest) == Varint.Decode(b)
  {
    var size := Varint.Decode(b).value.size;
    Varint.DecodeIsPrefixStable(b, 0, b[size..n] + rest);
    assert b[..size] + (b[size..n] + rest) == b[..n] + rest;
  }

  lemma TagIsPrefixStable(b: bytes, n: nat, rest: bytes)
    requires ReadTag(b).Some? && ReadTag(b).value.size <= n <= |b|
    ensures ReadTag(b[..n] + rest) == ReadTag(b)
  {
    VarintIsPrefixStable(b, n, rest);
  }

  lemma {:induction false} ValueSizeIsPrefixStable(num: nat, wire: nat, b: bytes, groups: nat, rest: bytes)
    requires ValueSize(num, wire, b, groups).Some?
    ensures ValueSize(num, wire, b[..ValueSize(num, wire, b, groups).value] + rest, groups) == ValueSize(num, wire, b, groups)
    decreases |b|, 1
  {
    var n := ValueSize(num, wire, b, groups).value;
    if wire == 0 || wire == 2 {
      VarintIsPrefixStable(b, n, rest);
    } else if wire == 3 {
      GroupSizeIsPrefixStable(num, b, groups - 1, rest);
    }
  }

  lemma {:induction false} GroupSizeIsPrefixStable(num: nat, b: bytes, groups: nat, rest: bytes)
    requires GroupSize(num, b, groups).Some?
    ensures GroupSize(num, b[..GroupSize(num, b, groups).value] + rest, groups) == GroupSize(num, b, groups)
    decreases |b|, 0
  {
    hide ReadTag, ValueSize, GroupSize;
    if ReadTag(b).Some? && ReadTag(b).value.wire == 4 {
      GroupEnds(num, b, groups, rest);
    } else {
      var t, n, m := GroupParts(num, b, groups);
      var size := t.size + n + m;
      var inner := b[t.size + n..];
      var inner' := inner[..m] + rest;
      var tail' := b[t.size..][..n] + inner';
      ValueSizeIsPrefixStable(t.num, t.wire, b[t.size..], groups, inner');
      GroupSizeIsPrefixStable(num, inner, groups, rest);
      TagIsPrefixStable(b, size, rest);
      GroupSplits(b, rest, t.size, n, m);
      GroupStep(num, b[..size] + rest, groups, t, tail', n, inner', m);
    }
  }

  lemma {:induction false} GroupEnds(num: nat, b: bytes, groups: nat, rest: bytes)
    requires GroupSize(num, b, groups).Some? && ReadTag(b).value.wire == 4
    ensures GroupSize(num, b[..GroupSize(num, b, groups).value] + rest, groups) == GroupSize(num, b, groups)
  {
    hide ReadTag, ValueSize;
    TagIsPrefixStable(b, ReadTag(b).value.size, rest);
  }

  lemma GroupParts(num: nat, b: bytes, groups: nat) returns (t: Tag, n: nat, m: nat)
    requires GroupSize(num, b, groups).Some?
    requires ReadTag(b).Some? ==> ReadTag(b).value.wire != 4
    ensures ReadTag(b) == Some(t) && t.wire != 4 && t.size + n + m <= |b|
    ensures ValueSize(t.num, t.wire, b[t.size..], groups) == Some(n)
    ensures GroupSize(num, b[t.size + n..], groups) == Some(m)
    ensures GroupSize(num, b, groups) == Some(t.size + n + m)
  {
    hide ReadTag, ValueSize;
    t := ReadTag(b).value;
    n := ValueSize(t.num, t.wire, b[t.size..], groups).value;
    m := GroupSize(num, b[t.size + n..], groups).value;
  }

  lemma GroupSplits(b: bytes, rest: bytes, tag: nat, n: nat, m: nat)
    requires tag + n + m <= |b|
    ensures (b[..tag + n + m] + rest)[tag..] == b[tag..][..n] + (b[tag + n..][..m] + rest)
    ensures (b[tag..][..n] + (b[tag + n..][..m] + rest))[n..] == b[tag + n..][..m] + rest
  {
  }

  lemma GroupStep(num: nat, b: bytes, groups: nat, t: Tag, tail: bytes, n: nat, inner: bytes, m: nat)
    requires ReadTag(b) == Some(t) && t.wire != 4
    requires tail == b[t.size..] && ValueSize(t.num, t.wire, tail, groups) == Some(n)
    requires inner == tail[n..] && GroupSize(num, inner, groups) == Some(m)
    ensures GroupSize(num, b, groups) == Some(t.size + n + m)
  {
    hide ReadTag, ValueSize;
    assert inner == b[t.size + n..];
  }

  lemma ReadValueIsPrefixStable(num: nat, wire: nat, b: bytes, groups: nat, rest: bytes)
    requires ValueSize(num, wire, b, groups).Some?
    ensures ReadValue(wire, b[..ValueSize(num, wire, b, groups).value] + rest) == ReadValue(wire, b)
  {
    var n := ValueSize(num, wire, b, groups).value;
    if wire == 0 || wire == 2 {
      VarintIsPrefixStable(b, n, rest);
    }
    if wire == 2 {
      var v := Varint.Decode(b).value;
      assert (b[..n] + rest)[v.size..v.size + v.value] == b[v.size..v.size + v.value];
    }
  }

  /** A field is read the same from its own bytes, whatever follows them. */
  lemma NextIsPrefixStable(b: bytes, rest: bytes)
    requires Next(b).Some?
    ensures Next(Next(b).value.raw + rest) == Next(b)
  {
    hide Next, ReadTag, ValueSize, ReadValue;
    var t, n := NextParts(b);
    var tail := b[t.size..];
    var c := b[..t.size + n] + rest;
    TagIsPrefixStable(b, t.size + n, rest);
    assert c[t.size..] == tail[..n] + rest;
    ValueSizeIsPrefixStable(t.num, t.wire, tail, MAX_OPEN_GROUPS, rest);
    ReadValueIsPrefixStable(t.num, t.wire, tail, MAX_OPEN_GROUPS, rest);
    NextStep(c, t, tail[..n] + rest, n);
    assert c[..t.size + n] == b[..t.size + n];
  }

  lemma NextParts(b: bytes) returns (t: Tag, n: nat)
    requires Next(b).Some?
    ensures ReadTag(b) == Some(t) && t.num <= MAX_FIELD_NUMBER && t.size + n <= |b|
    ensures ValueSize(t.num, t.wire, b[t.size..], MAX_OPEN_GROUPS) == Some(n)
    ensures Next(b) == Some(Field(t.num, ReadValue(t.wire, b[t.size..]), b[..t.size + n]))
  {
    hide ReadTag, ValueSize, ReadValue;
    t := ReadTag(b).value;
    n := ValueSize(t.num, t.wire, b[t.size..], MAX_OPEN_GROUPS).value;
  }

  lemma NextStep(b: bytes, t: Tag, tail: bytes, n: nat)
    requires ReadTag(b) == Some(t) && t.num <= MAX_FIELD_NUMBER
    requires tail == b[t.size..] && ValueSize(t.num, t.wire, tail, MAX_OPEN_GROUPS) == Some(n)
    ensures Next(b) == Some(Field(t.num, ReadValue(t.wire, tail), b[..t.size + n]))
  {
    hide ReadTag, ValueSize, ReadValue;
  }

  // ---------- schemas and records ----------

  datatype Kind = U32 | U64 | Blob | Str
  datatype Val = Num(n: nat) | Data(d: bytes)

  /** A message value: one value per schema field and the bytes of fields the schema does not know. */
  datatype Record = Record(vals: seq<Val>, unknown: bytes)

  /** A Go slice length is a signed 64-bit number. */
  const MAX_LENGTH := 0x8000_0000_0000_0000

  predicate Fits(k: Kind, v: Val) {
    match k
    case U32 => v.Num? && v.n < 0x1_0000_0000
    case U64 => v.Num? && v.n < 0x1_0000_0000_0000_0000
    case Blob => v.Data? && |v.d| < MAX_LENGTH
    case Str => v.Data? && |v.d| < MAX_LENGTH && ValidUtf8(v.d)
  }

  predicate WellTyped(kinds: seq<Kind>, vals: seq<Val>) {
    |vals| == |kinds| && forall i :: 0 <= i < |kinds| ==> Fits(kinds[i], vals[i])
  }

  function Default(k: Kind): Val {
    match k
    case U32 => Num(0)
    case U64 => Num(0)
    case Blob => Data([])
    case Str => Data([])
  }

  function Defaults(kinds: seq<Kind>): (vals: seq<Val>)
    ensures |vals| == |kinds|
    ensures forall i :: 0 <= i < |kinds| ==> vals[i] == Default(kinds[i])
  {
    seq(|kinds|, i requires 0 <= i < |kinds| => Default(kinds[i]))
  }

  function IsContinuation(b: bytes, i: nat): bool
    requires i < |b|
  {
    0x80 <= b[i] <= 0xBF
  }

  /** Well-formed UTF-8, section 4 of RFC 3629. */
  predicate ValidUtf8(b: bytes) {
    if b == [] then true
    else if b[0] < 0x80 then ValidUtf8(b[1..])
    else if 0xC2 <= b[0] <= 0xDF then |b| >= 2 && IsContinuation(b, 1) && ValidUtf8(b[2..])
    else if 0xE0 <= b[0] <= 0xEF then
      && |b| >= 3 && IsContinuation(b, 1) && IsContinuation(b, 2)
      && (b[0] == 0xE0 ==> b[1] >= 0xA0) && (b[0] == 0xED ==> b[1] <= 0x9F)
      && ValidUtf8(b[3..])
    else if 0xF0 <= b[0] <= 0xF4 then
      && |b| >= 4 && IsContinuation(b, 1) && IsContinuation(b, 2) && IsContinuation(b, 3)
      && (b[0] == 0xF0 ==> b[1] >= 0x90) && (b[0] == 0xF4 ==> b[1] <= 0x8F)
      && ValidUtf8(b[4..])
    else false
  }

  // ---------- writing ----------

  function EncodeField(num: nat, v: Val): bytes {
    match v
    case Num(n) => if n == 0 then [] else Varint.Encode(num * 8) + Varint.Encode(n)
    case Data(d) => if d == [] then [] else Varint.Encode(num * 8 + 2) + Varint.Encode(|d|) + d
  }

  /** The fields from index i on, in field-number order; zero values are omitted. */
  function EncodeFrom(vals: seq<Val>, i: nat): bytes
    requires i <= |vals|
    decreases |vals| - i
  {
    if i == |vals| then [] else EncodeField(i + 1, vals[i]) + EncodeFrom(vals, i + 1)
  }

  /** proto.Marshal refuses a string field that is not UTF-8. */
  function Marshal(kinds: seq<Kind>, r: Record): Option<bytes>
    requires |r.vals| == |kinds|
  {
    if exists i :: 0 <= i < |kinds| && kinds[i].Str? && r.vals[i].Data? && !ValidUtf8(r.vals[i].d) then None
    else Some(EncodeFrom(r.vals, 0) + r.unknown)
  }

  // ---------- reading a message ----------

  predicate IsKnown(kinds: seq<Kind>, f: Field) {
    && 1 <= f.num <= |kinds|
    && match kinds[f.num - 1]
       case U32 => f.value.Number?
       case U64 => f.value.Number?
       case Blob => f.value.Chunk?
       case Str => f.value.Chunk?
  }

  /** Stores one field: the last occurrence wins, and an unknown field is kept as raw bytes. */
  function Store(kinds: seq<Kind>, r: Record, f: Field): (r': Option<Record>)
    requires |r.vals| == |kinds|
    ensures r'.Some? ==> |r'.value.vals| == |kinds|
  {
    if !IsKnown(kinds, f) then Some(r.(unknown := r.unknown + f.raw))
    else match kinds[f.num - 1]
      case U32 => Some(r.(vals := r.vals[f.num - 1 := Num(f.value.n % 0x1_0000_0000)]))
      case U64 => Some(r.(vals := r.vals[f.num - 1 := Num(f.value.n)]))
      case Blob => Some(r.(vals := r.vals[f.num - 1 := Data(f.value.data)]))
      case Str =>
        if ValidUtf8(f.value.data) then Some(r.(vals := r.vals[f.num - 1 := Data(f.value.data)])) else None
  }

  function Merge(kinds: seq<Kind>, r: Record, b: bytes): (r': Option<Record>)
    requires |r.vals| == |kinds|
    ensures r'.Some? ==> |r'.value.vals| == |kinds|
    decreases |b|
  {
    if b == [] then Some(r)
    else match Next(b)
      case None => None
      case Some(f) =>
        match Store(kinds, r, f)
        case None => None
        case Some(r') => Merge(kinds, r', b[|f.raw|..])
  }

  function Unmarshal(kinds: seq<Kind>, b: bytes): (r: Option<Record>)
    ensures r.Some? ==> |r.value.vals| == |kinds|
  {
    Merge(kinds, Record(Defaults(kinds), []), b)
  }

  /** Bytes that are a run of fields the schema does not know. */
  ghost predicate OnlyUnknown(kinds: seq<Kind>, b: bytes)
    decreases |b|
  {
    b == [] || (Next(b).Some? && !IsKnown(kinds, Next(b).value) && OnlyUnknown(kinds, b[|Next(b).value.raw|..]))
  }

  // ---------- round trip ----------

  lemma TagIsRead(num: nat, wire: nat, rest: bytes)
    requires 1 <= num <= MAX_FIELD_NUMBER && wire < 8
    ensures ReadTag(Varint.Encode(num * 8 + wire) + rest) == Some(Tag(num, wire, |Varint.Encode(num * 8 + wire)|))
  {
    Varint.DecodeOfEncode(num * 8 + wire, rest);
  }

  /** A written field is read back with its number, its value and exactly its bytes. */
  lemma FieldIsRead(num: nat, v: Val, rest: bytes)
    requires 1 <= num <= MAX_FIELD_NUMBER
    requires v.Num? ==> 0 < v.n < 0x1_0000_0000_0000_0000
    requires v.Data? ==> 0 < |v.d| < MAX_LENGTH
    ensures Next(EncodeField(num, v) + rest) ==
            Some(Field(num, if v.Num? then Number(v.n) else Chunk(v.d), EncodeField(num, v)))
  {
    hide Next, ValueSize, ReadValue, Varint.Encode;
    var e := EncodeField(num, v);
    match v {
      case Num(n) =>
        var tag, value := Varint.Encode(num * 8), Varint.Encode(n);
        NumberIsRead(num, n, rest);
        TaggedValueIsRead(num, 0, tag, value, rest);
        assert tag + (value + rest) == e + rest;
      case Data(d) =>
        var tag, len := Varint.Encode(num * 8 + 2), Varint.Encode(|d|);
        ChunkIsRead(num, d, rest);
        TaggedValueIsRead(num, 2, tag, len + d, rest);
        assert tag + (len + d + rest) == e + rest;
        assert e == tag + (len + d);
    }
  }

  lemma NumberIsRead(num: nat, n: uint64, rest: bytes)
    ensures ValueSize(num, 0, Varint.Encode(n) + rest, MAX_OPEN_GROUPS) == Some(|Varint.Encode(n)|)
    ensures ReadValue(0, Varint.Encode(n) + rest) == Number(n)
  {
    hide Varint.Encode, Varint.DecodeFrom;
    Varint.DecodeOfEncode(n, rest);
  }

  lemma ChunkIsRead(num: nat, d: bytes, rest: bytes)
    requires |d| < MAX_LENGTH
    ensures var len := Varint.Encode(|d|);
            && ValueSize(num, 2, len + d + rest, MAX_OPEN_GROUPS) == Some(|len + d|)
            && ReadValue(2, len + d + rest) == Chunk(d)
  {
    hide Varint.Encode, Varint.DecodeFrom;
    var len := Varint.Encode(|d|);
    Varint.DecodeOfEncode(|d|, d + rest);
    assert len + (d + rest) == len + d + rest;
    assert (len + d + rest)[|len|..|len| + |d|] == d;
  }

  lemma TaggedValueIsRead(num: nat, wire: nat, tag: bytes, value: bytes, rest: bytes)
    requires 1 <= num <= MAX_FIELD_NUMBER && wire < 8 && tag == Varint.Encode(num * 8 + wire)
    requires ValueSize(num, wire, value + rest, MAX_OPEN_GROUPS) == Some(|value|)
    ensures Next(tag + (value + rest)) == Some(Field(num, ReadValue(wire, value + rest), tag + value))
  {
    hide ValueSize, ReadValue, ReadTag, Varint.Encode;
    var b := tag + (value + rest);
    TagIsRead(num, wire, value + rest);
    assert b[|tag|..] == value + rest;
    NextStep(b, Tag(num, wire, |tag|), value + rest, |value|);
    assert b[..|tag| + |value|] == tag + value;
  }

  lemma {:induction false} FieldsAreRead(kinds: seq<Kind>, r: Record, vals: seq<Val>, i: nat, rest: bytes)
    requires |kinds| <= MAX_FIELD_NUMBER
    requires WellTyped(kinds, vals) && |r.vals| == |kinds| && i <= |kinds|
    requires forall j :: i <= j < |kinds| ==> r.vals[j] == Default(kinds[j])
    ensures Merge(kinds, r, EncodeFrom(vals, i) + rest) == Merge(kinds, r.(vals := r.vals[..i] + vals[i..]), rest)
    decreases |kinds| - i
  {
    hide Merge, EncodeField, Default, Fits;
    if i == |kinds| {
      assert EncodeFrom(vals, i) + rest == rest;
      assert r.vals[..i] + vals[i..] == r.vals;
    } else {
      var e, tail := EncodeField(i + 1, vals[i]), EncodeFrom(vals, i + 1) + rest;
      assert EncodeFrom(vals, i) + rest == e + tail;
      OneFieldIsRead(kinds, r, i, vals[i], tail);
      FieldsAreRead(kinds, r.(vals := r.vals[i := vals[i]]), vals, i + 1, rest);
      assert r.vals[i := vals[i]][..i + 1] + vals[i + 1..] == r.vals[..i] + vals[i..];
    }
  }

  lemma OneFieldIsRead(kinds: seq<Kind>, r: Record, i: nat, v: Val, tail: bytes)
    requires |kinds| <= MAX_FIELD_NUMBER
    requires |r.vals| == |kinds| && i < |kinds| && Fits(kinds[i], v)
    requires r.vals[i] == Default(kinds[i])
    ensures Merge(kinds, r, EncodeField(i + 1, v) + tail) == Merge(kinds, r.(vals := r.vals[i := v]), tail)
  {
    hide Next, Varint.Encode, Merge;
    var e := EncodeField(i + 1, v);
    if v == Default(kinds[i]) {
      assert e + tail == tail;
      assert r.vals[i := v] == r.vals;
    } else {
      FieldIsRead(i + 1, v, tail);
      MergeStep(kinds, r, e + tail, Next(e + tail).value, tail);
    }
  }

  lemma MergeStep(kinds: seq<Kind>, r: Record, b: bytes, f: Field, tail: bytes)
    requires |r.vals| == |kinds|
    requires b != [] && Next(b) == Some(f) && b == f.raw + tail
    ensures Merge(kinds, r, b) == match Store(kinds, r, f) case None => None case Some(r') => Merge(kinds, r', tail)
  {
    hide Next, Store;
    assert b[|f.raw|..] == tail;
  }

  lemma {:induction false} UnknownIsKept(kinds: seq<Kind>, r: Record, u: bytes)
    requires |r.vals| == |kinds| && OnlyUnknown(kinds, u)
    ensures Merge(kinds, r, u) == Some(r.(unknown := r.unknown + u))
    decreases |u|
  {
    hide Next, IsKnown;
    if u == [] {
      assert r.unknown + u == r.unknown;
    } else {
      var raw := Next(u).value.raw;
      UnknownIsKept(kinds, r.(unknown := r.unknown + raw), u[|raw|..]);
      assert r.unknown + raw + u[|raw|..] == r.unknown + u;
    }
  }

  /** Every well-typed message, with any run of unknown fields, survives marshalling unchanged. */
  lemma {:induction false} RoundTrip(kinds: seq<Kind>, r: Record)
    requires |kinds| <= MAX_FIELD_NUMBER && WellTyped(kinds, r.vals) && OnlyUnknown(kinds, r.unknown)
    ensures Marshal(kinds, r).Some?
    ensures Unmarshal(kinds, Marshal(kinds, r).value) == Some(r)
  {
    hide Merge, EncodeFrom, OnlyUnknown;
    assert forall i :: 0 <= i < |kinds| ==> Fits(kinds[i], r.vals[i]);
    RecordIsRead(kinds, r);
  }

  lemma RecordIsRead(kinds: seq<Kind>, r: Record)
    requires |kinds| <= MAX_FIELD_NUMBER && WellTyped(kinds, r.vals) && OnlyUnknown(kinds, r.unknown)
    ensures Unmarshal(kinds, EncodeFrom(r.vals, 0) + r.unknown) == Some(r)
  {
    hide Merge, EncodeFrom, OnlyUnknown, Fits;
    var empty := Record(Defaults(kinds), []);
    FieldsAreRead(kinds, empty, r.vals, 0, r.unknown);
    assert empty.vals[..0] + r.vals[0..] == r.vals;
    UnknownIsKept(kinds, Record(r.vals, []), r.unknown);
    assert [] + r.unknown == r.unknown;
  }

  // ---------- re-encoding what was read ----------

  lemma {:induction false} UnknownSnoc(kinds: seq<Kind>, u: bytes, b: bytes)
    requires OnlyUnknown(kinds, u)
    requires Next(b).Some? && !IsKnown(kinds, Next(b).value)
    ensures OnlyUnknown(kinds, u + Next(b).value.raw)
    decreases |u|
  {
    hide Next, IsKnown;
    var raw := Next(b).value.raw;
    if u == [] {
      UnknownCons(kinds, b, []);
      assert u + raw == raw + [];
    } else {
      var first, rest := Next(u).value.raw, u[|Next(u).value.raw|..];
      UnknownSnoc(kinds, rest, b);
      UnknownCons(kinds, u, rest + raw);
      assert first + (rest + raw) == u + raw;
    }
  }

  lemma UnknownCons(kinds: seq<Kind>, u: bytes, tail: bytes)
    requires Next(u).Some? && !IsKnown(kinds, Next(u).value)
    requires OnlyUnknown(kinds, tail)
    ensures OnlyUnknown(kinds, Next(u).value.raw + tail)
  {
    hide Next, IsKnown;
    var raw := Next(u).value.raw;
    NextIsPrefixStable(u, tail);
    assert (raw + tail)[|raw|..] == tail;
  }

  lemma NextChunkIsWithin(b: bytes)
    ensures Next(b).Some? && Next(b).value.value.Chunk? ==> |Next(b).value.value.data| <= |b|
  {
    hide ValueSize;
  }

  lemma {:induction false} MergeIsWellFormed(kinds: seq<Kind>, r: Record, b: bytes)
    requires WellTyped(kinds, r.vals) && OnlyUnknown(kinds, r.unknown)
    requires |b| < MAX_LENGTH
    requires Merge(kinds, r, b).Some?
    ensures WellTyped(kinds, Merge(kinds, r, b).value.vals)
    ensures OnlyUnknown(kinds, Merge(kinds, r, b).value.unknown)
    decreases |b|
  {
    hide Next, Fits, IsKnown;
    if b != [] {
      var f := Next(b).value;
      if !IsKnown(kinds, f) {
        UnknownSnoc(kinds, r.unknown, b);
      }
      StoredFits(kinds, r, b);
      MergeIsWellFormed(kinds, Store(kinds, r, f).value, b[|f.raw|..]);
    }
  }

  lemma StoredFits(kinds: seq<Kind>, r: Record, b: bytes)
    requires WellTyped(kinds, r.vals) && |b| < MAX_LENGTH
    requires Next(b).Some? && Store(kinds, r, Next(b).value).Some?
    ensures WellTyped(kinds, Store(kinds, r, Next(b).value).value.vals)
  {
    NextChunkIsWithin(b);
    hide Next;
  }

  lemma UnmarshalIsWellFormed(kinds: seq<Kind>, b: bytes)
    requires |b| < MAX_LENGTH && Unmarshal(kinds, b).Some?
    ensures WellTyped(kinds, Unmarshal(kinds, b).value.vals)
    ensures OnlyUnknown(kinds, Unmarshal(kinds, b).value.unknown)
  {
    MergeIsWellFormed(kinds, Record(Defaults(kinds), []), b);
  }

  /**
   * Marshalling what any byte string was read as, however oddly it was encoded, gives bytes that
   * read as the same message again.
   */
  lemma ReencodingKeepsTheMessage(kinds: seq<Kind>, b: bytes)
    requires |kinds| <= MAX_FIELD_NUMBER && |b| < MAX_LENGTH
    requires Unmarshal(kinds, b).Some?
    ensures Marshal(kinds, Unmarshal(kinds, b).value).Some?
    ensures Unmarshal(kinds, Marshal(kinds, Unmarshal(kinds, b).value).value) == Unmarshal(kinds, b)
  {
    hide Unmarshal, Marshal;
    UnmarshalIsWellFormed(kinds, b);
    RoundTrip(kinds, Unmarshal(kinds, b).value);
  }
}
