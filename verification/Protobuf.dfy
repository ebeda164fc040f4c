/**
 * The Protocol Buffers wire format as a grammar, "Message Structure" of its encoding document,
 * against the reader in `Wire`: the reader accepts exactly the messages of the grammar and stores
 * exactly the values the grammar gives them.
 */
module Protobuf {
  import opened Bytes
  import opened Varint
  import opened Wire
  import Utf8

  // ---------- the grammar ----------

  /** A tag: number and wire type of a field in one varint. */
  predicate IsTag(t: bytes, num: nat, wire: nat) {
    IsVarint(t, 10) && wire < 8 && GroupsValue(t) == num * 8 + wire && 1 <= num <= 0x7FFF_FFFF
  }

  /** A length and that many bytes. */
  ghost predicate IsChunk(c: bytes) {
    exists k :: 0 <= k <= |c| && IsVarint(c[..k], 10) && GroupsValue(c[..k]) == |c| - k
  }

  /** The bytes after a tag, when groups may still be opened `groups` deep. */
  ghost predicate IsContent(num: nat, wire: nat, c: bytes, groups: nat)
    decreases |c|, 1
  {
    || (wire == 0 && IsVarint(c, 10))
    || (wire == 1 && |c| == 8)
    || (wire == 2 && IsChunk(c))
    || (wire == 3 && groups > 0 && IsGroup(num, c, groups - 1))
    || (wire == 5 && |c| == 4)
  }

  /** The inside of a group: fields, and then the end tag of its own number. */
  ghost predicate IsGroup(num: nat, c: bytes, groups: nat)
    decreases |c|, 0
  {
    || IsTag(c, num, 4)
    || exists k: nat, m: nat, n: nat, w: nat :: GroupField(num, c, groups, k, m, n, w)
  }

  /** One field, number n and type w, in front of the rest of the group. */
  ghost predicate GroupField(num: nat, c: bytes, groups: nat, k: nat, m: nat, n: nat, w: nat)
    decreases |c|, 0, 0
  {
    && 1 <= k && k + m <= |c| && IsTag(c[..k], n, w) && w != 4
    && IsContent(n, w, c[k..k + m], groups) && IsGroup(num, c[k + m..], groups)
  }

  // ---------- the reader follows the grammar ----------

  lemma TagExactly(b: bytes, num: nat, wire: nat, k: nat)
    ensures ReadTag(b) == Some(Tag(num, wire, k)) <==> k <= |b| && IsTag(b[..k], num, wire)
  {
    hide Decode, IsVarint, GroupsValue;
    DecodeExactly(b, num * 8 + wire, k);
    if Decode(b).Some? {
      var v := Decode(b).value;
      DecodeExactly(b, v.value, v.size);
      assert v.value == v.value / 8 * 8 + v.value % 8;
    }
  }

  lemma TagInFront(t: bytes, num: nat, wire: nat, rest: bytes)
    requires IsTag(t, num, wire)
    ensures ReadTag(t + rest) == Some(Tag(num, wire, |t|)) && (t + rest)[|t|..] == rest && |t| >= 1
  {
    hide ReadTag, GroupsValue;
    TagExactly(t + rest, num, wire, |t|);
    assert (t + rest)[..|t|] == t;
  }

  lemma VarintInFront(c: bytes, rest: bytes)
    requires IsVarint(c, 10)
    ensures Decode(c + rest) == Some(Parsed(GroupsValue(c), |c|))
  {
    hide Decode, GroupsValue;
    DecodeExactly(c + rest, GroupsValue(c), |c|);
    assert (c + rest)[..|c|] == c;
  }

  lemma ChunkInFront(c: bytes, k: nat, rest: bytes)
    requires k <= |c| && IsVarint(c[..k], 10) && GroupsValue(c[..k]) == |c| - k
    ensures Decode(c + rest) == Some(Parsed(|c| - k, k)) && (c + rest)[k..|c|] == c[k..]
  {
    hide Decode, GroupsValue, IsVarint;
    assert c + rest == c[..k] + (c[k..] + rest);
    VarintInFront(c[..k], c[k..] + rest);
  }

  lemma {:induction false} SizeOfContent(num: nat, wire: nat, c: bytes, groups: nat, rest: bytes)
    requires IsContent(num, wire, c, groups)
    ensures ValueSize(num, wire, c + rest, groups) == Some(|c|)
    decreases |c|, 2
  {
    hide Decode, GroupsValue, GroupSize, IsVarint, IsGroup;
    if wire == 0 {
      VarintInFront(c, rest);
    } else if wire == 2 {
      var k :| 0 <= k <= |c| && IsVarint(c[..k], 10) && GroupsValue(c[..k]) == |c| - k;
      ChunkInFront(c, k, rest);
    } else if wire == 3 {
      SizeOfGroup(num, c, groups - 1, rest);
    }
  }

  lemma {:induction false} SizeOfGroup(num: nat, c: bytes, groups: nat, rest: bytes)
    requires IsGroup(num, c, groups)
    ensures GroupSize(num, c + rest, groups) == Some(|c|)
    decreases |c|, 1
  {
    hide ReadTag, ValueSize, GroupSize, IsTag, IsContent, GroupField;
    if IsTag(c, num, 4) {
      SizeOfEnd(num, c, groups, rest);
    } else {
      var k: nat, m: nat, n: nat, w: nat :| GroupField(num, c, groups, k, m, n, w);
      SizeOfFieldAndRest(num, c, groups, k, m, n, w, rest);
    }
  }

  lemma SizeOfEnd(num: nat, c: bytes, groups: nat, rest: bytes)
    requires IsTag(c, num, 4)
    ensures GroupSize(num, c + rest, groups) == Some(|c|)
  {
    hide ReadTag, ValueSize, IsTag;
    TagInFront(c, num, 4, rest);
  }

  lemma {:induction false} SizeOfFieldAndRest(num: nat, c: bytes, groups: nat, k: nat, m: nat, n: nat, w: nat, rest: bytes)
    requires GroupField(num, c, groups, k, m, n, w)
    ensures GroupSize(num, c + rest, groups) == Some(|c|)
    decreases |c|, 0
  {
    hide ReadTag, ValueSize, GroupSize, IsTag, IsContent, IsGroup;
    var t, content, tail := c[..k], c[k..k + m], c[k + m..];
    InThree(c, k, m, rest);
    TagInFront(t, n, w, content + (tail + rest));
    SizeOfContent(n, w, content, groups, tail + rest);
    SizeOfGroup(num, tail, groups, rest);
    GroupStep(num, c + rest, groups, Tag(n, w, k), content + (tail + rest), m, tail + rest, |tail|);
  }

  lemma InThree(c: bytes, k: nat, m: nat, rest: bytes)
    requires k + m <= |c|
    ensures c + rest == c[..k] + (c[k..k + m] + (c[k + m..] + rest))
    ensures (c[k..k + m] + (c[k + m..] + rest))[m..] == c[k + m..] + rest
  {
  }

  lemma {:induction false} ContentOfSize(num: nat, wire: nat, b: bytes, groups: nat)
    requires ValueSize(num, wire, b, groups).Some?
    ensures IsContent(num, wire, b[..ValueSize(num, wire, b, groups).value], groups)
    decreases |b|, 1
  {
    hide Decode, GroupsValue, GroupSize, IsVarint, IsGroup;
    var n := ValueSize(num, wire, b, groups).value;
    var c := b[..n];
    if wire == 0 || wire == 2 {
      var v := Decode(b).value;
      DecodeExactly(b, v.value, v.size);
      if wire == 2 {
        assert c[..v.size] == b[..v.size];
        assert IsVarint(c[..v.size], 10) && GroupsValue(c[..v.size]) == |c| - v.size;
      }
    } else if wire == 3 {
      GroupOfSize(num, b, groups - 1);
    }
  }

  lemma {:induction false} GroupOfSize(num: nat, b: bytes, groups: nat)
    requires GroupSize(num, b, groups).Some?
    ensures IsGroup(num, b[..GroupSize(num, b, groups).value], groups)
    decreases |b|, 0
  {
    hide ReadTag, ValueSize, IsContent, IsTag;
    var size := GroupSize(num, b, groups).value;
    var t := ReadTag(b).value;
    TagExactly(b, t.num, t.wire, t.size);
    if t.wire != 4 {
      var t', n, m := GroupParts(num, b, groups);
      hide GroupSize;
      ContentOfSize(t.num, t.wire, b[t.size..], groups);
      GroupOfSize(num, b[t.size + n..], groups);
      var c := b[..size];
      assert c[..t.size] == b[..t.size] && c[t.size..t.size + n] == b[t.size..][..n] && c[t.size + n..] == b[t.size + n..][..m];
      assert GroupField(num, c, groups, t.size, n, t.num, t.wire);
    }
  }

  /** A field in front of other bytes: what the reader makes of it. */
  lemma NextOfField(t: bytes, num: nat, wire: nat, c: bytes, rest: bytes)
    requires IsTag(t, num, wire) && num <= 0x1FFF_FFFF && IsContent(num, wire, c, 10001)
    ensures Next(t + c + rest) == Some(Field(num, ReadValue(wire, c + rest), t + c))
  {
    hide ReadTag, ValueSize, ReadValue, IsTag, IsContent;
    var b := t + c + rest;
    assert b == t + (c + rest);
    TagInFront(t, num, wire, c + rest);
    SizeOfContent(num, wire, c, 10001, rest);
    NextStep(b, Tag(num, wire, |t|), c + rest, |c|);
    assert b[..|t| + |c|] == t + c;
  }

  /** A field is in front only of a tag and the content of its type. */
  ghost predicate FieldInFront(b: bytes, k: nat, n: nat, num: nat, wire: nat) {
    k + n <= |b| && IsTag(b[..k], num, wire) && num <= 0x1FFF_FFFF && IsContent(num, wire, b[k..k + n], 10001)
  }

  lemma FieldOfNext(b: bytes) returns (k: nat, n: nat, num: nat, wire: nat)
    requires Next(b).Some?
    ensures FieldInFront(b, k, n, num, wire)
  {
    hide ReadTag, ValueSize, ReadValue, IsTag, IsContent;
    var t;
    t, n := NextParts(b);
    k, num, wire := t.size, t.num, t.wire;
    TagExactly(b, num, wire, k);
    ContentOfSize(num, wire, b[k..], 10001);
    assert b[k..k + n] == b[k..][..n];
  }

  // ---------- what a message is read as ----------

  /** Bytes that begin with no field are no message. */
  lemma NoFieldNoMessage(kinds: seq<Kind>, r: Record, b: bytes)
    requires |r.vals| == |kinds| && b != [] && forall k: nat, n: nat, num: nat, wire: nat :: !FieldInFront(b, k, n, num, wire)
    ensures Merge(kinds, r, b).None?
  {
    hide Next, FieldInFront;
    if Next(b).Some? {
      var k, n, num, wire := FieldOfNext(b);
    }
  }

  lemma NothingMoreToRead(kinds: seq<Kind>, r: Record)
    requires |r.vals| == |kinds|
    ensures Merge(kinds, r, []) == Some(r)
  {
  }

  /** A number under a known number of that kind takes the place of what was read before; 32-bit fields keep the low bits. */
  lemma NumberIsStored(kinds: seq<Kind>, r: Record, t: bytes, num: nat, c: bytes, rest: bytes)
    requires |r.vals| == |kinds| && 1 <= num <= |kinds| && num <= 0x1FFF_FFFF && (kinds[num - 1].U32? || kinds[num - 1].U64?)
    requires IsTag(t, num, 0) && IsVarint(c, 10)
    ensures var n := if kinds[num - 1].U32? then GroupsValue(c) % 0x1_0000_0000 else GroupsValue(c);
      Merge(kinds, r, t + c + rest) == Merge(kinds, r.(vals := r.vals[num - 1 := Num(n)]), rest)
  {
    hide Next, Decode, Merge, IsTag, GroupsValue, IsVarint;
    VarintInFront(c, rest);
    NextOfField(t, num, 0, c, rest);
    TagInFront(t, num, 0, c + rest);
    MergeStep(kinds, r, t + c + rest, Field(num, Number(GroupsValue(c)), t + c), rest);
  }

  /** So does a chunk under a known number of that kind, except that a string which is no text ends the reading. */
  lemma ChunkIsStored(kinds: seq<Kind>, r: Record, t: bytes, num: nat, size: bytes, d: bytes, rest: bytes)
    requires |r.vals| == |kinds| && 1 <= num <= |kinds| && num <= 0x1FFF_FFFF && (kinds[num - 1].Blob? || kinds[num - 1].Str?)
    requires IsTag(t, num, 2) && IsVarint(size, 10) && GroupsValue(size) == |d|
    ensures Merge(kinds, r, t + size + d + rest) ==
            if kinds[num - 1].Str? && !Utf8.IsText(d) then None
            else Merge(kinds, r.(vals := r.vals[num - 1 := Data(d)]), rest)
  {
    hide Next, Decode, Merge, IsTag, GroupsValue, IsVarint, ValidUtf8, Utf8.IsText;
    var raw := NextOfChunk(t, num, size, d, rest);
    Utf8.ValidUtf8IsText(d);
    MergeStep(kinds, r, t + size + d + rest, Field(num, Chunk(d), raw), rest);
  }

  lemma NextOfChunk(t: bytes, num: nat, size: bytes, d: bytes, rest: bytes) returns (raw: bytes)
    requires num <= 0x1FFF_FFFF && IsTag(t, num, 2) && IsVarint(size, 10) && GroupsValue(size) == |d|
    ensures raw != [] && t + size + d + rest == raw + rest && Next(t + size + d + rest) == Some(Field(num, Chunk(d), raw))
  {
    hide Next, Decode, IsTag, GroupsValue, IsVarint;
    var c := size + d;
    raw := t + c;
    assert c[..|size|] == size && c[|size|..] == d && t + size + d + rest == raw + rest;
    assert IsVarint(c[..|size|], 10) && GroupsValue(c[..|size|]) == |c| - |size|;
    assert IsChunk(c);
    ChunkInFront(c, |size|, rest);
    NextOfField(t, num, 2, c, rest);
    TagInFront(t, num, 2, c + rest);
  }

  /** The schema knows the number and the type fits its kind. */
  predicate Expects(kinds: seq<Kind>, num: nat, wire: nat) {
    1 <= num <= |kinds| && wire == if kinds[num - 1].U32? || kinds[num - 1].U64? then 0 else 2
  }

  /** Every other field is kept as it stands, after those kept before. */
  lemma OtherFieldIsKept(kinds: seq<Kind>, r: Record, t: bytes, num: nat, wire: nat, c: bytes, rest: bytes)
    requires |r.vals| == |kinds| && num <= 0x1FFF_FFFF && !Expects(kinds, num, wire)
    requires IsTag(t, num, wire) && IsContent(num, wire, c, 10001)
    ensures Merge(kinds, r, t + c + rest) == Merge(kinds, r.(unknown := r.unknown + (t + c)), rest)
  {
    hide Next, Decode, Merge, IsTag, GroupsValue, IsVarint, ValidUtf8, IsGroup;
    NextOfField(t, num, wire, c, rest);
    TagInFront(t, num, wire, c + rest);
    var f := Field(num, ReadValue(wire, c + rest), t + c);
    ValueOfContent(num, wire, c, rest);
    assert !IsKnown(kinds, f);
    MergeStep(kinds, r, t + c + rest, f, rest);
  }

  lemma ValueOfContent(num: nat, wire: nat, c: bytes, rest: bytes)
    requires IsContent(num, wire, c, 10001)
    ensures ReadValue(wire, c + rest).Number? ==> wire == 0
    ensures ReadValue(wire, c + rest).Chunk? ==> wire == 2
  {
    hide Decode, IsContent;
  }
}
