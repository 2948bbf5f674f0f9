/**
 The RPM tag set: the encoder, the reader that the section "The Header Structure in Depth"
 of Maximum RPM describes, and the proof that the reader inverts the encoder.
 */
module RpmTagSet {
  import opened Options

  type byte = x: int | 0 <= x < 256

  type Bytes = seq<byte>

  // ---- network byte order ----

  /** `binary.Write` of a `w`-byte integer, big-endian; wider values are truncated. */
  function BE(w: nat, x: int): (s: Bytes)
    ensures |s| == w
    decreases w, x
  {
    if w == 0 then [] else BE(w - 1, x / 256) + [x % 256]
  }

  lemma BESmall(x: int)
    requires 0 <= x < 256
    ensures BE(1, x) == [x] && BE(2, x) == [0, x]
  {
    assert x / 256 == 0 && x % 256 == x;
    assert BE(0, 0) == [];
  }

  /** A two's complement big-endian integer. */
  function FromBE(s: Bytes): int {
    if s == [] then 0
    else if |s| == 1 then (if s[0] < 128 then s[0] else s[0] - 256)
    else FromBE(s[..|s| - 1]) * 256 + s[|s| - 1]
  }

  /** `x` is a `w`-byte two's complement integer. */
  predicate Fits(w: nat, x: int) {
    w > 0 && if w == 1 then -128 <= x < 128 else Fits(w - 1, x / 256)
  }

  lemma {:induction false} BERoundTrip(w: nat, x: int)
    requires Fits(w, x)
    ensures FromBE(BE(w, x)) == x
  {
    if w > 1 {
      BERoundTrip(w - 1, x / 256);
      assert BE(w, x)[..w - 1] == BE(w - 1, x / 256);
    } else {
      assert BE(0, x / 256) == [];
    }
  }

  lemma FitsWidths(x: int)
    ensures Fits(2, x) <==> -0x8000 <= x < 0x8000
    ensures Fits(4, x) <==> -0x8000_0000 <= x < 0x8000_0000
    ensures Fits(8, x) <==> -0x8000_0000_0000_0000 <= x < 0x8000_0000_0000_0000
  {
    var a := x / 256;
    var b := a / 256;
    var c := b / 256;
    assert Fits(2, x) <==> Fits(1, a);
    assert Fits(4, x) <==> Fits(3, a);
    assert Fits(3, a) <==> Fits(2, b);
    assert Fits(2, b) <==> Fits(1, c);
    var d := c / 256;
    var e := d / 256;
    var f := e / 256;
    var g := f / 256;
    assert Fits(8, x) <==> Fits(7, a);
    assert Fits(7, a) <==> Fits(6, b);
    assert Fits(6, b) <==> Fits(5, c);
    assert Fits(5, c) <==> Fits(4, d);
    assert Fits(4, d) <==> Fits(3, e);
    assert Fits(3, e) <==> Fits(2, f);
    assert Fits(2, f) <==> Fits(1, g);
  }

  // ---- tags ----

  const NULL_TYPE := 0
  const CHAR_TYPE := 1
  const INT8_TYPE := 2
  const INT16_TYPE := 3
  const INT32_TYPE := 4
  const INT64_TYPE := 5
  const STRING_TYPE := 6
  const BIN_TYPE := 7
  const STRING_ARRAY_TYPE := 8

  datatype TagValue =
    | Nil
    | Raw(bytes: Bytes)
    | Text(s: Bytes)
    | Texts(list: seq<Bytes>)
    | Ints(width: nat, ints: seq<int>)    // []int8, []int16, []int32, []int64

  /** `rpmTagType` */
  datatype Tag = Tag(id: int, ty: int, value: TagValue)

  function IntWidth(ty: int): nat {
    if ty == INT8_TYPE then 1 else if ty == INT16_TYPE then 2 else if ty == INT32_TYPE then 4
    else if ty == INT64_TYPE then 8 else 0
  }

  /** `boundariesByType`, for the types that have an entry. */
  function Boundary(ty: int): nat {
    if ty == INT16_TYPE then 2 else if ty == INT32_TYPE then 4 else if ty == INT64_TYPE then 8 else 1
  }

  /** The value has the Go type that the tag type asks for. */
  predicate WellTyped(t: Tag) {
    match t.value
    case Nil => t.ty == NULL_TYPE
    case Raw(_) => t.ty == CHAR_TYPE || t.ty == BIN_TYPE
    case Text(_) => t.ty == STRING_TYPE
    case Texts(_) => t.ty == STRING_ARRAY_TYPE
    case Ints(w, _) => w > 0 && w == IntWidth(t.ty)
  }

  /** What the Go types guarantee about the elements, and C strings hold no NUL. */
  predicate Sound(t: Tag) {
    match t.value
    case Text(s) => 0 !in s
    case Texts(list) => forall i :: 0 <= i < |list| ==> 0 !in list[i]
    case Ints(w, xs) => forall i :: 0 <= i < |xs| ==> Fits(w, xs[i])
    case _ => true
  }

  function PackInts(w: nat, xs: seq<int>): Bytes {
    if xs == [] then [] else BE(w, xs[0]) + PackInts(w, xs[1..])
  }

  function PackTexts(list: seq<Bytes>): Bytes {
    if list == [] then [] else list[0] + [0] + PackTexts(list[1..])
  }

  function Payload(t: Tag): Bytes {
    match t.value
    case Nil => []
    case Raw(bytes) => bytes
    case Text(s) => s + [0]
    case Texts(list) => PackTexts(list)
    case Ints(w, xs) => PackInts(w, xs)
  }

  function Count(t: Tag): nat {
    match t.value
    case Nil => 1
    case Raw(bytes) => |bytes|
    case Text(_) => 1
    case Texts(list) => |list|
    case Ints(_, xs) => |xs|
  }

  // ---- the layout ----

  function Zeros(n: nat): Bytes { seq(n, _ => 0) }

  /** How many bytes `alignData` adds to reach a multiple of the boundary. */
  function Padding(n: nat, b: nat): nat
    requires b > 0
  {
    if n % b == 0 then 0 else b - n % b
  }

  function Aligned(data: Bytes, b: nat): Bytes
    requires b > 0
  {
    data + Zeros(Padding(|data|, b))
  }

  /** The next multiple of the boundary, and not a byte further. */
  lemma PaddingMinimal(n: nat, b: nat)
    requires b > 0
    ensures (n + Padding(n, b)) % b == 0 && Padding(n, b) < b
    ensures n % b != 0 ==> Padding(n, b) == (n / b + 1) * b - n
  {
    if n % b != 0 {
      assert n + Padding(n, b) == (n / b + 1) * b;
      MultipleIs(n / b + 1, b);
    }
  }

  lemma MultipleIs(k: nat, b: nat)
    requires b > 0
    ensures k * b % b == 0
  {
    var q, r := k * b / b, k * b % b;
    assert k * b == q * b + r;
    assert (k - q) * b == r;
    SmallMultiple(k - q, b, r);
  }

  lemma SmallMultiple(d: int, b: nat, r: nat)
    requires d * b == r < b
    ensures r == 0
  {
    assert d >= 1 ==> (d - 1) * b >= 0;
  }

  function Data(tags: seq<Tag>): Bytes {
    if tags == [] then []
    else
      var last := tags[|tags| - 1];
      Aligned(Data(tags[..|tags| - 1]), Boundary(last.ty)) + Payload(last)
  }

  function Offset(tags: seq<Tag>, i: nat): nat
    requires i < |tags|
  {
    |Aligned(Data(tags[..i]), Boundary(tags[i].ty))|
  }

  datatype Entry = Entry(id: int, ty: int, offset: int, count: int)

  /** `getPackedTagIndex` */
  function PackEntry(e: Entry): (s: Bytes)
    ensures |s| == 16
  {
    BE(4, e.id) + BE(4, e.ty) + BE(4, e.offset) + BE(4, e.count)
  }

  function PackEntries(es: seq<Entry>): Bytes {
    if es == [] then [] else PackEntry(es[0]) + PackEntries(es[1..])
  }

  function EntryOf(tags: seq<Tag>, i: nat): Entry
    requires i < |tags|
  {
    Entry(tags[i].id, tags[i].ty, Offset(tags, i), Count(tags[i]))
  }

  function EntriesOf(tags: seq<Tag>): (es: seq<Entry>)
    ensures |es| == |tags|
  {
    if tags == [] then [] else EntriesOf(tags[..|tags| - 1]) + [EntryOf(tags, |tags| - 1)]
  }

  lemma {:induction false} EntriesAt(tags: seq<Tag>, i: nat)
    requires i < |tags|
    ensures EntriesOf(tags)[i] == EntryOf(tags, i)
  {
    if i < |tags| - 1 {
      var init := tags[..|tags| - 1];
      EntriesAt(init, i);
      assert init[..i] == tags[..i] && init[i] == tags[i];
    }
  }

  const MAGIC: Bytes := [0x8e, 0xad, 0xe8]

  /** `getTagSetHeader` */
  function PackHeader(tagsNum: int, dataLen: int): (s: Bytes)
    ensures |s| == 16
  {
    MAGIC + [1] + BE(4, 0) + BE(4, tagsNum) + BE(4, dataLen)
  }

  function RegionEntry(tags: seq<Tag>, region: int): Entry {
    Entry(region, BIN_TYPE, |Data(tags)|, 16)
  }

  function Trailer(tags: seq<Tag>, region: int): Bytes {
    PackEntry(Entry(region, BIN_TYPE, -(|tags| + 1) * 16, 16))
  }

  /** What `packTagSet` writes for well-typed tags. */
  function Packed(tags: seq<Tag>, region: int): Bytes {
    PackHeader(|tags| + 1, |Data(tags)| + 16)
    + (PackEntry(RegionEntry(tags, region)) + PackEntries(EntriesOf(tags)))
    + (Data(tags) + Trailer(tags, region))
  }

  // ---- the reader ----

  function ReadInts(w: nat, s: Bytes, count: nat): Option<seq<int>> {
    if count == 0 then Some([])
    else if |s| < w then None
    else match ReadInts(w, s[w..], count - 1)
      case None => None
      case Some(rest) => Some([FromBE(s[..w])] + rest)
  }

  /** The position of the first NUL, or the length. */
  function FindNul(s: Bytes): (n: nat)
    ensures n <= |s|
  {
    if s == [] || s[0] == 0 then 0 else 1 + FindNul(s[1..])
  }

  function ReadTexts(s: Bytes, count: nat): Option<seq<Bytes>>
    decreases count
  {
    if count == 0 then Some([])
    else
      var n := FindNul(s);
      if n == |s| then None
      else match ReadTexts(s[n + 1..], count - 1)
        case None => None
        case Some(rest) => Some([s[..n]] + rest)
  }

  /** The size of one element of an integer type of the format, 0 for the other types. */
  function ElementSize(ty: int): nat {
    if ty == 2 then 1 else if ty == 3 then 2 else if ty == 4 then 4 else if ty == 5 then 8 else 0
  }

  /** The data of one entry, by the numbers the format gives its types: 0 null, 1 char, 2 to 5
      integers, 6 string, 7 binary, 8 array of strings.  A null or a string counts as one. */
  function ReadValue(ty: int, s: Bytes, count: nat): Option<TagValue> {
    if ty == 0 then if count == 1 then Some(Nil) else None
    else if ty == 1 || ty == 7 then if count <= |s| then Some(Raw(s[..count])) else None
    else if ty == 6 then
      if count != 1 then None
      else match ReadTexts(s, 1)
        case None => None
        case Some(list) => if |list| == 1 then Some(Text(list[0])) else None
    else if ty == 8 then
      match ReadTexts(s, count)
      case None => None
      case Some(list) => Some(Texts(list))
    else if ElementSize(ty) > 0 then
      match ReadInts(ElementSize(ty), s, count)
      case None => None
      case Some(xs) => Some(Ints(ElementSize(ty), xs))
    else None
  }

  function ReadEntry(s: Bytes): Entry
    requires |s| >= 16
  {
    Entry(FromBE(s[..4]), FromBE(s[4..8]), FromBE(s[8..12]), FromBE(s[12..16]))
  }

  function ReadEntries(s: Bytes, n: nat): Option<seq<Entry>> {
    if n == 0 then Some([])
    else if |s| < 16 then None
    else match ReadEntries(s[16..], n - 1)
      case None => None
      case Some(rest) => Some([ReadEntry(s)] + rest)
  }

  /** What a reader gets back for one tag. */
  datatype Read = Read(id: int, ty: int, count: int, value: TagValue)

  /** Integers must lie on a multiple of their size. */
  predicate Acceptable(e: Entry) {
    ElementSize(e.ty) > 0 ==> e.offset % ElementSize(e.ty) == 0
  }

  function ReadTag(e: Entry, store: Bytes): Option<Read> {
    if !(0 <= e.offset <= |store|) || e.count < 0 || !Acceptable(e) then None
    else match ReadValue(e.ty, store[e.offset..], e.count)
      case None => None
      case Some(v) => Some(Read(e.id, e.ty, e.count, v))
  }

  function ReadTags(es: seq<Entry>, store: Bytes): Option<seq<Read>> {
    if es == [] then Some([])
    else match (ReadTag(es[0], store), ReadTags(es[1..], store))
      case (Some(t), Some(rest)) => Some([t] + rest)
      case _ => None
  }

  datatype Header = Header(tags: seq<Read>, rest: Bytes)

  /** Reads one header structure from the front of `s`. */
  function ReadHeader(s: Bytes): Option<Header> {
    if |s| < 16 || s[..4] != [0x8e, 0xad, 0xe8, 1] || s[4..8] != [0, 0, 0, 0] then None
    else
      var n, size := FromBE(s[8..12]), FromBE(s[12..16]);
      if n < 0 || size < 0 || |s| < 16 + 16 * n + size then None
      else match ReadEntries(s[16..], n)
        case None => None
        case Some(es) =>
          var store := s[16 + 16 * n..][..size];
          match ReadTags(es, store)
          case None => None
          case Some(tags) => Some(Header(tags, s[16 + 16 * n..][size..]))
  }
}
