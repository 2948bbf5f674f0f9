/**
 The reader gives back what the encoder was given, every value lies where its type demands,
 and the sections of an RPM file can be told apart again.
 */
module RpmRoundTrip {
  import opened Options
  import opened RpmTagSet
  import opened Sequences

  // ---- values ----

  lemma {:induction false} IntsBack(w: nat, xs: seq<int>, rest: Bytes)
    requires w > 0 && forall i :: 0 <= i < |xs| ==> Fits(w, xs[i])
    ensures ReadInts(w, PackInts(w, xs) + rest, |xs|) == Some(xs)
  {
    if xs != [] {
      hide BE, FromBE, Fits;
      Assoc(BE(w, xs[0]), PackInts(w, xs[1..]), rest);
      TakeBehind(BE(w, xs[0]), PackInts(w, xs[1..]) + rest);
      BERoundTrip(w, xs[0]);
      IntsBack(w, xs[1..], rest);
      Uncons(xs);
    }
  }

  lemma {:induction false} FindNulAt(s: Bytes, rest: Bytes)
    requires 0 !in s
    ensures FindNul(s + [0] + rest) == |s|
  {
    if s != [] {
      assert (s + [0] + rest)[1..] == s[1..] + [0] + rest;
      FindNulAt(s[1..], rest);
    }
  }

  lemma {:induction false} TextsBack(list: seq<Bytes>, rest: Bytes)
    requires forall i :: 0 <= i < |list| ==> 0 !in list[i]
    ensures ReadTexts(PackTexts(list) + rest, |list|) == Some(list)
  {
    if list != [] {
      var tail := PackTexts(list[1..]) + rest;
      var s := PackTexts(list) + rest;
      assert s == list[0] + [0] + tail;
      FindNulAt(list[0], tail);
      assert s[..|list[0]|] == list[0] && s[|list[0]| + 1..] == tail;
      TextsBack(list[1..], rest);
      assert [list[0]] + list[1..] == list;
    }
  }

  lemma SizesMatch(t: Tag)
    requires WellTyped(t)
    ensures t.value.Ints? ==> t.value.width == ElementSize(t.ty) == Boundary(t.ty) > 0
    ensures !t.value.Ints? ==> ElementSize(t.ty) == 0 && Boundary(t.ty) == 1
  {
  }

  /** One value, read from where it was written. */
  lemma PayloadBack(t: Tag, rest: Bytes)
    requires WellTyped(t) && Sound(t)
    ensures ReadValue(t.ty, Payload(t) + rest, Count(t)) == Some(t.value)
  {
    match t.value
    case Nil =>
    case Raw(bytes) =>
      assert (bytes + rest)[..|bytes|] == bytes;
    case Text(s) =>
      assert PackTexts([s]) == s + [0] by { assert [s][1..] == []; assert s + [0] + [] == s + [0]; }
      TextsBack([s], rest);
    case Texts(list) => TextsBack(list, rest);
    case Ints(w, xs) => IntsBack(w, xs, rest);
  }

  lemma {:induction false} IntsSize(w: nat, xs: seq<int>)
    requires w > 0
    ensures |xs| <= |PackInts(w, xs)|
  {
    if xs != [] { IntsSize(w, xs[1..]); }
  }

  lemma {:induction false} TextsSize(list: seq<Bytes>)
    ensures |list| <= |PackTexts(list)|
  {
    if list != [] { TextsSize(list[1..]); }
  }

  lemma CountBound(t: Tag)
    requires WellTyped(t)
    ensures Count(t) <= |Payload(t)| + 1
  {
    match t.value
    case Texts(list) => TextsSize(list);
    case Ints(w, xs) => IntsSize(w, xs);
    case _ =>
  }

  // ---- index ----

  predicate EntryFits(e: Entry) {
    Fits(4, e.id) && Fits(4, e.ty) && Fits(4, e.offset) && Fits(4, e.count)
  }

  lemma EntryBack(e: Entry, rest: Bytes)
    requires EntryFits(e)
    ensures ReadEntry(PackEntry(e) + rest) == e
  {
    var s := PackEntry(e) + rest;
    assert s[..4] == BE(4, e.id) && s[4..8] == BE(4, e.ty);
    assert s[8..12] == BE(4, e.offset) && s[12..16] == BE(4, e.count);
    BERoundTrip(4, e.id);
    BERoundTrip(4, e.ty);
    BERoundTrip(4, e.offset);
    BERoundTrip(4, e.count);
  }

  lemma {:induction false} EntriesBack(es: seq<Entry>, rest: Bytes)
    requires forall i :: 0 <= i < |es| ==> EntryFits(es[i])
    ensures |PackEntries(es)| == 16 * |es|
    ensures ReadEntries(PackEntries(es) + rest, |es|) == Some(es)
  {
    if es != [] {
      hide PackEntry, ReadEntry, EntryFits;
      Assoc(PackEntry(es[0]), PackEntries(es[1..]), rest);
      EntryBack(es[0], PackEntries(es[1..]) + rest);
      TakeBehind(PackEntry(es[0]), PackEntries(es[1..]) + rest);
      EntriesBack(es[1..], rest);
      Uncons(es);
    }
  }

  // ---- placement ----

  lemma {:induction false} DataGrows(tags: seq<Tag>, k: nat)
    requires k <= |tags|
    ensures Data(tags[..k]) <= Data(tags)
  {
    if k == |tags| {
      assert tags[..k] == tags;
    } else {
      var init := tags[..|tags| - 1];
      assert init[..k] == tags[..k];
      DataGrows(init, k);
      assert Data(init) <= Data(tags);
    }
  }

  /** A value starts on the boundary of its type, after fewer zero bytes than the boundary, and
      its bytes follow there. */
  lemma Placed(tags: seq<Tag>, i: nat)
    requires i < |tags|
    ensures
      var b, start, off := Boundary(tags[i].ty), |Data(tags[..i])|, Offset(tags, i);
      && off % b == 0 && start <= off < start + b
      && off + |Payload(tags[i])| <= |Data(tags)|
      && (forall j :: start <= j < off ==> Data(tags)[j] == 0)
      && Data(tags)[off..off + |Payload(tags[i])|] == Payload(tags[i])
  {
    hide Data, Payload, Padding;
    var before, b := Data(tags[..i]), Boundary(tags[i].ty);
    PlacedAfter(tags, i);
    PaddingMinimal(|before|, b);
    PlacedIn(before, Zeros(Padding(|before|, b)), Payload(tags[i]), Data(tags));
  }

  lemma PlacedAfter(tags: seq<Tag>, i: nat)
    requires i < |tags|
    ensures Aligned(Data(tags[..i]), Boundary(tags[i].ty)) + Payload(tags[i]) <= Data(tags)
  {
    TakeFront(tags, i);
    DataGrows(tags, i + 1);
  }

  lemma PlacedIn(before: Bytes, pad: Bytes, payload: Bytes, all: Bytes)
    requires before + pad + payload <= all
    ensures
      var start, off := |before|, |before + pad|;
      && off + |payload| <= |all|
      && (forall j :: start <= j < off ==> all[j] == pad[j - start])
      && all[off..off + |payload|] == payload
  {
    var s := before + pad + payload;
    assert s == all[..|s|];
    assert s[|before + pad|..] == payload;
  }

  /** Integers lie on a multiple of their size after fewer zero bytes than that; every other value
      follows at once. */
  lemma PlacedBySize(tags: seq<Tag>, i: nat)
    requires i < |tags| && WellTyped(tags[i])
    ensures
      var start, off := |Data(tags[..i])|, Offset(tags, i);
      match tags[i].value
      case Ints(w, _) =>
        && off % w == 0 && start <= off < start + w && off <= |Data(tags)|
        && forall j :: start <= j < off ==> Data(tags)[j] == 0
      case _ => off == start
  {
    Placed(tags, i);
    SizesMatch(tags[i]);
    hide Data, Payload, Boundary, WellTyped;
  }

  // ---- the whole tag set ----

  /** The tag set is within the reach of the format: Go types respected, NUL-free strings,
      identifiers and sizes within int32. */
  ghost predicate Encodable(tags: seq<Tag>, region: int) {
    && (forall i :: 0 <= i < |tags| ==> WellTyped(tags[i]) && Sound(tags[i]) && Fits(4, tags[i].id))
    && Fits(4, region)
    && |Data(tags)| + 16 < 0x8000_0000
    && (|tags| + 1) * 16 < 0x8000_0000
  }

  /** What reading a tag must give. */
  function ReadOf(t: Tag): Read { Read(t.id, t.ty, Count(t), t.value) }

  function ReadsOf(tags: seq<Tag>): seq<Read> {
    seq(|tags|, i requires 0 <= i < |tags| => ReadOf(tags[i]))
  }

  lemma EntriesFit(tags: seq<Tag>, region: int, i: nat)
    requires Encodable(tags, region) && i < |tags|
    ensures EntryFits(EntryOf(tags, i))
  {
    Placed(tags, i);
    CountBound(tags[i]);
    FitsWidths(tags[i].ty);
    FitsWidths(Offset(tags, i));
    FitsWidths(Count(tags[i]));
  }

  lemma TagBack(tags: seq<Tag>, region: int, i: nat, store: Bytes)
    requires Encodable(tags, region) && i < |tags| && Data(tags) <= store
    ensures ReadTag(EntryOf(tags, i), store) == Some(ReadOf(tags[i]))
  {
    ValueThere(tags, i, store);
    InPlace(tags, i);
    hide ReadValue, Offset, Acceptable, WellTyped, Sound, Count, Data, Fits;
  }

  lemma InPlace(tags: seq<Tag>, i: nat)
    requires i < |tags| && WellTyped(tags[i])
    ensures Acceptable(EntryOf(tags, i))
  {
    Placed(tags, i);
    SizesMatch(tags[i]);
  }

  lemma ValueThere(tags: seq<Tag>, i: nat, store: Bytes)
    requires i < |tags| && WellTyped(tags[i]) && Sound(tags[i]) && Data(tags) <= store
    ensures Offset(tags, i) <= |store|
    ensures ReadValue(tags[i].ty, store[Offset(tags, i)..], Count(tags[i])) == Some(tags[i].value)
  {
    Placed(tags, i);
    hide Data, Payload, ReadValue, Boundary, WellTyped, Sound, Count;
    var off, n := Offset(tags, i), |Payload(tags[i])|;
    SplitStore(Data(tags), store, off, n);
    PayloadBack(tags[i], store[off + n..]);
  }

  lemma SplitStore(data: Bytes, store: Bytes, off: nat, n: nat)
    requires data <= store && off + n <= |data|
    ensures store[off..] == data[off..off + n] + store[off + n..]
  {
  }

  lemma ReadTagsCons(es: seq<Entry>, store: Bytes, t: Read, rest: seq<Read>)
    requires es != [] && ReadTag(es[0], store) == Some(t) && ReadTags(es[1..], store) == Some(rest)
    ensures ReadTags(es, store) == Some([t] + rest)
  {
  }

  lemma NoTags(es: seq<Entry>, back: seq<Read>, store: Bytes)
    requires |es| == |back|
    ensures ReadTags(es[|es|..], store) == Some(back[|es|..])
  {
    assert es[|es|..] == [] && back[|es|..] == [];
  }

  lemma SliceStep<T>(s: seq<T>, k: nat)
    requires k < |s|
    ensures s[k..] != [] && s[k..][0] == s[k] && s[k..][1..] == s[k + 1..] && s[k..] == [s[k]] + s[k + 1..]
  {
  }

  lemma {:induction false} TagsBack(tags: seq<Tag>, region: int, k: nat, store: Bytes)
    requires Encodable(tags, region) && k <= |tags| && Data(tags) <= store
    ensures ReadTags(EntriesOf(tags)[k..], store) == Some(ReadsOf(tags)[k..])
    decreases |tags| - k
  {
    hide Encodable, Data, EntriesOf, ReadTag, ReadTags;
    if k == |tags| {
      NoTags(EntriesOf(tags), ReadsOf(tags), store);
    } else {
      TagBack(tags, region, k, store);
      EntriesAt(tags, k);
      TagsBack(tags, region, k + 1, store);
      SliceStep(EntriesOf(tags), k);
      SliceStep(ReadsOf(tags), k);
      ReadTagsCons(EntriesOf(tags)[k..], store, ReadOf(tags[k]), ReadsOf(tags)[k + 1..]);
    }
  }

  /** The region tag as a reader sees it: sixteen bytes that point back over the index. */
  function RegionRead(tags: seq<Tag>, region: int): Read {
    Read(region, 7, 16, Raw(Trailer(tags, region)))
  }

  lemma RegionBack(tags: seq<Tag>, region: int)
    requires Encodable(tags, region)
    ensures ReadTag(RegionEntry(tags, region), Data(tags) + Trailer(tags, region)) == Some(RegionRead(tags, region))
    ensures EntryFits(RegionEntry(tags, region))
  {
    var store := Data(tags) + Trailer(tags, region);
    assert store[|Data(tags)|..] == Trailer(tags, region);
    assert Trailer(tags, region)[..16] == Trailer(tags, region);
    FitsWidths(BIN_TYPE);
    FitsWidths(16);
    FitsWidths(|Data(tags)|);
  }

  /** The region data is an index entry itself, with the offset back to the first one. */
  lemma TrailerBack(tags: seq<Tag>, region: int)
    requires Encodable(tags, region)
    ensures ReadEntry(Trailer(tags, region)) == Entry(region, 7, -16 * (|tags| + 1), 16)
  {
    var e := Entry(region, BIN_TYPE, -(|tags| + 1) * 16, 16);
    FitsWidths(BIN_TYPE);
    FitsWidths(16);
    FitsWidths(e.offset);
    EntryBack(e, []);
    assert PackEntry(e) + [] == PackEntry(e);
  }

  function AllEntries(tags: seq<Tag>, region: int): seq<Entry> {
    [RegionEntry(tags, region)] + EntriesOf(tags)
  }

  function Store(tags: seq<Tag>, region: int): Bytes {
    Data(tags) + Trailer(tags, region)
  }

  lemma AllEntriesFit(tags: seq<Tag>, region: int)
    requires Encodable(tags, region)
    ensures forall i :: 0 <= i < |AllEntries(tags, region)| ==> EntryFits(AllEntries(tags, region)[i])
  {
    RegionBack(tags, region);
    forall i | 0 <= i < |AllEntries(tags, region)| ensures EntryFits(AllEntries(tags, region)[i]) {
      if i > 0 {
        EntriesFit(tags, region, i - 1);
        EntriesAt(tags, i - 1);
      }
    }
  }

  lemma AllTagsBack(tags: seq<Tag>, region: int)
    requires Encodable(tags, region)
    ensures ReadTags(AllEntries(tags, region), Store(tags, region)) == Some([RegionRead(tags, region)] + ReadsOf(tags))
  {
    RegionBack(tags, region);
    TagsBack(tags, region, 0, Store(tags, region));
    assert EntriesOf(tags)[0..] == EntriesOf(tags) && ReadsOf(tags)[0..] == ReadsOf(tags);
    assert AllEntries(tags, region)[1..] == EntriesOf(tags);
  }

  /** Reading the packed tag set, with anything after it, gives back exactly the tags. */
  lemma RoundTrip(tags: seq<Tag>, region: int, after: Bytes)
    requires Encodable(tags, region)
    ensures ReadHeader(Packed(tags, region) + after) ==
            Some(Header([RegionRead(tags, region)] + ReadsOf(tags), after))
  {
    var es, store := AllEntries(tags, region), Store(tags, region);
    AllEntriesFit(tags, region);
    AllTagsBack(tags, region);
    ReadAssembled(es, store, after, [RegionRead(tags, region)] + ReadsOf(tags));
    assert es[1..] == EntriesOf(tags);
    Regroup(PackHeader(|es|, |store|), PackEntries(es), store, after);
  }

  lemma Regroup(a: Bytes, b: Bytes, c: Bytes, d: Bytes)
    ensures a + b + c + d == a + (b + (c + d))
  {
  }

  /** A header structure put together from its parts is taken apart again. */
  lemma ReadAssembled(es: seq<Entry>, store: Bytes, after: Bytes, back: seq<Read>)
    requires |es| < 0x8000_0000 && |store| < 0x8000_0000
    requires forall i :: 0 <= i < |es| ==> EntryFits(es[i])
    requires ReadTags(es, store) == Some(back)
    ensures ReadHeader(PackHeader(|es|, |store|) + (PackEntries(es) + (store + after))) == Some(Header(back, after))
  {
    hide PackHeader, PackEntries, ReadEntries, ReadTags, FromBE, EntryFits, ReadTag;
    var body := PackEntries(es) + (store + after);
    EntriesBack(es, store + after);
    HeaderFields(|es|, |store|, body);
    TakeBehind(PackHeader(|es|, |store|), body);
    TakeBehind(PackEntries(es), store + after);
    TakeBehind(store, after);
    DropDrop(PackHeader(|es|, |store|) + body, 16, 16 * |es|);
  }

  lemma HeaderFields(tagsNum: nat, dataLen: nat, rest: Bytes)
    requires tagsNum < 0x8000_0000 && dataLen < 0x8000_0000
    ensures
      var s := PackHeader(tagsNum, dataLen) + rest;
      && s[..4] == [0x8e, 0xad, 0xe8, 1] && s[4..8] == [0, 0, 0, 0]
      && FromBE(s[8..12]) == tagsNum && FromBE(s[12..16]) == dataLen
  {
    FitsWidths(tagsNum);
    FitsWidths(dataLen);
    BERoundTrip(4, tagsNum);
    BERoundTrip(4, dataLen);
    HeaderParts(tagsNum, dataLen, rest);
    hide PackHeader, BE, FromBE, Fits;
  }

  lemma {:induction false} BEZero(w: nat)
    ensures BE(w, 0) == seq(w, _ => 0)
  {
    if w > 0 { BEZero(w - 1); }
  }

  lemma HeaderParts(tagsNum: nat, dataLen: nat, rest: Bytes)
    ensures
      var s := PackHeader(tagsNum, dataLen) + rest;
      && s[..4] == [0x8e, 0xad, 0xe8, 1] && s[4..8] == [0, 0, 0, 0]
      && s[8..12] == BE(4, tagsNum) && s[12..16] == BE(4, dataLen)
  {
    BEZero(4);
    assert [0, 0, 0, 0] == seq(4, _ => 0);
    hide BE;
  }
}
