/**
 Packing an RPM file: the buffers as the Go code fills them, the lead, the signature and the
 header, and a reader for the whole file.
 */
module RpmPack {
  import opened Options
  import opened RpmTagSet
  import opened RpmRoundTrip
  import opened Sequences

  predicate AllTyped(tags: seq<Tag>) { forall i :: 0 <= i < |tags| ==> WellTyped(tags[i]) }

  datatype PackedTag = PackedTag(count: nat, data: Bytes)

  method PackIntList(w: nat, xs: seq<int>) returns (data: Bytes)
    ensures data == PackInts(w, xs)
  {
    data := [];
    for i := 0 to |xs|
      invariant data + PackInts(w, xs[i..]) == PackInts(w, xs)
    {
      assert xs[i..][1..] == xs[i + 1..];
      data := data + BE(w, xs[i]);
    }
    assert xs[|xs|..] == [];
  }

  method PackTextList(list: seq<Bytes>) returns (data: Bytes)
    ensures data == PackTexts(list)
  {
    data := [];
    for i := 0 to |list|
      invariant data + PackTexts(list[i..]) == PackTexts(list)
    {
      assert list[i..][1..] == list[i + 1..];
      data := data + (list[i] + [0]);
    }
    assert list[|list|..] == [];
  }

  /** `packTag`: an error exactly when the value has not the Go type its tag type asks for. */
  method PackTag(t: Tag) returns (r: Option<PackedTag>)
    ensures r.None? <==> !WellTyped(t)
    ensures r.Some? ==> r.value == PackedTag(Count(t), Payload(t))
  {
    if t.ty == NULL_TYPE {
      if !t.value.Nil? { return None; }
      r := Some(PackedTag(1, []));
    } else if t.ty == CHAR_TYPE || t.ty == BIN_TYPE {
      if !t.value.Raw? { return None; }
      r := Some(PackedTag(|t.value.bytes|, t.value.bytes));
    } else if t.ty == STRING_ARRAY_TYPE {
      if !t.value.Texts? { return None; }
      var data := PackTextList(t.value.list);
      r := Some(PackedTag(|t.value.list|, data));
    } else if t.ty == STRING_TYPE {
      if !t.value.Text? { return None; }
      r := Some(PackedTag(1, t.value.s + [0]));
    } else if IntWidth(t.ty) > 0 {
      if !t.value.Ints? || t.value.width != IntWidth(t.ty) { return None; }
      var data := PackIntList(t.value.width, t.value.ints);
      r := Some(PackedTag(|t.value.ints|, data));
    } else {
      r := None;
    }
  }

  /** `alignData` */
  method AlignData(data: Bytes, boundaries: nat) returns (r: Bytes)
    requires boundaries > 0
    ensures r == Aligned(data, boundaries)
  {
    r := data;
    if |data| % boundaries != 0 {
      var alignedLen := (|data| / boundaries + 1) * boundaries;
      PaddingMinimal(|data|, boundaries);
      r := data + Zeros(alignedLen - |data|);
    }
  }

  datatype DataAndIndex = DataAndIndex(data: Bytes, index: Bytes)

  /** One turn of the loop of `packTagSet`: the offset comes from the length of the data so far. */
  method AppendTag(t: Tag, sofar: DataAndIndex) returns (r: Option<DataAndIndex>)
    ensures r.None? <==> !WellTyped(t)
    ensures r.Some? ==> r.value == Appended(t, sofar)
  {
    var packed := PackTag(t);
    if packed.None? { return None; }
    var data := AlignData(sofar.data, Boundary(t.ty));
    var index := PackEntry(Entry(t.id, t.ty, |data|, packed.value.count));
    r := Some(DataAndIndex(data + packed.value.data, sofar.index + index));
  }

  function Appended(t: Tag, sofar: DataAndIndex): DataAndIndex {
    var aligned := Aligned(sofar.data, Boundary(t.ty));
    DataAndIndex(aligned + Payload(t), sofar.index + PackEntry(Entry(t.id, t.ty, |aligned|, Count(t))))
  }

  function AppendedAll(tags: seq<Tag>): DataAndIndex {
    if tags == [] then DataAndIndex([], [])
    else Appended(tags[|tags| - 1], AppendedAll(tags[..|tags| - 1]))
  }

  /** The loop of `packTagSet`. */
  method PackTags(tags: seq<Tag>) returns (r: Option<DataAndIndex>)
    ensures r.Some? <==> AllTyped(tags)
    ensures r.Some? ==> r.value == AppendedAll(tags)
  {
    hide Appended;
    var sofar := DataAndIndex([], []);
    for i := 0 to |tags|
      invariant sofar == AppendedAll(tags[..i])
      invariant forall j :: 0 <= j < i ==> WellTyped(tags[j])
    {
      var next := AppendTag(tags[i], sofar);
      if next.None? { return None; }
      AppendedNext(tags, i);
      sofar := next.value;
    }
    assert tags[..|tags|] == tags;
    r := Some(sofar);
  }

  lemma AppendedNext(tags: seq<Tag>, i: nat)
    requires i < |tags|
    ensures AppendedAll(tags[..i + 1]) == Appended(tags[i], AppendedAll(tags[..i]))
  {
    TakeFront(tags, i);
  }

  lemma {:induction false} AppendedIsLayout(tags: seq<Tag>)
    ensures AppendedAll(tags) == DataAndIndex(Data(tags), PackEntries(EntriesOf(tags)))
  {
    if tags != [] {
      AppendedIsLayout(tags[..|tags| - 1]);
      EntriesSnoc(EntriesOf(tags[..|tags| - 1]), EntryOf(tags, |tags| - 1));
    }
  }

  lemma {:induction false} EntriesSnoc(es: seq<Entry>, e: Entry)
    ensures PackEntries(es + [e]) == PackEntries(es) + PackEntry(e)
  {
    if es == [] {
      assert es + [e] == [e] && [e][1..] == [];
    } else {
      assert (es + [e])[1..] == es[1..] + [e];
      EntriesSnoc(es[1..], e);
    }
  }

  /** `packTagSet` */
  method PackTagSet(tags: seq<Tag>, region: int) returns (r: Option<Bytes>)
    ensures r.Some? <==> AllTyped(tags)
    ensures r.Some? ==> r.value == Packed(tags, region)
  {
    hide Data, EntriesOf, PackEntries, PackEntry, PackHeader, AppendedAll, BE;
    var packed := PackTags(tags);
    if packed.None? { return None; }
    AppendedIsLayout(tags);
    var data := packed.value.data;
    var resIndex := PackEntry(Entry(region, BIN_TYPE, |data|, 16)) + packed.value.index;
    var tagsNum := |tags| + 1;
    var resData := data + PackEntry(Entry(region, BIN_TYPE, -tagsNum * 16, 16));
    r := Some(PackHeader(tagsNum, |resData|) + resIndex + resData);
  }

  // ---- the file ----

  const LEAD_MAGIC: Bytes := [0xed, 0xab, 0xee, 0xdb]

  /** The fields of the 96-byte lead: magic, version, type and architecture, the name padded with
      zeros, operating system, signature type and reserved bytes. */
  predicate IsLead(lead: Bytes, name: Bytes) {
    && |lead| == 96 && |name| <= 66
    && lead[..4] == [0xed, 0xab, 0xee, 0xdb]
    && lead[4..10] == [3, 0, 0, 0, 0, 1]
    && lead[10..76] == name + Zeros(66 - |name|)
    && lead[76..80] == [0, 1, 0, 5]
    && lead[80..] == Zeros(16)
  }

  /** The loop of `genRpmLead`, which indexes a 66-byte array with the name. */
  method LeadName(name: Bytes) returns (field: Bytes)
    requires |name| <= 66
    ensures field == name + Zeros(66 - |name|)
  {
    var a := new byte[66](_ => 0);
    for i := 0 to |name|
      invariant a[..i] == name[..i]
      invariant forall j :: i <= j < 66 ==> a[j] == 0
    {
      a[i] := name[i];
    }
    field := a[..];
  }

  function LeadFront(): (s: Bytes)
    ensures |s| == 10 && s[..4] == LEAD_MAGIC && s[4..] == [3, 0, 0, 0, 0, 1]
  {
    BESmall(3);
    BESmall(0);
    BESmall(1);
    LEAD_MAGIC + (BE(1, 3) + BE(1, 0) + BE(2, 0) + BE(2, 1))
  }

  /** `genRpmLead` */
  method GenRpmLead(name: Bytes) returns (lead: Bytes)
    requires |name| <= 66
    ensures IsLead(lead, name)
  {
    var field := LeadName(name);
    lead := LeadFront() + field + (LeadBack() + Zeros(16));
    LeadParts(LeadFront(), field, LeadBack(), Zeros(16));
  }

  function LeadBack(): (s: Bytes)
    ensures s == [0, 1, 0, 5]
  {
    BESmall(1);
    BESmall(5);
    BE(2, 1) + BE(2, 5)
  }

  lemma LeadParts(front: Bytes, field: Bytes, back: Bytes, reserved: Bytes)
    requires |front| == 10 && |field| == 66 && |back| == 4
    ensures
      var lead := front + field + (back + reserved);
      && lead[..4] == front[..4] && lead[4..10] == front[4..] && lead[10..76] == field
      && lead[76..80] == back && lead[80..] == reserved
  {
  }

  const SIGNATURES := 62
  const IMMUTABLE := 63

  function RpmFile(lead: Bytes, signature: seq<Tag>, header: seq<Tag>, payload: Bytes): Bytes {
    lead + Aligned(Packed(signature, SIGNATURES), 8) + Packed(header, IMMUTABLE) + payload
  }

  /** The layout of `packRpm`: lead, padded signature, header, compressed archive. */
  method PackRpm(name: Bytes, signature: seq<Tag>, header: seq<Tag>, payload: Bytes) returns (r: Option<Bytes>)
    requires |name| <= 66
    ensures r.Some? <==> AllTyped(header) && AllTyped(signature)
    ensures r.Some? ==>
      exists lead :: IsLead(lead, name) && r.value == RpmFile(lead, signature, header, payload)
  {
    var packedHeader := PackTagSet(header, IMMUTABLE);
    if packedHeader.None? { return None; }
    var body := packedHeader.value + payload;
    var packedSignature := PackTagSet(signature, SIGNATURES);
    if packedSignature.None? { return None; }
    var aligned := AlignData(packedSignature.value, 8);
    var lead := GenRpmLead(name);
    assert (lead + aligned) + body == RpmFile(lead, signature, header, payload);
    r := Some((lead + aligned) + body);
  }

  /** The main header starts on an eight-byte boundary of the file. */
  lemma HeaderAligned(lead: Bytes, signature: seq<Tag>, header: seq<Tag>, payload: Bytes)
    requires |lead| == 96
    ensures
      var at := 96 + |Aligned(Packed(signature, SIGNATURES), 8)|;
      at % 8 == 0 && RpmFile(lead, signature, header, payload)[at..] == Packed(header, IMMUTABLE) + payload
  {
    hide Packed, Padding;
    var sig, main := Packed(signature, SIGNATURES), Packed(header, IMMUTABLE);
    PaddingMinimal(|sig|, 8);
    Behind(lead, Aligned(sig, 8), main, payload);
  }

  lemma Behind(lead: Bytes, padded: Bytes, main: Bytes, payload: Bytes)
    ensures (lead + padded + main + payload)[|lead| + |padded|..] == main + payload
  {
  }

  datatype RpmContents = RpmContents(signature: seq<Read>, header: seq<Read>, payload: Bytes)

  /** Reads a file: skips the lead, reads the signature, skips to the boundary, reads the header. */
  function ReadRpm(f: Bytes): Option<RpmContents> {
    if |f| < 96 then None
    else match ReadHeader(f[96..])
      case None => None
      case Some(sig) =>
        var used := |f[96..]| - |sig.rest|;
        if used < 0 || Padding(used, 8) > |sig.rest| then None
        else match ReadHeader(sig.rest[Padding(used, 8)..])
          case None => None
          case Some(main) => Some(RpmContents(sig.tags, main.tags, main.rest))
  }

  /** The whole file is read back: signature, header and payload. */
  lemma FileRoundTrip(lead: Bytes, signature: seq<Tag>, header: seq<Tag>, payload: Bytes)
    requires |lead| == 96 && Encodable(signature, SIGNATURES) && Encodable(header, IMMUTABLE)
    ensures ReadRpm(RpmFile(lead, signature, header, payload)) ==
      Some(RpmContents([RegionRead(signature, 62)] + ReadsOf(signature), [RegionRead(header, 63)] + ReadsOf(header),
                       payload))
  {
    var sig, main := Packed(signature, SIGNATURES), Packed(header, IMMUTABLE);
    var pad := Zeros(Padding(|sig|, 8));
    AfterLead(lead, sig, pad, main, payload);
    RoundTrip(signature, SIGNATURES, pad + (main + payload));
    RoundTrip(header, IMMUTABLE, payload);
    ReadSections(RpmFile(lead, signature, header, payload), sig, pad, main + payload,
                 Header([RegionRead(signature, SIGNATURES)] + ReadsOf(signature), pad + (main + payload)),
                 Header([RegionRead(header, IMMUTABLE)] + ReadsOf(header), payload));
  }

  lemma ReadSections(f: Bytes, sig: Bytes, pad: Bytes, rest: Bytes, sigHeader: Header, mainHeader: Header)
    requires |f| >= 96 && f[96..] == sig + (pad + rest) && |pad| == Padding(|sig|, 8)
    requires ReadHeader(sig + (pad + rest)) == Some(sigHeader) && sigHeader.rest == pad + rest
    requires ReadHeader(rest) == Some(mainHeader)
    ensures ReadRpm(f) == Some(RpmContents(sigHeader.tags, mainHeader.tags, mainHeader.rest))
  {
    assert |f[96..]| - |sigHeader.rest| == |sig|;
    assert sigHeader.rest[Padding(|sig|, 8)..] == rest;
  }

  lemma AfterLead(lead: Bytes, sig: Bytes, pad: Bytes, main: Bytes, payload: Bytes)
    ensures (lead + (sig + pad) + main + payload)[|lead|..] == sig + (pad + (main + payload))
  {
  }
}
