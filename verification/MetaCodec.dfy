/** The record and proposal codecs: each message's field table, and every record and proposal
    read back from its own bytes. */
module MetaCodec {
  import opened Bytes
  import opened MetaVid
  import opened MetaKeys
  import opened MetaKV
  import opened MetaPersist
  import opened MetaRecords
  import opened MetaWire
  import MetaDeep
  import MetaRewrite
  import opened MetaFields
  import opened MetaSystemCodec
  import opened MetaStore

  const PartRefKinds: seq<Kind> := [Id, U64, Blob, U64, U32, U32, Repeat, Enum, Blob, U64]
  const CompletedPartKinds: seq<Kind> := [U32, Blob]

  const PartRefs := MetaDeep.ListOf(Fields(PartRefKinds), true)
  const CompletedParts := MetaDeep.ListOf(Fields(CompletedPartKinds), false)

  // Records.
  const BucketShapes := [P(U32), P(Blob), P(U64), P(Enum), P(Flag), P(Enum), P(U32), P(U32)]
  const VersionShapes := [
    P(U32), P(Id), P(Enum), P(U64), P(U64), P(Blob), P(Blob), MetaDeep.MapOf, P(U64), P(U32), P(U32),
    P(Blob), P(Repeat), P(Enum), P(U64), P(Flag), P(Flag), P(Id), PartRefs, P(Enum), P(Blob), P(U64)]
  const CurrentShapes := [P(U32), P(Id), P(U64), P(Blob), P(U64), P(U32)]
  const UploadShapes := [P(U32), P(Id), P(U64), P(Blob), MetaDeep.MapOf]
  const PartShapes := [
    P(U32), P(U32), P(Id), P(U64), P(Blob), P(Blob), P(U64), P(U64), P(U32), P(U32), P(Repeat), P(Enum), P(Blob),
    P(U64)]

  // ---- records as messages ----

  function PartRefMsg(p: PartRef): Msg {
    Msg([IdVal(p.dataId), Num(Unsigned(p.size)), Str(p.checksum), Num(p.layout.partition), Num(p.layout.dataShards),
         Num(p.layout.parityShards), Many(p.layout.shardChecksums), Num(p.layout.encAlgorithm),
         Str(p.layout.wrappedDEK),
         Num(p.layout.kekFingerprint)], p.unknown)
  }

  function PartRefOf(m: Msg): PartRef
    requires |m.vals| == 10
  {
    var v := m.vals;
    PartRef(IdOf(v[0]), Signed(NumOf(v[1])), BytesOf(v[2]),
            Layout(NumOf(v[3]), U32Of(v[4]), U32Of(v[5]), ListOfVal(v[6]), U8Of(v[7]), BytesOf(v[8]), NumOf(v[9])),
            m.unknown)
  }

  lemma PartRefBack(p: PartRef)
    ensures PartRefOf(PartRefMsg(p)) == p
  {
    IdBack(p.dataId);
    hide IdOf, IdVal;
  }

  function BucketItems(c: BucketConfig): seq<Item> {
    [MetaDeep.V(Num(c.formatVersion)), MetaDeep.V(Str(c.name)), MetaDeep.V(Num(Unsigned(c.createdMS))),
     MetaDeep.V(Num(c.versioning)),
     MetaDeep.V(Num(Bit(c.lockEnabled))), MetaDeep.V(Num(c.defaultMode)), MetaDeep.V(Num(c.defaultDays)),
     MetaDeep.V(Num(c.defaultYears))]
  }

  function BucketOf(d: MetaDeep.Deep): BucketConfig
    requires |d.items| == 8
  {
    var x := d.items;
    BucketConfig(U32Of(ValOf(x[0])), BytesOf(ValOf(x[1])), Signed(NumOf(ValOf(x[2]))), U8Of(ValOf(x[3])),
                 NumOf(ValOf(x[4])) != 0,
                 U8Of(ValOf(x[5])), U32Of(ValOf(x[6])), U32Of(ValOf(x[7])), d.unknown)
  }

  function CurrentItems(c: CurrentRecord): seq<Item> {
    [MetaDeep.V(Num(c.formatVersion)), MetaDeep.V(IdVal(c.id)), MetaDeep.V(Num(Unsigned(c.size))),
     MetaDeep.V(Str(c.etag)),
     MetaDeep.V(Num(Unsigned(c.createdMS))), MetaDeep.V(Num(c.partCount))]
  }

  function CurrentOf(d: MetaDeep.Deep): CurrentRecord
    requires |d.items| == 6
  {
    var x := d.items;
    CurrentRecord(U32Of(ValOf(x[0])), IdOf(ValOf(x[1])), Signed(NumOf(ValOf(x[2]))), BytesOf(ValOf(x[3])),
                  Signed(NumOf(ValOf(x[4]))),
                  U32Of(ValOf(x[5])), d.unknown)
  }

  function UploadItems(u: UploadRecord): seq<Item> {
    [MetaDeep.V(Num(u.formatVersion)), MetaDeep.V(IdVal(u.id)), MetaDeep.V(Num(Unsigned(u.createdMS))),
     MetaDeep.V(Str(u.contentType)),
     MetaDeep.Dict(u.userMetadata)]
  }

  function UploadOf(d: MetaDeep.Deep): UploadRecord
    requires |d.items| == 5
  {
    var x := d.items;
    UploadRecord(U32Of(ValOf(x[0])), IdOf(ValOf(x[1])), Signed(NumOf(ValOf(x[2]))), BytesOf(ValOf(x[3])),
                 DictOf(x[4]), d.unknown)
  }

  function PartItems(p: PartRecord): seq<Item> {
    [MetaDeep.V(Num(p.formatVersion)), MetaDeep.V(Num(p.number)), MetaDeep.V(IdVal(p.dataId)),
     MetaDeep.V(Num(Unsigned(p.size))),
     MetaDeep.V(Str(p.etag)), MetaDeep.V(Str(p.checksum)), MetaDeep.V(Num(Unsigned(p.uploadedMS))),
     MetaDeep.V(Num(p.layout.partition)),
     MetaDeep.V(Num(p.layout.dataShards)), MetaDeep.V(Num(p.layout.parityShards)),
     MetaDeep.V(Many(p.layout.shardChecksums)),
     MetaDeep.V(Num(p.layout.encAlgorithm)), MetaDeep.V(Str(p.layout.wrappedDEK)),
     MetaDeep.V(Num(p.layout.kekFingerprint))]
  }

  function PartOf(d: MetaDeep.Deep): PartRecord
    requires |d.items| == 14
  {
    var x := d.items;
    PartRecord(U32Of(ValOf(x[0])), U32Of(ValOf(x[1])), IdOf(ValOf(x[2])), Signed(NumOf(ValOf(x[3]))),
               BytesOf(ValOf(x[4])),
               BytesOf(ValOf(x[5])), Signed(NumOf(ValOf(x[6]))),
               Layout(NumOf(ValOf(x[7])), U32Of(ValOf(x[8])), U32Of(ValOf(x[9])), ListOfVal(ValOf(x[10])),
                      U8Of(ValOf(x[11])),
                      BytesOf(ValOf(x[12])), NumOf(ValOf(x[13]))), d.unknown)
  }

  function PartRefMsgs(parts: seq<PartRef>): (ms: seq<Msg>)
    ensures |ms| == |parts| && forall i :: 0 <= i < |ms| ==> ms[i] == PartRefMsg(parts[i])
  {
    seq(|parts|, i requires 0 <= i < |parts| => PartRefMsg(parts[i]))
  }

  function PartRefsOf(ms: seq<Msg>): (parts: seq<PartRef>)
    ensures |parts| == |ms|
  {
    seq(|ms|, i requires 0 <= i < |ms| => if |ms[i].vals| == 10 then PartRefOf(ms[i])
        else PartRef(0, 0, [], Layout(0, 0, 0, [], 0, [], 0), []))
  }

  lemma PartRefsBack(parts: seq<PartRef>)
    ensures PartRefsOf(PartRefMsgs(parts)) == parts
  {
    hide PartRefOf, PartRefMsg;
    forall i | 0 <= i < |parts|
      ensures |PartRefMsg(parts[i]).vals| == 10 && PartRefOf(PartRefMsg(parts[i])) == parts[i]
    {
      TenVals(parts[i]);
      PartRefBack(parts[i]);
    }
  }

  lemma TenVals(p: PartRef)
    ensures |PartRefMsg(p).vals| == 10
  {
  }

  function VersionItems(e: VersionEntry): (x: seq<Item>)
    ensures |x| == 22
  {
    [MetaDeep.V(Num(e.formatVersion)), MetaDeep.V(IdVal(e.id)), MetaDeep.V(Num(e.kind)),
     MetaDeep.V(Num(Unsigned(e.size))),
     MetaDeep.V(Num(Unsigned(e.createdMS))), MetaDeep.V(Str(e.etag)), MetaDeep.V(Str(e.contentType)),
     MetaDeep.Dict(e.userMetadata),
     MetaDeep.V(Num(e.layout.partition)), MetaDeep.V(Num(e.layout.dataShards)), MetaDeep.V(Num(e.layout.parityShards)),
     MetaDeep.V(Str(e.objectChecksum)), MetaDeep.V(Many(e.layout.shardChecksums)), MetaDeep.V(Num(e.mode)),
     MetaDeep.V(Num(Unsigned(e.retainUntilMS))), MetaDeep.V(Num(Bit(e.hold))), MetaDeep.V(Num(Bit(e.nullVersion))),
     MetaDeep.V(IdVal(e.dataId)), MetaDeep.Nested(PartRefMsgs(e.parts)), MetaDeep.V(Num(e.layout.encAlgorithm)),
     MetaDeep.V(Str(e.layout.wrappedDEK)), MetaDeep.V(Num(e.layout.kekFingerprint))]
  }

  function VersionOf(d: MetaDeep.Deep): VersionEntry
    requires |d.items| == 22
  {
    var x := d.items;
    VersionEntry(
      U32Of(ValOf(x[0])), IdOf(ValOf(x[1])), IdOf(ValOf(x[17])), U8Of(ValOf(x[2])), Signed(NumOf(ValOf(x[3]))),
      Signed(NumOf(ValOf(x[4]))),
      BytesOf(ValOf(x[5])), BytesOf(ValOf(x[6])), DictOf(x[7]),
      Layout(NumOf(ValOf(x[8])), U32Of(ValOf(x[9])), U32Of(ValOf(x[10])), ListOfVal(ValOf(x[12])), U8Of(ValOf(x[19])),
             BytesOf(ValOf(x[20])), NumOf(ValOf(x[21]))),
      BytesOf(ValOf(x[11])), U8Of(ValOf(x[13])), Signed(NumOf(ValOf(x[14]))), NumOf(ValOf(x[15])) != 0,
      NumOf(ValOf(x[16])) != 0,
      PartRefsOf(MsgsOf(x[18])), d.unknown)
  }

  lemma VersionBack(e: VersionEntry)
    ensures VersionOf(MetaDeep.Deep(VersionItems(e), e.unknown)) == e
  {
    IdBack(e.id);
    IdBack(e.dataId);
    PartRefsBack(e.parts);
    hide IdOf, IdVal, PartRefsOf, PartRefMsgs;
  }

  lemma PartRefForth(m: Msg)
    requires AllHold(Fields(PartRefKinds), m.vals)
    ensures |m.vals| == 10 && PartRefMsg(PartRefOf(m)) == m
  {
    hide U32Of, U8Of, NumOf, BytesOf, IdOf, IdVal, ListOfVal, Signed, Unsigned;
    NestedForth(PartRefKinds, m);
    var v := m.vals;
    assert Rebuilt(Id, v[0]) == v[0] && Rebuilt(U64, v[1]) == v[1] && Rebuilt(Blob, v[2]) == v[2] &&
      Rebuilt(U64, v[3]) == v[3];
    assert Rebuilt(U32, v[4]) == v[4] && Rebuilt(U32, v[5]) == v[5] && Rebuilt(Repeat, v[6]) == v[6] &&
      Rebuilt(Enum, v[7]) == v[7];
    assert Rebuilt(Blob, v[8]) == v[8] && Rebuilt(U64, v[9]) == v[9];
    SignedForth(NumOf(v[1]));
    assert PartRefMsg(PartRefOf(m)).vals == v;
  }

  lemma PartRefsForth(ms: seq<Msg>)
    requires forall i :: 0 <= i < |ms| ==> AllHold(Fields(PartRefKinds), ms[i].vals)
    ensures PartRefMsgs(PartRefsOf(ms)) == ms
  {
    hide PartRefOf, PartRefMsg;
    forall i | 0 <= i < |ms|
      ensures |ms[i].vals| == 10 && PartRefMsg(PartRefOf(ms[i])) == ms[i]
    {
      PartRefForth(ms[i]);
    }
  }

  ghost predicate BucketReads(x: seq<Item>) {
    |x| == 8
    && Reads(U32, x[0]) && Reads(Blob, x[1]) && Reads(U64, x[2]) && Reads(Enum, x[3]) && Reads(Flag, x[4]) &&
    Reads(Enum, x[5]) && Reads(U32, x[6]) && Reads(U32, x[7])
  }

  lemma BucketRebuilt(d: MetaDeep.Deep)
    requires BucketReads(d.items)
    ensures BucketItems(BucketOf(d)) == d.items && BucketOf(d).unknown == d.unknown
  {
    hide U32Of, U8Of, NumOf, BytesOf, Bit, ValOf, IdOf, IdVal, ListOfVal, Signed, Unsigned;
    ReadsSigned(d.items[2]);
  }

  lemma BucketForth(d: MetaDeep.Deep)
    requires MetaDeep.DeepFits(Numbered(BucketShapes), d)
    ensures |d.items| == 8 && BucketDeep(BucketOf(d)) == d
  {
    hide MetaDeep.DeepFits, Numbered, Reads, BucketItems, BucketOf;
    FieldsForth(BucketShapes, d);
    var x := d.items;
    assert BucketReads(x) by {
      var s := BucketShapes;
      assert ItemForth(s[0], x[0]) && ItemForth(s[1], x[1]) && ItemForth(s[2], x[2]) && ItemForth(s[3], x[3]) &&
        ItemForth(s[4], x[4]) && ItemForth(s[5], x[5]) && ItemForth(s[6], x[6]) && ItemForth(s[7], x[7]);
    }
    BucketRebuilt(d);
  }

  ghost predicate CurrentReads(x: seq<Item>) {
    |x| == 6
    && Reads(U32, x[0]) && Reads(Id, x[1]) && Reads(U64, x[2]) && Reads(Blob, x[3]) && Reads(U64, x[4]) &&
    Reads(U32, x[5])
  }

  lemma CurrentRebuilt(d: MetaDeep.Deep)
    requires CurrentReads(d.items)
    ensures CurrentItems(CurrentOf(d)) == d.items && CurrentOf(d).unknown == d.unknown
  {
    hide U32Of, U8Of, NumOf, BytesOf, Bit, ValOf, IdOf, IdVal, ListOfVal, Signed, Unsigned;
    ReadsSigned(d.items[2]);
    ReadsSigned(d.items[4]);
  }

  lemma CurrentForth(d: MetaDeep.Deep)
    requires MetaDeep.DeepFits(Numbered(CurrentShapes), d)
    ensures |d.items| == 6 && CurrentDeep(CurrentOf(d)) == d
  {
    hide MetaDeep.DeepFits, Numbered, Reads, CurrentItems, CurrentOf;
    FieldsForth(CurrentShapes, d);
    var x := d.items;
    assert CurrentReads(x) by {
      var s := CurrentShapes;
      assert ItemForth(s[0], x[0]) && ItemForth(s[1], x[1]) && ItemForth(s[2], x[2]) && ItemForth(s[3], x[3]) &&
        ItemForth(s[4], x[4]) && ItemForth(s[5], x[5]);
    }
    CurrentRebuilt(d);
  }

  ghost predicate UploadReads(x: seq<Item>) {
    |x| == 5
    && Reads(U32, x[0]) && Reads(Id, x[1]) && Reads(U64, x[2]) && Reads(Blob, x[3]) && x[4].Dict?
  }

  lemma UploadRebuilt(d: MetaDeep.Deep)
    requires UploadReads(d.items)
    ensures UploadItems(UploadOf(d)) == d.items && UploadOf(d).unknown == d.unknown
  {
    hide U32Of, U8Of, NumOf, BytesOf, Bit, ValOf, IdOf, IdVal, ListOfVal, Signed, Unsigned;
    ReadsSigned(d.items[2]);
  }

  lemma UploadForth(d: MetaDeep.Deep)
    requires MetaDeep.DeepFits(Numbered(UploadShapes), d)
    ensures |d.items| == 5 && UploadDeep(UploadOf(d)) == d
  {
    hide MetaDeep.DeepFits, Numbered, Reads, UploadItems, UploadOf;
    FieldsForth(UploadShapes, d);
    var x := d.items;
    assert UploadReads(x) by {
      var s := UploadShapes;
      assert ItemForth(s[0], x[0]) && ItemForth(s[1], x[1]) && ItemForth(s[2], x[2]) && ItemForth(s[3], x[3]) &&
        ItemForth(s[4], x[4]);
    }
    UploadRebuilt(d);
  }

  ghost predicate PartReads(x: seq<Item>) {
    |x| == 14
    && Reads(U32, x[0]) && Reads(U32, x[1]) && Reads(Id, x[2]) && Reads(U64, x[3]) && Reads(Blob, x[4]) &&
    Reads(Blob, x[5]) && Reads(U64, x[6]) && Reads(U64, x[7]) && Reads(U32, x[8]) && Reads(U32, x[9]) &&
    Reads(Repeat, x[10]) && Reads(Enum, x[11]) && Reads(Blob, x[12]) && Reads(U64, x[13])
  }

  lemma PartRebuilt(d: MetaDeep.Deep)
    requires PartReads(d.items)
    ensures PartItems(PartOf(d)) == d.items && PartOf(d).unknown == d.unknown
  {
    hide U32Of, U8Of, NumOf, BytesOf, Bit, ValOf, IdOf, IdVal, ListOfVal, Signed, Unsigned;
    ReadsSigned(d.items[3]);
    ReadsSigned(d.items[6]);
  }

  lemma PartForth(d: MetaDeep.Deep)
    requires MetaDeep.DeepFits(Numbered(PartShapes), d)
    ensures |d.items| == 14 && PartDeep(PartOf(d)) == d
  {
    hide MetaDeep.DeepFits, Numbered, Reads, PartItems, PartOf;
    FieldsForth(PartShapes, d);
    var x := d.items;
    assert PartReads(x) by {
      var s := PartShapes;
      assert ItemForth(s[0], x[0]) && ItemForth(s[1], x[1]) && ItemForth(s[2], x[2]) && ItemForth(s[3], x[3]) &&
        ItemForth(s[4], x[4]) && ItemForth(s[5], x[5]) && ItemForth(s[6], x[6]) && ItemForth(s[7], x[7]) &&
        ItemForth(s[8], x[8]) && ItemForth(s[9], x[9]) && ItemForth(s[10], x[10]) && ItemForth(s[11], x[11]) &&
        ItemForth(s[12], x[12]) && ItemForth(s[13], x[13]);
    }
    PartRebuilt(d);
  }

  ghost predicate VersionReads(x: seq<Item>) {
    |x| == 22
    && Reads(U32, x[0]) && Reads(Id, x[1]) && Reads(Enum, x[2]) && Reads(U64, x[3]) && Reads(U64, x[4]) &&
    Reads(Blob, x[5]) && Reads(Blob, x[6]) && x[7].Dict? && Reads(U64, x[8]) && Reads(U32, x[9]) &&
    Reads(U32, x[10]) && Reads(Blob, x[11]) && Reads(Repeat, x[12]) && Reads(Enum, x[13]) && Reads(U64, x[14]) &&
    Reads(Flag, x[15]) && Reads(Flag, x[16]) && Reads(Id, x[17]) && ItemForth(PartRefs, x[18]) &&
    Reads(Enum, x[19]) && Reads(Blob, x[20]) && Reads(U64, x[21])
  }

  lemma VersionRebuilt(d: MetaDeep.Deep)
    requires VersionReads(d.items)
    ensures VersionItems(VersionOf(d)) == d.items && VersionOf(d).unknown == d.unknown
  {
    hide U32Of, U8Of, NumOf, BytesOf, Bit, ValOf, IdOf, IdVal, ListOfVal, Signed, Unsigned, PartRefsOf, PartRefMsgs;
    ReadsSigned(d.items[3]);
    ReadsSigned(d.items[4]);
    ReadsSigned(d.items[14]);
    PartRefsForth(d.items[18].msgs);
  }

  lemma VersionForth(d: MetaDeep.Deep)
    requires MetaDeep.DeepFits(Numbered(VersionShapes), d)
    ensures |d.items| == 22 && VersionDeep(VersionOf(d)) == d
  {
    hide MetaDeep.DeepFits, Numbered, Reads, VersionItems, VersionOf;
    FieldsForth(VersionShapes, d);
    var x := d.items;
    assert VersionReads(x) by {
      var s := VersionShapes;
      assert ItemForth(s[0], x[0]) && ItemForth(s[1], x[1]) && ItemForth(s[2], x[2]) && ItemForth(s[3], x[3]) &&
        ItemForth(s[4], x[4]) && ItemForth(s[5], x[5]) && ItemForth(s[6], x[6]) && ItemForth(s[7], x[7]) &&
        ItemForth(s[8], x[8]) && ItemForth(s[9], x[9]) && ItemForth(s[10], x[10]) && ItemForth(s[11], x[11]) &&
        ItemForth(s[12], x[12]) && ItemForth(s[13], x[13]) && ItemForth(s[14], x[14]) && ItemForth(s[15], x[15]) &&
        ItemForth(s[16], x[16]) && ItemForth(s[17], x[17]) && ItemForth(s[18], x[18]) && ItemForth(s[19], x[19]) &&
        ItemForth(s[20], x[20]) && ItemForth(s[21], x[21]);
    }
    VersionRebuilt(d);
  }

  lemma BucketBack(c: BucketConfig)
    ensures BucketOf(MetaDeep.Deep(BucketItems(c), c.unknown)) == c
  {
  }

  lemma CurrentBack(c: CurrentRecord)
    ensures CurrentOf(MetaDeep.Deep(CurrentItems(c), c.unknown)) == c
  {
    IdBack(c.id);
    hide IdOf, IdVal;
  }

  lemma UploadBack(u: UploadRecord)
    ensures UploadOf(MetaDeep.Deep(UploadItems(u), u.unknown)) == u
  {
    IdBack(u.id);
    hide IdOf, IdVal;
  }

  lemma PartBack(p: PartRecord)
    ensures PartOf(MetaDeep.Deep(PartItems(p), p.unknown)) == p
  {
    IdBack(p.dataId);
    hide IdOf, IdVal;
  }

  // ---- rows ----

  // For each record: what can be stored, its bytes, and the way back. Storable means lengths fit
  // 64 bits and what a newer writer left is well formed.

  /** The fields of a row's bytes that its record type does not know. */
  function UnknownOf(shapes: seq<Shape>, b: bytes): bytes { MetaRewrite.UnknownIn(MetaDeep.Flat(Numbered(shapes)), b) }

  function BucketDeep(c: BucketConfig): MetaDeep.Deep { MetaDeep.Deep(BucketItems(c), c.unknown) }

  ghost predicate BucketStorable(c: BucketConfig) { MetaDeep.DeepOk(Numbered(BucketShapes), BucketDeep(c)) }

  ghost function MarshalBucket(c: BucketConfig): bytes
    requires BucketStorable(c)
  {
    MetaDeep.Encode(Numbered(BucketShapes), BucketDeep(c))
  }

  function UnmarshalBucket(b: bytes): Option<BucketConfig> {
    var d := MetaDeep.Decode(Numbered(BucketShapes), true, b);
    if d.None? then None else Some(BucketOf(d.value))
  }

  lemma BucketShapesValid()
    ensures ValidShapes(BucketShapes)
  {
  }

  lemma BucketRoundTrip(c: BucketConfig)
    requires BucketStorable(c)
    ensures UnmarshalBucket(MarshalBucket(c)) == Some(c)
  {
    hide MetaDeep.Encode, MetaDeep.Decode, MetaDeep.DeepOk, ValidShapes, BucketItems, BucketOf;
    BucketShapesValid();
    BucketBack(c);
    NumberedBack(BucketShapes, BucketDeep(c));
  }

  lemma BucketRewrite(b: bytes)
    requires |b| < TwoTo64 && UnmarshalBucket(b).Some?
    ensures var c := UnmarshalBucket(b).value;
      BucketStorable(c) && c.unknown == UnknownOf(BucketShapes, b) && UnmarshalBucket(MarshalBucket(c)) == Some(c)
  {
    hide MetaDeep.Encode, MetaDeep.Decode, MetaDeep.DeepOk, MetaDeep.DeepFits, ValidShapes, BucketItems, BucketOf;
    BucketShapesValid();
    NumberedRewrite(BucketShapes, b);
    BucketForth(MetaDeep.Decode(Numbered(BucketShapes), true, b).value);
    BucketRoundTrip(UnmarshalBucket(b).value);
  }

  function VersionDeep(e: VersionEntry): MetaDeep.Deep { MetaDeep.Deep(VersionItems(e), e.unknown) }

  ghost predicate VersionStorable(e: VersionEntry) { MetaDeep.DeepOk(Numbered(VersionShapes), VersionDeep(e)) }

  ghost function MarshalVersion(e: VersionEntry): bytes
    requires VersionStorable(e)
  {
    MetaDeep.Encode(Numbered(VersionShapes), VersionDeep(e))
  }

  function UnmarshalVersion(b: bytes): Option<VersionEntry> {
    var d := MetaDeep.Decode(Numbered(VersionShapes), true, b);
    if d.None? then None else Some(VersionOf(d.value))
  }

  lemma VersionShapesValid()
    ensures ValidShapes(VersionShapes)
  {
    FieldsValid(PartRefKinds);
  }

  /** A version entry reads back from its own bytes, parts and unknown fields included. */
  lemma VersionRoundTrip(e: VersionEntry)
    requires VersionStorable(e)
    ensures UnmarshalVersion(MarshalVersion(e)) == Some(e)
  {
    hide MetaDeep.Encode, MetaDeep.Decode, MetaDeep.DeepOk, ValidShapes, VersionItems, VersionOf;
    VersionShapesValid();
    VersionBack(e);
    NumberedBack(VersionShapes, VersionDeep(e));
  }

  /** Rewriting a version entry keeps a newer writer's fields: what was decoded carries the row's
      unknown fields and reads back whole. */
  lemma VersionRewrite(b: bytes)
    requires |b| < TwoTo64 && UnmarshalVersion(b).Some?
    ensures var e := UnmarshalVersion(b).value;
      VersionStorable(e) && e.unknown == UnknownOf(VersionShapes, b) && UnmarshalVersion(MarshalVersion(e)) == Some(e)
  {
    hide MetaDeep.Encode, MetaDeep.Decode, MetaDeep.DeepOk, MetaDeep.DeepFits, ValidShapes, VersionItems, VersionOf;
    VersionShapesValid();
    NumberedRewrite(VersionShapes, b);
    VersionForth(MetaDeep.Decode(Numbered(VersionShapes), true, b).value);
    VersionRoundTrip(UnmarshalVersion(b).value);
  }

  /** One field of a message replaced by another value its kind allows. */
  lemma FieldReplaced(t: MetaDeep.Table, d: MetaDeep.Deep, i: nat, x: Item)
    requires MetaDeep.DeepOk(t, d) && i < |t| && MetaDeep.ItemOk(t[i].shape, x)
    ensures MetaDeep.DeepOk(t, d.(items := d.items[i := x]))
  {
    hide MetaDeep.ItemOk, MetaDeep.ItemFits;
    ItemOkFits(t[i].shape, x);
  }

  lemma ItemOkFits(s: Shape, x: Item)
    requires MetaDeep.ItemOk(s, x)
    ensures MetaDeep.ItemFits(s, x)
  {
  }

  lemma RetentionItems(e: VersionEntry, mode: uint8, until: int64)
    ensures VersionItems(e.(mode := mode, retainUntilMS := until)) ==
      VersionItems(e)[13 := MetaDeep.V(Num(mode))][14 := MetaDeep.V(Num(Unsigned(until)))]
  {
    hide Unsigned, IdVal, PartRefMsgs;
  }

  /** A retention update in particular: the row an older node writes back holds the new retention,
      everything else it read, and the fields it does not know. */
  lemma RetentionKeepsUnknown(b: bytes, mode: uint8, until: int64)
    requires |b| < TwoTo64 && UnmarshalVersion(b).Some?
    ensures var e := UnmarshalVersion(b).value.(mode := mode, retainUntilMS := until);
      VersionStorable(e) && e.unknown == UnknownOf(VersionShapes, b) && UnmarshalVersion(MarshalVersion(e)) == Some(e)
  {
    hide MetaDeep.Encode, MetaDeep.Decode, MetaDeep.DeepOk, VersionItems, VersionOf, UnmarshalVersion, MarshalVersion,
      UnknownOf;
    VersionRewrite(b);
    var was := UnmarshalVersion(b).value;
    var e := was.(mode := mode, retainUntilMS := until);
    RetentionItems(was, mode, until);
    var t := Numbered(VersionShapes);
    assert t[13].shape == P(Enum) && t[14].shape == P(U64);
    FieldReplaced(t, VersionDeep(was), 13, MetaDeep.V(Num(mode)));
    FieldReplaced(t, VersionDeep(was).(items := VersionItems(was)[13 := MetaDeep.V(Num(mode))]), 14,
                  MetaDeep.V(Num(Unsigned(until))));
    VersionRoundTrip(e);
  }

  function CurrentDeep(c: CurrentRecord): MetaDeep.Deep { MetaDeep.Deep(CurrentItems(c), c.unknown) }

  ghost predicate CurrentStorable(c: CurrentRecord) { MetaDeep.DeepOk(Numbered(CurrentShapes), CurrentDeep(c)) }

  ghost function MarshalCurrent(c: CurrentRecord): bytes
    requires CurrentStorable(c)
  {
    MetaDeep.Encode(Numbered(CurrentShapes), CurrentDeep(c))
  }

  function UnmarshalCurrent(b: bytes): Option<CurrentRecord> {
    var d := MetaDeep.Decode(Numbered(CurrentShapes), true, b);
    if d.None? then None else Some(CurrentOf(d.value))
  }

  lemma CurrentShapesValid()
    ensures ValidShapes(CurrentShapes)
  {
  }

  lemma CurrentRoundTrip(c: CurrentRecord)
    requires CurrentStorable(c)
    ensures UnmarshalCurrent(MarshalCurrent(c)) == Some(c)
  {
    hide MetaDeep.Encode, MetaDeep.Decode, MetaDeep.DeepOk, ValidShapes, CurrentItems, CurrentOf;
    CurrentShapesValid();
    CurrentBack(c);
    NumberedBack(CurrentShapes, CurrentDeep(c));
  }

  lemma CurrentRewrite(b: bytes)
    requires |b| < TwoTo64 && UnmarshalCurrent(b).Some?
    ensures var c := UnmarshalCurrent(b).value;
      CurrentStorable(c) && c.unknown == UnknownOf(CurrentShapes, b) && UnmarshalCurrent(MarshalCurrent(c)) == Some(c)
  {
    hide MetaDeep.Encode, MetaDeep.Decode, MetaDeep.DeepOk, MetaDeep.DeepFits, ValidShapes, CurrentItems, CurrentOf;
    CurrentShapesValid();
    NumberedRewrite(CurrentShapes, b);
    CurrentForth(MetaDeep.Decode(Numbered(CurrentShapes), true, b).value);
    CurrentRoundTrip(UnmarshalCurrent(b).value);
  }

  function UploadDeep(u: UploadRecord): MetaDeep.Deep { MetaDeep.Deep(UploadItems(u), u.unknown) }

  ghost predicate UploadStorable(u: UploadRecord) { MetaDeep.DeepOk(Numbered(UploadShapes), UploadDeep(u)) }

  ghost function MarshalUpload(u: UploadRecord): bytes
    requires UploadStorable(u)
  {
    MetaDeep.Encode(Numbered(UploadShapes), UploadDeep(u))
  }

  function UnmarshalUpload(b: bytes): Option<UploadRecord> {
    var d := MetaDeep.Decode(Numbered(UploadShapes), true, b);
    if d.None? then None else Some(UploadOf(d.value))
  }

  lemma UploadShapesValid()
    ensures ValidShapes(UploadShapes)
  {
  }

  lemma UploadRoundTrip(u: UploadRecord)
    requires UploadStorable(u)
    ensures UnmarshalUpload(MarshalUpload(u)) == Some(u)
  {
    hide MetaDeep.Encode, MetaDeep.Decode, MetaDeep.DeepOk, ValidShapes, UploadItems, UploadOf;
    UploadShapesValid();
    UploadBack(u);
    NumberedBack(UploadShapes, UploadDeep(u));
  }

  lemma UploadRewrite(b: bytes)
    requires |b| < TwoTo64 && UnmarshalUpload(b).Some?
    ensures var u := UnmarshalUpload(b).value;
      UploadStorable(u) && u.unknown == UnknownOf(UploadShapes, b) && UnmarshalUpload(MarshalUpload(u)) == Some(u)
  {
    hide MetaDeep.Encode, MetaDeep.Decode, MetaDeep.DeepOk, MetaDeep.DeepFits, ValidShapes, UploadItems, UploadOf;
    UploadShapesValid();
    NumberedRewrite(UploadShapes, b);
    UploadForth(MetaDeep.Decode(Numbered(UploadShapes), true, b).value);
    UploadRoundTrip(UnmarshalUpload(b).value);
  }

  function PartDeep(p: PartRecord): MetaDeep.Deep { MetaDeep.Deep(PartItems(p), p.unknown) }

  ghost predicate PartStorable(p: PartRecord) { MetaDeep.DeepOk(Numbered(PartShapes), PartDeep(p)) }

  ghost function MarshalPart(p: PartRecord): bytes
    requires PartStorable(p)
  {
    MetaDeep.Encode(Numbered(PartShapes), PartDeep(p))
  }

  function UnmarshalPart(b: bytes): Option<PartRecord> {
    var d := MetaDeep.Decode(Numbered(PartShapes), true, b);
    if d.None? then None else Some(PartOf(d.value))
  }

  lemma PartShapesValid()
    ensures ValidShapes(PartShapes)
  {
  }

  lemma PartRoundTrip(p: PartRecord)
    requires PartStorable(p)
    ensures UnmarshalPart(MarshalPart(p)) == Some(p)
  {
    hide MetaDeep.Encode, MetaDeep.Decode, MetaDeep.DeepOk, ValidShapes, PartItems, PartOf;
    PartShapesValid();
    PartBack(p);
    NumberedBack(PartShapes, PartDeep(p));
  }

  lemma PartRewrite(b: bytes)
    requires |b| < TwoTo64 && UnmarshalPart(b).Some?
    ensures var p := UnmarshalPart(b).value;
      PartStorable(p) && p.unknown == UnknownOf(PartShapes, b) && UnmarshalPart(MarshalPart(p)) == Some(p)
  {
    hide MetaDeep.Encode, MetaDeep.Decode, MetaDeep.DeepOk, MetaDeep.DeepFits, ValidShapes, PartItems, PartOf;
    PartShapesValid();
    NumberedRewrite(PartShapes, b);
    PartForth(MetaDeep.Decode(Numbered(PartShapes), true, b).value);
    PartRoundTrip(UnmarshalPart(b).value);
  }

  ghost predicate Storable(v: Record) {
    match v
    case BucketRec(c) => BucketStorable(c)
    case VersionRec(e) => VersionStorable(e)
    case CurrentRec(c) => CurrentStorable(c)
    case UploadRec(u) => UploadStorable(u)
    case PartRec(p) => PartStorable(p)
    case SystemRec(x) => SystemStorable(x)
  }

  /** A record's bytes. */
  ghost function Marshal(v: Record): bytes {
    match v
    case BucketRec(c) => if BucketStorable(c) then MarshalBucket(c) else []
    case VersionRec(e) => if VersionStorable(e) then MarshalVersion(e) else []
    case CurrentRec(c) => if CurrentStorable(c) then MarshalCurrent(c) else []
    case UploadRec(u) => if UploadStorable(u) then MarshalUpload(u) else []
    case PartRec(p) => if PartStorable(p) then MarshalPart(p) else []
    case SystemRec(x) => if SystemStorable(x) then MarshalSystem(x) else []
  }

  datatype RowKind =
    | BucketKind | VersionKind | CurrentKind | UploadKind | PartKind | SystemKind(name: SystemName) | NoKind

  function KindOfRow(r: RowKey): RowKind {
    match r
    case BucketRow(_) => BucketKind
    case VersionRow(_, _, _) => VersionKind
    case CurrentRow(_, _) => CurrentKind
    case UploadRow(_, _, _) => UploadKind
    case PartRow(_, _, _, _) => PartKind
    case SystemRow(name) => SystemKind(name)
  }

  /** Where the first NUL is, or the length. */
  function NulAt(s: bytes): (i: nat)
    ensures i <= |s|
  {
    if s == [] || s[0] == 0 then 0 else 1 + NulAt(s[1..])
  }

  lemma {:induction false} NulAfter(a: bytes, t: bytes)
    requires NoNul(a)
    ensures NulAt(a + Nul + t) == |a|
  {
    var s := a + Nul + t;
    if a != [] {
      assert s[0] == a[0] && s[1..] == a[1..] + Nul + t;
      NulAfter(a[1..], t);
    }
  }

  /** How long the tail of an upload row's name is: past the bucket and the key. */
  function UploadTailLen(name: bytes): Option<nat> {
    if |name| < 2 then None
    else
      var rest := name[2..];
      var i := NulAt(rest);
      if i == |rest| then None
      else
        var more := rest[i + 1..];
        var j := NulAt(more);
        if j == |more| then None else Some(|more| - j - 1)
  }

  /** What kind of record a name says its row holds. */
  function KindOfName(name: bytes): RowKind {
    if name == SystemTable + LayoutText then SystemKind(LayoutName)
    else if name == SystemTable + PostureText then SystemKind(PostureName)
    else if name == SystemTable + TrustText then SystemKind(TrustName)
    else if IsPrefix(SystemTable + NodePrefix, name) then SystemKind(NodeName(name[7..]))
    else if IsPrefix(BucketsTable, name) then BucketKind
    else if IsPrefix(VersionsTable, name) then VersionKind
    else if IsPrefix(CurrentTable, name) then CurrentKind
    else if IsPrefix(UploadsTable, name) then
      var tail := UploadTailLen(name);
      if tail == Some(16) then UploadKind else if tail == Some(20) then PartKind else NoKind
    else NoKind
  }

  function Rec<T>(x: Option<T>, f: T -> Record): Result<Record, bool> {
    if x.None? then Err(false) else Ok(f(x.value))
  }

  function DecodeAs(kind: RowKind, value: bytes): (r: Result<Record, bool>) {
    match kind
    case BucketKind => Rec(UnmarshalBucket(value), c => BucketRec(c))
    case VersionKind => Rec(UnmarshalVersion(value), e => VersionRec(e))
    case CurrentKind => Rec(UnmarshalCurrent(value), c => CurrentRec(c))
    case UploadKind => Rec(UnmarshalUpload(value), u => UploadRec(u))
    case PartKind => Rec(UnmarshalPart(value), p => PartRec(p))
    case SystemKind(name) => Rec(UnmarshalSystem(name, value), x => SystemRec(x))
    case NoKind => Err(false)
  }

  /** The record a row's bytes are; its name says which kind. */
  function DecodeRow(name: bytes, value: bytes): (r: Result<Record, bool>) {
    DecodeAs(KindOfName(name), value)
  }

  lemma TableName(r: RowKey, t: bytes)
    requires |t| == 2
    ensures IsPrefix(t, MetaKeys.Encode(r)) <==> TableOf(r) == t
  {
    EncodeParts(r);
    assert MetaKeys.Encode(r)[..2] == TableOf(r);
  }

  lemma UploadTailOf(r: RowKey)
    requires ValidRow(r) && (r.UploadRow? || r.PartRow?)
    ensures UploadTailLen(MetaKeys.Encode(r)) == Some(if r.UploadRow? then 16 else 20)
  {
    hide MetaKeys.Encode, BodyOf, UploadTail;
    EncodeParts(r);
    UploadBody(r);
    var rest := BodyOf(r);
    var more := r.key + Nul + UploadTail(r);
    assert MetaKeys.Encode(r)[2..] == rest;
    NulAfter(r.bucket, more);
    assert rest[|r.bucket| + 1..] == more;
    NulAfter(r.key, UploadTail(r));
  }

  lemma SystemRowName(r: RowKey)
    requires r.SystemRow?
    ensures MetaKeys.Encode(r) == SystemTable + SystemText(r.name)
  {
    EncodeParts(r);
  }

  lemma NotSystemName(r: RowKey, text: bytes)
    requires !r.SystemRow?
    ensures !IsPrefix(SystemTable + text, MetaKeys.Encode(r))
  {
    hide MetaKeys.Encode, BodyOf;
    EncodeParts(r);
    assert MetaKeys.Encode(r)[0] == TableOf(r)[0];
    assert (SystemTable + text)[0] == 115;
  }

  lemma SystemNameIs(name: SystemName, text: bytes)
    ensures SystemTable + SystemText(name) == SystemTable + text <==> SystemText(name) == text
    ensures IsPrefix(SystemTable + text, SystemTable + SystemText(name)) <==> IsPrefix(text, SystemText(name))
  {
    hide SystemText;
    var s := SystemText(name);
    assert (SystemTable + s)[2..] == s && (SystemTable + text)[2..] == text;
    if |text| <= |s| {
      assert (SystemTable + s)[..2 + |text|] == SystemTable + s[..|text|];
      assert (SystemTable + s[..|text|])[2..] == s[..|text|];
    }
  }

  lemma SystemTexts(name: SystemName)
    ensures SystemText(name) == LayoutText <==> name.LayoutName?
    ensures SystemText(name) == PostureText <==> name.PostureName?
    ensures SystemText(name) == TrustText <==> name.TrustName?
    ensures IsPrefix(NodePrefix, SystemText(name)) <==> name.NodeName?
    ensures name.NodeName? ==> |SystemText(name)| >= 5 && SystemText(name)[5..] == name.id
  {
    if name.NodeName? {
      assert SystemText(name)[..5] == NodePrefix && SystemText(name)[0] == 110;
    } else {
      assert SystemText(name)[0] != 110;
    }
  }

  /** The names of system rows are told apart from each other and from every other row's. */
  lemma SystemNames(r: RowKey)
    ensures MetaKeys.Encode(r) == SystemTable + LayoutText <==> r == SystemRow(LayoutName)
    ensures MetaKeys.Encode(r) == SystemTable + PostureText <==> r == SystemRow(PostureName)
    ensures MetaKeys.Encode(r) == SystemTable + TrustText <==> r == SystemRow(TrustName)
    ensures IsPrefix(SystemTable + NodePrefix, MetaKeys.Encode(r)) <==> r.SystemRow? && r.name.NodeName?
    ensures r.SystemRow? && r.name.NodeName? ==> MetaKeys.Encode(r)[7..] == r.name.id
  {
    hide MetaKeys.Encode, IsPrefix, SystemText;
    if r.SystemRow? {
      SystemRowName(r);
      SystemTexts(r.name);
      SystemNameIs(r.name, LayoutText);
      SystemNameIs(r.name, PostureText);
      SystemNameIs(r.name, TrustText);
      SystemNameIs(r.name, NodePrefix);
      if r.name.NodeName? {
        assert MetaKeys.Encode(r)[7..] == SystemText(r.name)[5..];
      }
    } else {
      OtherName(r, LayoutText);
      OtherName(r, PostureText);
      OtherName(r, TrustText);
      NotSystemName(r, NodePrefix);
    }
  }

  lemma OtherName(r: RowKey, text: bytes)
    requires !r.SystemRow?
    ensures MetaKeys.Encode(r) != SystemTable + text
  {
    hide MetaKeys.Encode;
    NotSystemName(r, text);
  }

  /** A name says what its row holds. */
  lemma NameSaysKind(r: RowKey)
    requires ValidRow(r)
    ensures KindOfName(MetaKeys.Encode(r)) == KindOfRow(r)
  {
    SystemNames(r);
    hide MetaKeys.Encode, IsPrefix, UploadTailLen, ValidRow;
    TableName(r, SystemTable);
    TableName(r, BucketsTable);
    TableName(r, VersionsTable);
    TableName(r, CurrentTable);
    TableName(r, UploadsTable);
    TablesDiffer();
    if r.UploadRow? || r.PartRow? {
      UploadTailOf(r);
    }
  }

  /** Every record reads back from the row it is stored in. */
  lemma RecordRoundTrip(r: RowKey, v: Record)
    requires ValidRow(r) && MetaRecords.Fits(r, v) && Storable(v)
    ensures DecodeRow(MetaKeys.Encode(r), Marshal(v)) == Ok(v)
  {
    hide MetaKeys.Encode, KindOfName, ValidRow;
    hide BucketStorable, VersionStorable, CurrentStorable, UploadStorable, PartStorable;
    hide SystemStorable, MarshalSystem, UnmarshalSystem;
    hide MarshalBucket, MarshalVersion, MarshalCurrent, MarshalUpload, MarshalPart;
    hide UnmarshalBucket, UnmarshalVersion, UnmarshalCurrent, UnmarshalUpload, UnmarshalPart;
    NameSaysKind(r);
    match v {
      case VersionRec(e) => VersionRoundTrip(e);
      case BucketRec(c) => BucketRoundTrip(c);
      case CurrentRec(c) => CurrentRoundTrip(c);
      case UploadRec(u) => UploadRoundTrip(u);
      case PartRec(p) => PartRoundTrip(p);
      case SystemRec(x) => SystemRoundTrip(r.name, x);
    }
  }

  lemma TablesDiffer()
    ensures SystemTable != BucketsTable && SystemTable != VersionsTable && SystemTable != CurrentTable &&
      SystemTable != UploadsTable
    ensures BucketsTable != VersionsTable && BucketsTable != CurrentTable && BucketsTable != UploadsTable
    ensures VersionsTable != CurrentTable && VersionsTable != UploadsTable && CurrentTable != UploadsTable
  {
    assert SystemTable[0] == 115 && BucketsTable[0] == 98 && VersionsTable[0] == 118 && CurrentTable[0] == 99 &&
      UploadsTable[0] == 117;
  }

  /** A store whose records fit survives a dump: loading it back reproduces every row. */
  lemma DumpReproduces(keys: seq<bytes>, vals: map<bytes, Record>, st: State)
    requires Indexes(keys, vals) && Represents(vals, st) && forall k :: k in vals ==> Storable(vals[k])
    ensures RoundTrips(vals, v => Marshal(v), DecodeRow)
    ensures Loaded(Dumped(keys, vals, v => Marshal(v)), DecodeRow) == vals
  {
    forall k | k in vals
      ensures DecodeRow(k, Marshal(vals[k])) == Ok(vals[k])
    {
      var r := NamedRow(vals, st, k);
      RecordRoundTrip(r, vals[k]);
    }
    hide DecodeRow, Marshal, Represents;
    LoadedIsDumped(keys, vals, v => Marshal(v), DecodeRow);
  }
}
