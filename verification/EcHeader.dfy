/** A shard file's self-describing front: magic, header length, versioned header. */
module EcHeader {
  import opened Bytes
  import opened Wire
  import opened EcGeometry

  const Magic: bytes := [0x48, 0x4d, 0x53, 0x31]
  const FormatVersion := 1
  const MaxHeader := 0x10_0000

  datatype Header = Header(id: bytes, index: int, k: int, m: int, sliceSize: int, frameSize: int)

  datatype HeaderError = ShortRead | BadMagic | Implausible | Corrupt | NoVersion | BadParams

  /** A header Writer can produce: its fields fit the widths they are stored in. */
  predicate Storable(h: Header) {
    && |h.id| == 16 && ValidParams(h.k, h.m) && 0 <= h.index < h.k + h.m
    && 0 < h.sliceSize < TwoTo64 / 2 && 0 < h.frameSize < TwoTo64 / 2
  }

  /** The Go conversion of a uint64 to a signed 64-bit integer. */
  function Signed(v: uint64): int {
    if v < TwoTo64 / 2 then v else v - TwoTo64
  }

  function VarintField(num: nat, v: nat): bytes {
    AppendTag(num, VarintType) + AppendVarint(v)
  }

  function EncodeFields(h: Header): bytes
    requires Storable(h)
  {
    VarintField(1, FormatVersion) +
    (AppendTag(2, BytesType) + AppendBytes(h.id) +
     (VarintField(3, h.index) + (VarintField(4, h.k) + (VarintField(5, h.m) +
     (VarintField(6, h.sliceSize) + (VarintField(7, h.frameSize) + []))))))
  }

  function LittleEndian32(n: nat): (b: bytes)
    requires n < 0x1_0000_0000
    ensures |b| == 4
  {
    [(n % 256) as byte, (n / 256 % 256) as byte, (n / 0x1_0000 % 256) as byte, (n / 0x100_0000) as byte]
  }

  function ReadLittleEndian32(b: bytes): (n: nat)
    requires |b| == 4
  {
    b[0] as nat + 256 * (b[1] as nat) + 0x1_0000 * (b[2] as nat) + 0x100_0000 * (b[3] as nat)
  }

  /** The complete file front. */
  function EncodeShard(h: Header): (b: bytes)
    requires Storable(h)
  {
    FieldsFit(h);
    var p := EncodeFields(h);
    Magic + LittleEndian32(|p|) + p
  }

  /** Stores one varint field; unknown numbers are ignored. */
  function SetField(h: Header, num: nat, v: uint64): Header {
    match num
    case 3 => h.(index := Signed(v))
    case 4 => h.(k := Signed(v))
    case 5 => h.(m := Signed(v))
    case 6 => h.(sliceSize := Signed(v))
    case 7 => h.(frameSize := Signed(v))
    case _ => h
  }

  /** The header fields in `p`, folded over `h`; the second component is the last format
      version seen (0 when none). */
  function ParseFields(p: bytes, h: Header, version: uint64): (r: Result<(Header, uint64), HeaderError>)
    decreases |p|
  {
    if p == [] then Ok((h, version))
    else
      var t := ConsumeTag(p);
      if t.None? then Err(Corrupt)
      else
        var (num, typ, n) := t.value;
        var q := p[n..];
        if num == 2 && typ == BytesType then
          var v := ConsumeBytes(q);
          if v.None? || |v.value.0| != 16 then Err(Corrupt)
          else ParseFields(q[v.value.1..], h.(id := v.value.0), version)
        else if typ == VarintType then
          var v := ConsumeVarint(q);
          if v.None? then Err(Corrupt)
          else ParseFields(q[v.value.1..], SetField(h, num, v.value.0), if num == 1 then v.value.0 else version)
        else
          var v := ConsumeFieldValue(num, typ, q, RecursionLimit);
          if v.None? then Err(Corrupt) else ParseFields(q[v.value..], h, version)
  }

  /** Every field holds a value its storage can hold. */
  predicate Fits(h: Header) {
    |h.id| == 16 && h.sliceSize < TwoTo64 / 2 && h.frameSize < TwoTo64 / 2
  }

  lemma {:induction false} ParseFits(p: bytes, h: Header, version: uint64)
    requires Fits(h)
    ensures ParseFields(p, h, version).Ok? ==> Fits(ParseFields(p, h, version).value.0)
    decreases |p|
  {
    hide ConsumeTag, ConsumeBytes, ConsumeVarint, ConsumeFieldValue;
    if p != [] && ConsumeTag(p).Some? {
      var (num, typ, n) := ConsumeTag(p).value;
      var q := p[n..];
      if num == 2 && typ == BytesType {
        var v := ConsumeBytes(q);
        if v.Some? && |v.value.0| == 16 {
          ParseFits(q[v.value.1..], h.(id := v.value.0), version);
        }
      } else if typ == VarintType {
        var v := ConsumeVarint(q);
        if v.Some? {
          ParseFits(q[v.value.1..], SetField(h, num, v.value.0), if num == 1 then v.value.0 else version);
        }
      } else {
        var v := ConsumeFieldValue(num, typ, q, RecursionLimit);
        if v.Some? {
          ParseFits(q[v.value..], h, version);
        }
      }
    }
  }

  const NoHeader := Header(Zeros(16), 0, 0, 0, 0, 0)

  /** The header at the front of a shard file and where its payload begins. */
  function DecodeShard(file: bytes): (r: Result<(Header, nat), HeaderError>)
    ensures r.Ok? ==> 8 <= r.value.1 <= |file|
    ensures r.Ok? ==> Storable(r.value.0)
  {
    if |file| < 8 then Err(ShortRead)
    else if file[..4] != Magic then Err(BadMagic)
    else
      var len := ReadLittleEndian32(file[4..8]);
      if len > MaxHeader then Err(Implausible)
      else if |file| < 8 + len then Err(ShortRead)
      else
        ParseFits(file[8..8 + len], NoHeader, 0);
        var r := ParseFields(file[8..8 + len], NoHeader, 0);
        if r.Err? then Err(r.error)
        else
          var (h, version) := r.value;
          if version == 0 then Err(NoVersion)
          else if !ValidParams(h.k, h.m) then Err(BadParams)
          else if h.index < 0 || h.index >= h.k + h.m || h.sliceSize <= 0 || h.frameSize <= 0 then Err(Corrupt)
          else Ok((h, 8 + len))
  }

  /** The decoder as the source runs it: one loop consuming the header field by field. */
  method ReadFields(fields: bytes) returns (r: Result<(Header, uint64), HeaderError>)
    ensures r == ParseFields(fields, NoHeader, 0)
  {
    var p, h, version: uint64 := fields, NoHeader, 0;
    while p != []
      invariant ParseFields(p, h, version) == ParseFields(fields, NoHeader, 0)
      decreases |p|
    {
      var t := ConsumeTag(p);
      if t.None? {
        return Err(Corrupt);
      }
      var (num, typ, n) := t.value;
      var q := p[n..];
      if num == 2 && typ == BytesType {
        var v := ConsumeBytes(q);
        if v.None? || |v.value.0| != 16 {
          return Err(Corrupt);
        }
        h := h.(id := v.value.0);
        p := q[v.value.1..];
      } else if typ == VarintType {
        var v := ConsumeVarint(q);
        if v.None? {
          return Err(Corrupt);
        }
        h := SetField(h, num, v.value.0);
        if num == 1 {
          version := v.value.0;
        }
        p := q[v.value.1..];
      } else {
        var v := ConsumeFieldValue(num, typ, q, RecursionLimit);
        if v.None? {
          return Err(Corrupt);
        }
        p := q[v.value..];
      }
    }
    r := Ok((h, version));
  }

  lemma {:induction false} VarintLength(v: nat, i: nat)
    requires i <= 9 && v < Room(i)
    ensures |AppendVarint(v)| <= 10 - i
    decreases 9 - i
  {
    if v >= 128 {
      VarintLength(v / 128, i + 1);
    }
  }

  lemma VarintFieldLength(num: nat, v: uint64)
    requires num <= 15
    ensures |VarintField(num, v)| <= 20
  {
    RoomIs64Bits();
    VarintLength(8 * num + VarintType, 0);
    VarintLength(v, 0);
  }

  lemma FieldsFit(h: Header)
    requires Storable(h)
    ensures |EncodeFields(h)| <= MaxHeader
  {
    hide AppendVarint;
    RoomIs64Bits();
    VarintFieldLength(1, FormatVersion);
    VarintLength(8 * 2 + BytesType, 0);
    VarintLength(|h.id|, 0);
    VarintFieldLength(3, h.index);
    VarintFieldLength(4, h.k);
    VarintFieldLength(5, h.m);
    VarintFieldLength(6, h.sliceSize);
    VarintFieldLength(7, h.frameSize);
  }

  /** One varint field at the head of the input. */
  lemma ParseVarintField(num: nat, v: uint64, rest: bytes, h: Header, version: uint64)
    requires 1 <= num <= 15 && num != 2
    ensures ParseFields(VarintField(num, v) + rest, h, version)
         == ParseFields(rest, SetField(h, num, v), if num == 1 then v else version)
  {
    var p := VarintField(num, v) + rest;
    var n := |AppendTag(num, VarintType)|;
    TagRoundTrip(num, VarintType, AppendVarint(v) + rest);
    assert p == AppendTag(num, VarintType) + (AppendVarint(v) + rest);
    assert p[n..] == AppendVarint(v) + rest;
    VarintRoundTrip(v, rest);
    assert p[n..][|AppendVarint(v)|..] == rest;
  }

  lemma ParseIdField(id: bytes, rest: bytes, h: Header, version: uint64)
    requires |id| == 16
    ensures ParseFields(AppendTag(2, BytesType) + AppendBytes(id) + rest, h, version)
         == ParseFields(rest, h.(id := id), version)
  {
    hide AppendVarint, ConsumeVarintFrom, ConsumeFieldValue;
    var p := AppendTag(2, BytesType) + AppendBytes(id) + rest;
    var n := |AppendTag(2, BytesType)|;
    TagRoundTrip(2, BytesType, AppendBytes(id) + rest);
    assert p == AppendTag(2, BytesType) + (AppendBytes(id) + rest);
    assert p[n..] == AppendBytes(id) + rest;
    BytesRoundTrip(id, rest);
    assert p[n..][|AppendBytes(id)|..] == rest;
  }

  lemma FieldsRoundTrip(h: Header)
    requires Storable(h)
    ensures ParseFields(EncodeFields(h), NoHeader, 0) == Ok((h, FormatVersion))
  {
    hide VarintField, AppendTag, AppendBytes;
    var e: bytes := [];
    var f7 := VarintField(7, h.frameSize) + e;
    var f6 := VarintField(6, h.sliceSize) + f7;
    var f5 := VarintField(5, h.m) + f6;
    var f4 := VarintField(4, h.k) + f5;
    var f3 := VarintField(3, h.index) + f4;
    var f2 := AppendTag(2, BytesType) + AppendBytes(h.id) + f3;
    var h2 := NoHeader.(id := h.id);
    ParseVarintField(1, FormatVersion, f2, NoHeader, 0);
    ParseIdField(h.id, f3, NoHeader, FormatVersion);
    ParseVarintField(3, h.index, f4, h2, FormatVersion);
    ParseVarintField(4, h.k, f5, h2.(index := h.index), FormatVersion);
    ParseVarintField(5, h.m, f6, h2.(index := h.index, k := h.k), FormatVersion);
    ParseVarintField(6, h.sliceSize, f7, h2.(index := h.index, k := h.k, m := h.m), FormatVersion);
    ParseVarintField(7, h.frameSize, e, h.(frameSize := 0), FormatVersion);
  }

  lemma LittleEndianRoundTrip(n: nat)
    requires n < 0x1_0000_0000
    ensures ReadLittleEndian32(LittleEndian32(n)) == n
  {
  }

  /** A written shard front decodes to the header it was written from, and the payload
      starts right after it, whatever the payload. */
  lemma ShardFrontRoundTrip(h: Header, payload: bytes)
    requires Storable(h)
    ensures DecodeShard(EncodeShard(h) + payload) == Ok((h, |EncodeShard(h)|))
  {
    hide ParseFields, EncodeFields;
    FieldsFit(h);
    FieldsRoundTrip(h);
    var p := EncodeFields(h);
    var file := EncodeShard(h) + payload;
    assert file[..4] == Magic;
    assert file[4..8] == LittleEndian32(|p|);
    LittleEndianRoundTrip(|p|);
    assert file[8..8 + |p|] == p;
  }

  /** The bytes of every header: the tags are fixed for all time. */
  lemma HeaderBytes(h: Header)
    requires Storable(h)
    ensures EncodeFields(h) ==
      [0x08, 1, 0x12, 16] + h.id + [0x18] + AppendVarint(h.index) + [0x20] + AppendVarint(h.k) +
      [0x28] + AppendVarint(h.m) + [0x30] + AppendVarint(h.sliceSize) + [0x38] + AppendVarint(h.frameSize)
  {
    hide AppendVarint;
    SmallVarints();
    assert VarintField(1, 1) + (AppendTag(2, BytesType) + AppendBytes(h.id)) == [0x08, 1, 0x12, 16] + h.id;
  }

  lemma SmallVarints()
    ensures forall v: nat :: v < 128 ==> AppendVarint(v) == [v as byte]
  {
  }

  /** And one file front in full, for any ID. */
  lemma GoldenFront(id: bytes)
    requires |id| == 16
    ensures var h := Header(id, 5, 4, 2, 262144, 123456);
      Storable(h) && EncodeShard(h) == ([0x48, 0x4d, 0x53, 0x31] + [0x22, 0, 0, 0]) + (([0x08, 1, 0x12, 16] + id) +
        [0x18, 5, 0x20, 4, 0x28, 2, 0x30, 0x80, 0x80, 0x10, 0x38, 0xc0, 0xc4, 0x07])
  {
    var h := Header(id, 5, 4, 2, 262144, 123456);
    GoldenFields(h);
    hide EncodeFields;
  }

  lemma GoldenFields(h: Header)
    requires |h.id| == 16 && h == Header(h.id, 5, 4, 2, 262144, 123456)
    ensures EncodeFields(h) ==
      ([0x08, 1, 0x12, 16] + h.id) + [0x18, 5, 0x20, 4, 0x28, 2, 0x30, 0x80, 0x80, 0x10, 0x38, 0xc0, 0xc4, 0x07]
  {
    HeaderBytes(h);
    SmallVarints();
    LargeVarints();
    hide AppendVarint, EncodeFields;
  }

  lemma LargeVarints()
    ensures AppendVarint(262144) == [0x80, 0x80, 0x10] && AppendVarint(123456) == [0xc0, 0xc4, 0x07]
  {
    assert AppendVarint(2048) == [0x80] + AppendVarint(16);
    assert AppendVarint(964) == [0xc4] + AppendVarint(7);
  }
}
