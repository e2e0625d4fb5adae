/** The protobuf wire primitives the hand-written codecs stand on: varints, tags and
    length-delimited values, each as an append function and a consume function.
    A consume function returns the value and how many bytes it took, or None on
    malformed input. */
module Wire {
  import opened Bytes

  // Wire types.
  const VarintType := 0
  const Fixed64Type := 1
  const BytesType := 2
  const StartGroupType := 3
  const EndGroupType := 4
  const Fixed32Type := 5

  /** How deep groups may nest inside a skipped field. */
  const RecursionLimit := 10000

  /** 2^(64-7i): what the groups from index i on can still carry. */
  function Room(i: nat): (r: nat)
    requires i <= 9
    ensures i < 9 ==> r >= 128
    decreases 9 - i
  {
    if i == 9 then 2 else 128 * Room(i + 1)
  }

  function AppendVarint(v: nat): (b: bytes)
    ensures 1 <= |b|
  {
    if v < 128 then [v as byte] else [(v % 128 + 128) as byte] + AppendVarint(v / 128)
  }

  /** Groups of seven bits, least significant first; `i` is the index of the group at
      the head of `b`. The tenth group holds one bit, so the value fits 64 bits. */
  function ConsumeVarintFrom(b: bytes, i: nat): (r: Option<(nat, nat)>)
    requires i <= 9
    ensures r.Some? ==> r.value.0 < Room(i) && 1 <= r.value.1 <= |b|
    decreases 9 - i
  {
    if b == [] then None
    else if i == 9 then if b[0] < 2 then Some((b[0] as nat, 1)) else None
    else if b[0] < 128 then Some((b[0] as nat, 1))
    else
      var r := ConsumeVarintFrom(b[1..], i + 1);
      if r.None? then None
      else Some((b[0] as nat - 128 + 128 * r.value.0, r.value.1 + 1))
  }

  function ConsumeVarint(b: bytes): (r: Option<(uint64, nat)>)
    ensures r.Some? ==> 1 <= r.value.1 <= |b|
  {
    assert Room(0) == TwoTo64 by { RoomIs64Bits(); }
    var r := ConsumeVarintFrom(b, 0);
    if r.None? then None else Some((r.value.0, r.value.1))
  }

  lemma RoomIs64Bits()
    ensures Room(0) == TwoTo64
  {
    assert Room(8) == 256;
    assert Room(6) == 256 * 16384;
    assert Room(4) == 256 * 16384 * 16384;
    assert Room(2) == 256 * 16384 * 16384 * 16384;
  }

  /** A varint that fits reads back, whatever follows it. */
  lemma {:induction false} VarintFromRoundTrip(v: nat, i: nat, rest: bytes)
    requires i <= 9 && v < Room(i)
    ensures ConsumeVarintFrom(AppendVarint(v) + rest, i) == Some((v, |AppendVarint(v)|))
    decreases 9 - i
  {
    var b := AppendVarint(v) + rest;
    if v >= 128 {
      VarintFromRoundTrip(v / 128, i + 1, rest);
      assert b[1..] == AppendVarint(v / 128) + rest;
    }
  }

  lemma VarintRoundTrip(v: uint64, rest: bytes)
    ensures ConsumeVarint(AppendVarint(v) + rest) == Some((v, |AppendVarint(v)|))
  {
    RoomIs64Bits();
    VarintFromRoundTrip(v, 0, rest);
  }

  /** Consuming looks only at the bytes it consumes. */
  lemma {:induction false} VarintFromLocal(b: bytes, i: nat, rest: bytes)
    requires i <= 9 && ConsumeVarintFrom(b, i).Some?
    ensures ConsumeVarintFrom(b[..ConsumeVarintFrom(b, i).value.1] + rest, i) == ConsumeVarintFrom(b, i)
    decreases 9 - i
  {
    var n := ConsumeVarintFrom(b, i).value.1;
    var c := b[..n] + rest;
    if i < 9 && b[0] >= 128 {
      VarintFromLocal(b[1..], i + 1, rest);
      assert c[1..] == b[1..][..n - 1] + rest;
    }
  }

  function AppendTag(num: nat, typ: nat): (b: bytes)
    ensures 1 <= |b|
  {
    AppendVarint(8 * num + typ)
  }

  /** Field number, wire type and length of the tag at the head of `b`. Field numbers
      are positive 32-bit signed integers. */
  function ConsumeTag(b: bytes): (r: Option<(nat, nat, nat)>)
    ensures r.Some? ==> 1 <= r.value.0 <= 0x7fff_ffff && r.value.1 < 8 && 1 <= r.value.2 <= |b|
  {
    var r := ConsumeVarint(b);
    if r.None? then None
    else if r.value.0 / 8 > 0x7fff_ffff || r.value.0 / 8 < 1 then None
    else Some((r.value.0 / 8, r.value.0 % 8, r.value.1))
  }

  lemma TagRoundTrip(num: nat, typ: nat, rest: bytes)
    requires 1 <= num <= 0x7fff_ffff && typ < 8
    ensures ConsumeTag(AppendTag(num, typ) + rest) == Some((num, typ, |AppendTag(num, typ)|))
  {
    VarintRoundTrip(8 * num + typ, rest);
  }

  lemma TagLocal(b: bytes, rest: bytes)
    requires ConsumeTag(b).Some?
    ensures ConsumeTag(b[..ConsumeTag(b).value.2] + rest) == ConsumeTag(b)
  {
    VarintFromLocal(b, 0, rest);
  }

  function AppendBytes(v: bytes): (b: bytes) {
    AppendVarint(|v|) + v
  }

  function ConsumeBytes(b: bytes): (r: Option<(bytes, nat)>)
    ensures r.Some? ==> 1 <= r.value.1 <= |b|
  {
    var r := ConsumeVarint(b);
    if r.None? then None
    else
      var (m, n) := r.value;
      if m > |b| - n then None else Some((b[n..n + m], n + m))
  }

  lemma BytesRoundTrip(v: bytes, rest: bytes)
    requires |v| < TwoTo64
    ensures ConsumeBytes(AppendBytes(v) + rest) == Some((v, |AppendBytes(v)|))
  {
    var b := AppendBytes(v) + rest;
    assert b == AppendVarint(|v|) + (v + rest);
    VarintRoundTrip(|v|, v + rest);
    var n := |AppendVarint(|v|)|;
    assert b[n..n + |v|] == v;
  }

  lemma BytesLocal(b: bytes, rest: bytes)
    requires ConsumeBytes(b).Some?
    ensures ConsumeBytes(b[..ConsumeBytes(b).value.1] + rest) == ConsumeBytes(b)
  {
    var (m, n) := ConsumeVarint(b).value;
    var c := b[..n + m] + rest;
    VarintFromLocal(b, 0, c[n..]);
    assert c == b[..n] + c[n..];
    assert c[n..n + m] == b[n..n + m];
  }

  /** Length of one field's value, given its number and wire type: what a decoder skips
      when it does not know the field. Groups nest; an end-group tag must name the group
      it closes. */
  function ConsumeFieldValue(num: nat, typ: nat, b: bytes, depth: int): (r: Option<nat>)
    ensures r.Some? ==> r.value <= |b|
    decreases |b|, 1
  {
    if typ == VarintType then
      var r := ConsumeVarint(b); if r.None? then None else Some(r.value.1)
    else if typ == Fixed32Type then if |b| < 4 then None else Some(4)
    else if typ == Fixed64Type then if |b| < 8 then None else Some(8)
    else if typ == BytesType then
      var r := ConsumeBytes(b); if r.None? then None else Some(r.value.1)
    else if typ == StartGroupType then ConsumeGroup(num, b, depth)
    else None
  }

  /** Length of a group's body, its end tag included. */
  function ConsumeGroup(num: nat, b: bytes, depth: int): (r: Option<nat>)
    ensures r.Some? ==> r.value <= |b|
    decreases |b|, 0
  {
    if depth < 0 then None
    else
      var t := ConsumeTag(b);
      if t.None? then None
      else
        var (num2, typ2, n) := t.value;
        if typ2 == EndGroupType then if num == num2 then Some(n) else None
        else
          var v := ConsumeFieldValue(num2, typ2, b[n..], depth - 1);
          if v.None? then None
          else
            var r := ConsumeGroup(num, b[n + v.value..], depth);
            if r.None? then None else Some(n + v.value + r.value)
  }

  lemma {:induction false} FieldValueLocal(num: nat, typ: nat, b: bytes, depth: int, rest: bytes)
    requires ConsumeFieldValue(num, typ, b, depth).Some?
    ensures ConsumeFieldValue(num, typ, b[..ConsumeFieldValue(num, typ, b, depth).value] + rest, depth)
         == ConsumeFieldValue(num, typ, b, depth)
    decreases |b|, 1
  {
    if typ == VarintType {
      VarintFromLocal(b, 0, rest);
    } else if typ == BytesType {
      BytesLocal(b, rest);
    } else if typ == StartGroupType {
      GroupLocal(num, b, depth, rest);
    }
  }

  lemma {:induction false} GroupLocal(num: nat, b: bytes, depth: int, rest: bytes)
    requires ConsumeGroup(num, b, depth).Some?
    ensures ConsumeGroup(num, b[..ConsumeGroup(num, b, depth).value] + rest, depth)
         == ConsumeGroup(num, b, depth)
    decreases |b|, 0
  {
    hide ConsumeTag, ConsumeFieldValue;
    var len := ConsumeGroup(num, b, depth).value;
    var (num2, typ2, n) := ConsumeTag(b).value;
    if typ2 == EndGroupType {
      TagLocal(b, rest);
    } else {
      var v := ConsumeFieldValue(num2, typ2, b[n..], depth - 1).value;
      GroupLocal(num, b[n + v..], depth, rest);
      FieldValueLocal(num2, typ2, b[n..], depth - 1, b[n + v..][..len - n - v] + rest);
      GroupCut(num, b, depth, num2, typ2, n, v, len, rest);
    }
  }

  /** The same group, cut out of `b` and followed by `rest` instead. */
  lemma {:induction false} GroupCut(num: nat, b: bytes, depth: int, num2: nat, typ2: nat, n: nat, v: nat, len: nat,
                                    rest: bytes)
    requires depth >= 0 && typ2 != EndGroupType
    requires ConsumeTag(b) == Some((num2, typ2, n)) && n + v <= len <= |b|
    requires ConsumeFieldValue(num2, typ2, b[n..][..v] + (b[n + v..][..len - n - v] + rest), depth - 1) == Some(v)
    requires ConsumeGroup(num, b[n + v..][..len - n - v] + rest, depth) == Some(len - n - v)
    ensures ConsumeGroup(num, b[..len] + rest, depth) == Some(len)
  {
    hide ConsumeTag, ConsumeFieldValue, ConsumeGroup;
    var c := b[..len] + rest;
    TagLocal(b, c[n..]);
    assert c == b[..n] + c[n..];
    assert c[n..] == b[n..][..v] + (b[n + v..][..len - n - v] + rest);
    assert c[n + v..] == b[n + v..][..len - n - v] + rest;
    GroupStep(num, c, depth, num2, typ2, n, v, len - n - v);
  }

  /** One field of a group, then the rest of it. */
  lemma {:induction false} GroupStep(num: nat, c: bytes, depth: int, num2: nat, typ2: nat, n: nat, v: nat, last: nat)
    requires depth >= 0 && typ2 != EndGroupType
    requires ConsumeTag(c) == Some((num2, typ2, n))
    requires ConsumeFieldValue(num2, typ2, c[n..], depth - 1) == Some(v)
    requires n + v <= |c| && ConsumeGroup(num, c[n + v..], depth) == Some(last)
    ensures ConsumeGroup(num, c, depth) == Some(n + v + last)
  {
    hide ConsumeTag, ConsumeFieldValue;
  }
}
