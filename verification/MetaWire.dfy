/** The message codec: fields in number order, zero values omitted, unknown fields kept or
    skipped. A message type is a table of field numbers and kinds. */
module MetaWire {
  import opened Bytes
  import opened Wire

  const TwoTo32 := 0x1_0000_0000

  /** How a field is written and what it accepts back. */
  datatype Kind =
    | U64            // any varint
    | U32            // a varint that must fit 32 bits
    | Low32          // a varint cut to 32 bits
    | Enum           // a varint that must fit 8 bits
    | Flag           // zero or not
    | Blob           // bytes or a string
    | Id             // exactly 16 bytes, all zero when absent
    | Repeat         // any number of byte strings, empty ones included
    | RepeatStrings  // any number of strings; empty ones are not written

  datatype Val = Num(n: uint64) | Str(s: bytes) | Many(items: seq<bytes>)

  datatype Spec = Spec(num: nat, kind: Kind)

  type Schema = seq<Spec>

  datatype Msg = Msg(vals: seq<Val>, unknown: bytes)

  const MaxNum := 0x7fff_ffff

  predicate ValidSchema(s: Schema) {
    && (forall i :: 0 <= i < |s| ==> 1 <= s[i].num <= MaxNum)
    && (forall i, j :: 0 <= i < j < |s| ==> s[i].num < s[j].num)
  }

  function Zero(k: Kind): Val {
    match k
    case Blob => Str([])
    case Id => Str(Zeros(16))
    case Repeat => Many([])
    case RepeatStrings => Many([])
    case _ => Num(0)
  }

  predicate Short(s: bytes) { |s| < TwoTo64 }

  /** A value a field of this kind can hold. */
  predicate Holds(k: Kind, v: Val) {
    match k
    case U64 => v.Num?
    case U32 => v.Num? && v.n < TwoTo32
    case Low32 => v.Num? && v.n < TwoTo32
    case Enum => v.Num? && v.n < 256
    case Flag => v.Num? && v.n <= 1
    case Blob => v.Str? && Short(v.s)
    case Id => v.Str? && |v.s| == 16
    case Repeat => v.Many? && forall i :: 0 <= i < |v.items| ==> Short(v.items[i])
    case RepeatStrings => v.Many? && forall i :: 0 <= i < |v.items| ==> Short(v.items[i]) && v.items[i] != []
  }

  /** What decoding can leave in a field: a list of strings may then hold empty ones. */
  predicate Allows(k: Kind, v: Val) {
    if k.RepeatStrings? then v.Many? && forall i :: 0 <= i < |v.items| ==> Short(v.items[i]) else Holds(k, v)
  }

  predicate AllHold(s: Schema, vals: seq<Val>) {
    |vals| == |s| && forall i :: 0 <= i < |s| ==> Holds(s[i].kind, vals[i])
  }

  // ---- encoding ----

  function VarintField(num: nat, v: uint64): bytes { AppendTag(num, VarintType) + AppendVarint(v) }

  function BytesField(num: nat, v: bytes): bytes { AppendTag(num, BytesType) + AppendBytes(v) }

  function ItemFields(num: nat, items: seq<bytes>, skipEmpty: bool): bytes {
    if items == [] then []
    else (if skipEmpty && items[0] == [] then []
          else BytesField(num, items[0])) + ItemFields(num, items[1..], skipEmpty)
  }

  function EncodeField(spec: Spec, v: Val): bytes {
    match v
    case Num(n) => if n == 0 then [] else VarintField(spec.num, n)
    case Str(s) => if v == Zero(spec.kind) then [] else BytesField(spec.num, s)
    case Many(items) => ItemFields(spec.num, items, spec.kind.RepeatStrings?)
  }

  /** The fields from the i-th on. */
  function EncodeFrom(s: Schema, vals: seq<Val>, i: nat): bytes
    requires |vals| == |s| && i <= |s|
    decreases |s| - i
  {
    if i == |s| then [] else EncodeField(s[i], vals[i]) + EncodeFrom(s, vals, i + 1)
  }

  function Encode(s: Schema, m: Msg): bytes
    requires |m.vals| == |s|
  {
    EncodeFrom(s, m.vals, 0) + m.unknown
  }

  // ---- decoding ----

  /** One field off the wire: its number, wire type, all its bytes, and its value. */
  datatype Token = Token(num: nat, typ: nat, raw: bytes, value: uint64, blob: bytes)

  function NextToken(b: bytes): (t: Option<Token>)
    ensures t.Some? ==> 0 < |t.value.raw| <= |b| && t.value.raw == b[..|t.value.raw|]
  {
    var tag := ConsumeTag(b);
    if tag.None? then None
    else
      var (num, typ, n) := tag.value;
      var q := b[n..];
      var len := ConsumeFieldValue(num, typ, q, RecursionLimit);
      if len.None? then None
      else
        var value := if typ == VarintType then ConsumeVarint(q).value.0 else 0;
        var blob := if typ == BytesType then ConsumeBytes(q).value.0 else [];
        Some(Token(num, typ, b[..n + len.value], value, blob))
  }

  /** Where a field number is in a table. */
  function IndexOf(s: Schema, num: nat): (i: Option<nat>)
    ensures i.Some? ==> i.value < |s| && s[i.value].num == num
    ensures i.None? ==> forall j :: 0 <= j < |s| ==> s[j].num != num
  {
    if s == [] then None
    else if s[|s| - 1].num == num then Some(|s| - 1)
    else IndexOf(s[..|s| - 1], num)
  }

  /** Takes one field's value into what the field holds. */
  function Absorb(k: Kind, v: Val, t: Token): (r: Option<Val>) {
    if k.Blob? || k.Id? || k.Repeat? || k.RepeatStrings? then
      if t.typ != BytesType then None
      else if k.Blob? then Some(Str(t.blob))
      else if k.Id? then if |t.blob| == 16 then Some(Str(t.blob)) else None
      else Some(Many((if v.Many? then v.items else []) + [t.blob]))
    else if t.typ != VarintType then None
    else
      match k
      case U32 => if t.value >= TwoTo32 then None else Some(Num(t.value))
      case Low32 => Some(Num(t.value % TwoTo32))
      case Enum => if t.value > 255 then None else Some(Num(t.value))
      case Flag => Some(Num(if t.value != 0 then 1 else 0))
      case _ => Some(Num(t.value))
  }

  /** Takes one field into the message; a number not in the table is unknown. */
  function AbsorbToken(s: Schema, keep: bool, m: Msg, t: Token): (r: Option<Msg>)
    requires |m.vals| == |s|
    ensures r.Some? ==> |r.value.vals| == |s|
  {
    var i := IndexOf(s, t.num);
    if i.None? then Some(if keep then m.(unknown := m.unknown + t.raw) else m)
    else
      var v := Absorb(s[i.value].kind, m.vals[i.value], t);
      if v.None? then None else Some(m.(vals := m.vals[i.value := v.value]))
  }

  function DecodeInto(s: Schema, keep: bool, m: Msg, b: bytes): (r: Option<Msg>)
    requires |m.vals| == |s|
    ensures r.Some? ==> |r.value.vals| == |s|
    decreases |b|
  {
    if b == [] then Some(m)
    else
      var t := NextToken(b);
      if t.None? then None
      else
        var next := AbsorbToken(s, keep, m, t.value);
        if next.None? then None else DecodeInto(s, keep, next.value, b[|t.value.raw|..])
  }

  function Zeroed(s: Schema): (m: Msg)
    ensures |m.vals| == |s| && m.unknown == [] && forall i :: 0 <= i < |s| ==> m.vals[i] == Zero(s[i].kind)
  {
    Msg(seq(|s|, i requires 0 <= i < |s| => Zero(s[i].kind)), [])
  }

  function Decode(s: Schema, keep: bool, b: bytes): (r: Option<Msg>)
    ensures r.Some? ==> |r.value.vals| == |s|
  {
    DecodeInto(s, keep, Zeroed(s), b)
  }

  /** The decoding loop. */
  method DecodeLoop(s: Schema, keep: bool, b: bytes) returns (r: Option<Msg>)
    ensures r == Decode(s, keep, b)
  {
    hide NextToken, AbsorbToken;
    var m, rest := Zeroed(s), b;
    while rest != []
      invariant |m.vals| == |s| && DecodeInto(s, keep, m, rest) == Decode(s, keep, b)
      decreases |rest|
    {
      var t := NextToken(rest);
      if t.None? {
        return None;
      }
      var next := AbsorbToken(s, keep, m, t.value);
      if next.None? {
        return None;
      }
      m, rest := next.value, rest[|t.value.raw|..];
    }
    r := Some(m);
  }

  // ---- what is written reads back ----

  lemma VarintToken(num: nat, v: uint64, rest: bytes)
    requires 1 <= num <= MaxNum
    ensures NextToken(VarintField(num, v) + rest) == Some(Token(num, VarintType, VarintField(num, v), v, []))
  {
    var tag, val := AppendTag(num, VarintType), AppendVarint(v);
    var b := VarintField(num, v) + rest;
    assert b == tag + (val + rest);
    TagRoundTrip(num, VarintType, val + rest);
    VarintRoundTrip(v, rest);
    assert b[|tag|..] == val + rest;
    assert b[..|tag| + |val|] == VarintField(num, v);
  }

  lemma BytesToken(num: nat, v: bytes, rest: bytes)
    requires 1 <= num <= MaxNum && Short(v)
    ensures NextToken(BytesField(num, v) + rest) == Some(Token(num, BytesType, BytesField(num, v), 0, v))
  {
    var tag, val := AppendTag(num, BytesType), AppendBytes(v);
    var b := BytesField(num, v) + rest;
    assert b == tag + (val + rest);
    TagRoundTrip(num, BytesType, val + rest);
    BytesRoundTrip(v, rest);
    assert b[|tag|..] == val + rest;
    assert b[..|tag| + |val|] == BytesField(num, v);
  }

  lemma IndexOfField(s: Schema, i: nat)
    requires ValidSchema(s) && i < |s|
    ensures IndexOf(s, s[i].num) == Some(i)
  {
    assert IndexOf(s, s[i].num).Some?;
  }

  /** One known field at the head of the input. */
  lemma FieldStep(s: Schema, keep: bool, m: Msg, i: nat, f: bytes, t: Token, v: Val, rest: bytes)
    requires ValidSchema(s) && |m.vals| == |s| && i < |s| && f != []
    requires NextToken(f + rest) == Some(t) && t.raw == f && t.num == s[i].num &&
      Absorb(s[i].kind, m.vals[i], t) == Some(v)
    ensures DecodeInto(s, keep, m, f + rest) == DecodeInto(s, keep, m.(vals := m.vals[i := v]), rest)
  {
    hide NextToken, Absorb;
    IndexOfField(s, i);
    assert (f + rest)[|f|..] == rest;
  }

  /** One item of a repeated field. */
  lemma ItemStep(s: Schema, keep: bool, m: Msg, i: nat, had: seq<bytes>, item: bytes, rest: bytes)
    requires ValidSchema(s) && |m.vals| == |s| && i < |s| && (s[i].kind.Repeat? || s[i].kind.RepeatStrings?)
    requires m.vals[i] == Many(had) && Short(item)
    ensures DecodeInto(s, keep, m, BytesField(s[i].num, item) + rest) ==
      DecodeInto(s, keep, m.(vals := m.vals[i := Many(had + [item])]), rest)
  {
    hide NextToken, DecodeInto, BytesField;
    var f := BytesField(s[i].num, item);
    BytesToken(s[i].num, item, rest);
    FieldNonEmpty(s[i].num, item);
    FieldStep(s, keep, m, i, f, Token(s[i].num, BytesType, f, 0, item), Many(had + [item]), rest);
  }

  lemma FieldNonEmpty(num: nat, v: bytes)
    ensures BytesField(num, v) != []
  {
  }

  /** The items of a repeated field, appended one by one. */
  lemma {:induction false} ItemsStep(s: Schema, keep: bool, m: Msg, i: nat, had: seq<bytes>, items: seq<bytes>,
                                     rest: bytes)
    requires ValidSchema(s) && |m.vals| == |s| && i < |s| && (s[i].kind.Repeat? || s[i].kind.RepeatStrings?)
    requires m.vals[i] == Many(had) && Holds(s[i].kind, Many(items))
    ensures DecodeInto(s, keep, m, ItemFields(s[i].num, items, s[i].kind.RepeatStrings?) + rest) ==
      DecodeInto(s, keep, m.(vals := m.vals[i := Many(had + items)]), rest)
    decreases |items|
  {
    hide NextToken, DecodeInto, BytesField, ValidSchema;
    var num, skip := s[i].num, s[i].kind.RepeatStrings?;
    if items == [] {
      assert had + items == had && m.vals[i := Many(had)] == m.vals && ItemFields(num, items, skip) + rest == rest;
    } else {
      var tail := ItemFields(num, items[1..], skip);
      assert ItemFields(num, items, skip) + rest == BytesField(num, items[0]) + (tail + rest);
      ItemStep(s, keep, m, i, had, items[0], tail + rest);
      var next := m.(vals := m.vals[i := Many(had + [items[0]])]);
      ItemsStep(s, keep, next, i, had + [items[0]], items[1..], rest);
      assert had + [items[0]] + items[1..] == had + items;
      assert next.vals[i := Many(had + items)] == m.vals[i := Many(had + items)];
    }
  }

  /** One field of the message, whatever follows. */
  lemma EncodedFieldStep(s: Schema, keep: bool, m: Msg, i: nat, v: Val, rest: bytes)
    requires ValidSchema(s) && |m.vals| == |s| && i < |s| && m.vals[i] == Zero(s[i].kind) && Holds(s[i].kind, v)
    ensures DecodeInto(s, keep, m, EncodeField(s[i], v) + rest) == DecodeInto(s, keep, m.(vals := m.vals[i := v]), rest)
  {
    hide NextToken, DecodeInto;
    var num := s[i].num;
    if v == Zero(s[i].kind) {
      assert m.vals[i := v] == m.vals;
      assert EncodeField(s[i], v) == [] && [] + rest == rest;
    } else if v.Num? {
      VarintToken(num, v.n, rest);
      FieldStep(s, keep, m, i, VarintField(num, v.n), Token(num, VarintType, VarintField(num, v.n), v.n, []), v, rest);
    } else if v.Str? {
      BytesToken(num, v.s, rest);
      FieldStep(s, keep, m, i, BytesField(num, v.s), Token(num, BytesType, BytesField(num, v.s), 0, v.s), v, rest);
    } else {
      ItemsStep(s, keep, m, i, [], v.items, rest);
      assert [] + v.items == v.items;
    }
  }

  /** The message as decoded after its first i fields. */
  function UpTo(s: Schema, vals: seq<Val>, i: nat): (r: seq<Val>)
    requires |vals| == |s|
    ensures |r| == |s|
  {
    seq(|s|, j requires 0 <= j < |s| => if j < i then vals[j] else Zero(s[j].kind))
  }

  lemma {:induction false} FieldsRoundTrip(s: Schema, keep: bool, vals: seq<Val>, i: nat, rest: bytes)
    requires ValidSchema(s) && AllHold(s, vals) && i <= |s|
    ensures DecodeInto(s, keep, Msg(UpTo(s, vals, i), []), EncodeFrom(s, vals, i) + rest) ==
      DecodeInto(s, keep, Msg(vals, []), rest)
    decreases |s| - i
  {
    hide DecodeInto, EncodeField, Holds;
    var m := Msg(UpTo(s, vals, i), []);
    if i == |s| {
      assert UpTo(s, vals, i) == vals && EncodeFrom(s, vals, i) + rest == rest;
    } else {
      var tail := EncodeFrom(s, vals, i + 1);
      assert EncodeFrom(s, vals, i) + rest == EncodeField(s[i], vals[i]) + (tail + rest);
      EncodedFieldStep(s, keep, m, i, vals[i], tail + rest);
      assert UpTo(s, vals, i)[i := vals[i]] == UpTo(s, vals, i + 1);
      FieldsRoundTrip(s, keep, vals, i + 1, rest);
    }
  }

  // ---- unknown fields ----

  /** Well-formed fields none of whose numbers is in the table. */
  predicate Unknown(s: Schema, u: bytes)
    decreases |u|
  {
    u == [] ||
    (var t := NextToken(u);
     t.Some? && IndexOf(s, t.value.num).None? && Unknown(s, u[|t.value.raw|..]))
  }

  /** A token depends only on its own bytes. */
  lemma TokenLocal(b: bytes, rest: bytes)
    requires NextToken(b).Some?
    ensures NextToken(NextToken(b).value.raw + rest) == NextToken(b)
  {
    hide ConsumeTag, ConsumeFieldValue, ConsumeVarint, ConsumeBytes;
    var (num, typ, n) := ConsumeTag(b).value;
    var q := b[n..];
    var len := ConsumeFieldValue(num, typ, q, RecursionLimit).value;
    var c := b[..n + len] + rest;
    assert c == b[..n] + (q[..len] + rest);
    TagLocal(b, q[..len] + rest);
    assert c[n..] == q[..len] + rest;
    FieldValueLocal(num, typ, q, RecursionLimit, rest);
    ValueLocal(num, typ, q, rest);
    assert c[..n + len] == b[..n + len];
  }

  lemma ValueLocal(num: nat, typ: nat, q: bytes, rest: bytes)
    requires ConsumeFieldValue(num, typ, q, RecursionLimit).Some?
    ensures var c := q[..ConsumeFieldValue(num, typ, q, RecursionLimit).value] + rest;
      && (typ == VarintType ==> ConsumeVarint(q).Some? && ConsumeVarint(c) == ConsumeVarint(q))
      && (typ == BytesType ==> ConsumeBytes(q).Some? && ConsumeBytes(c) == ConsumeBytes(q))
  {
    if typ == VarintType {
      VarintFromLocal(q, 0, rest);
    } else if typ == BytesType {
      BytesLocal(q, rest);
    }
  }

  /** Unknown fields are taken whole. */
  lemma {:induction false} UnknownTaken(s: Schema, m: Msg, u: bytes)
    requires |m.vals| == |s| && Unknown(s, u)
    ensures DecodeInto(s, true, m, u) == Some(m.(unknown := m.unknown + u))
    decreases |u|
  {
    hide NextToken;
    if u == [] {
      assert m.unknown + u == m.unknown;
    } else {
      var t := NextToken(u).value;
      var next := m.(unknown := m.unknown + t.raw);
      UnknownTaken(s, next, u[|t.raw|..]);
      assert m.unknown + t.raw + u[|t.raw|..] == m.unknown + u by {
        assert u == t.raw + u[|t.raw|..];
      }
    }
  }

  /** Unknown fields can be put end to end. */
  lemma {:induction false} UnknownAppend(s: Schema, u: bytes, t: Token)
    requires Unknown(s, u) && NextToken(t.raw) == Some(t) && IndexOf(s, t.num).None?
    ensures Unknown(s, u + t.raw)
    decreases |u|
  {
    hide NextToken, IndexOf;
    if u == [] {
      assert u + t.raw == t.raw && t.raw[|t.raw|..] == [];
    } else {
      var h := NextToken(u).value;
      var rest := u[|h.raw|..];
      UnknownAppend(s, rest, t);
      TokenLocal(u, rest + t.raw);
      assert u + t.raw == h.raw + (rest + t.raw);
      assert (u + t.raw)[|h.raw|..] == rest + t.raw;
    }
  }

  predicate WellFormed(s: Schema, m: Msg) {
    AllHold(s, m.vals) && Unknown(s, m.unknown)
  }

  /** Every message reads back from its own encoding. */
  lemma RoundTrip(s: Schema, m: Msg)
    requires ValidSchema(s) && WellFormed(s, m)
    ensures Decode(s, true, Encode(s, m)) == Some(m)
  {
    FieldsRoundTrip(s, true, m.vals, 0, m.unknown);
    assert UpTo(s, m.vals, 0) == Zeroed(s).vals;
    UnknownTaken(s, Msg(m.vals, []), m.unknown);
    assert [] + m.unknown == m.unknown;
  }

  /** A message without unknown fields reads back whether or not they are kept. */
  lemma PlainRoundTrip(s: Schema, keep: bool, vals: seq<Val>)
    requires ValidSchema(s) && AllHold(s, vals)
    ensures Decode(s, keep, Encode(s, Msg(vals, []))) == Some(Msg(vals, []))
  {
    FieldsRoundTrip(s, keep, vals, 0, []);
    assert UpTo(s, vals, 0) == Zeroed(s).vals;
  }

  /** Exactly when a list of strings survives: none is empty. */
  lemma StringsSurviveExactly(num: nat, items: seq<bytes>)
    requires 1 <= num <= MaxNum && forall i :: 0 <= i < |items| ==> Short(items[i])
    ensures var s := [Spec(num, RepeatStrings)];
      Decode(s, true, Encode(s, Msg([Many(items)], []))) == Some(Msg([Many(items)], [])) <==>
      forall i :: 0 <= i < |items| ==> items[i] != []
  {
    var s := [Spec(num, RepeatStrings)];
    var kept := NonEmpty(items);
    SkipsEmpty(num, items);
    NonEmptyAll(items);
    PlainRoundTrip(s, true, [Many(kept)]);
    assert EncodeFrom(s, [Many(items)], 1) == [] && EncodeFrom(s, [Many(kept)], 1) == [];
    assert Encode(s, Msg([Many(items)], [])) == Encode(s, Msg([Many(kept)], []));
    assert [Many(items)] == [Many(kept)] <==> items == kept by {
      assert [Many(items)][0] == Many(items) && [Many(kept)][0] == Many(kept);
    }
  }

  function NonEmpty(items: seq<bytes>): (r: seq<bytes>)
    ensures forall i :: 0 <= i < |r| ==> r[i] != [] && r[i] in items
  {
    if items == [] then [] else (if items[0] == [] then [] else [items[0]]) + NonEmpty(items[1..])
  }

  lemma {:induction false} NonEmptyAll(items: seq<bytes>)
    ensures NonEmpty(items) == items <==> forall i :: 0 <= i < |items| ==> items[i] != []
    ensures |NonEmpty(items)| <= |items|
  {
    if items != [] {
      NonEmptyAll(items[1..]);
      assert items == [items[0]] + items[1..];
      if items[0] != [] {
        assert NonEmpty(items)[1..] == NonEmpty(items[1..]);
      }
    }
  }

  lemma {:induction false} SkipsEmpty(num: nat, items: seq<bytes>)
    ensures ItemFields(num, items, true) == ItemFields(num, NonEmpty(items), true)
  {
    if items != [] {
      SkipsEmpty(num, items[1..]);
      if items[0] != [] {
        assert NonEmpty(items)[1..] == NonEmpty(items[1..]);
      } else {
        assert NonEmpty(items) == NonEmpty(items[1..]);
        assert ItemFields(num, items, true) == ItemFields(num, items[1..], true);
      }
    }
  }
}
