/** Rewriting a stored message: decoded and written again it keeps what a newer writer put in it,
    never grows, and reads back as what was decoded. */
module MetaRewrite {
  import opened Bytes
  import opened Wire
  import opened MetaWire
  import MetaDeep

  // ---- written bytes are the shortest ----

  lemma {:induction false} VarintShortest(b: bytes, i: nat)
    requires i <= 9 && ConsumeVarintFrom(b, i).Some?
    ensures |AppendVarint(ConsumeVarintFrom(b, i).value.0)| <= ConsumeVarintFrom(b, i).value.1
    decreases 9 - i
  {
    if i < 9 && b[0] >= 128 {
      VarintShortest(b[1..], i + 1);
    }
  }

  lemma {:induction false} VarintMonotone(v: nat, w: nat)
    requires v <= w
    ensures |AppendVarint(v)| <= |AppendVarint(w)|
  {
    if v >= 128 {
      VarintMonotone(v / 128, w / 128);
    }
  }

  /** A field off the wire is at least as long as the same field written. */
  lemma TokenCovers(b: bytes)
    requires NextToken(b).Some?
    ensures var t := NextToken(b).value;
      && 1 <= t.num <= MaxNum
      && (t.typ == VarintType ==> |VarintField(t.num, t.value)| <= |t.raw|)
      && (t.typ == BytesType ==> |BytesField(t.num, t.blob)| <= |t.raw| && |t.blob| <= |b|)
  {
    var (num, typ, n) := ConsumeTag(b).value;
    VarintShortest(b, 0);
    var q := b[n..];
    if typ == VarintType || typ == BytesType {
      VarintShortest(q, 0);
    }
  }

  lemma {:induction false} ItemAppended(num: nat, items: seq<bytes>, x: bytes, skip: bool)
    ensures |ItemFields(num, items + [x], skip)| <= |ItemFields(num, items, skip)| + |BytesField(num, x)|
  {
    hide BytesField;
    if items != [] {
      ItemAppended(num, items[1..], x, skip);
      assert (items + [x])[1..] == items[1..] + [x];
    } else {
      assert items + [x] == [x] && [x][1..] == [];
    }
  }

  lemma NumberFits(spec: Spec, v: Val, w: Val, t: Token)
    requires w.Num? && w.n <= t.value && |VarintField(spec.num, t.value)| <= |t.raw|
    ensures |EncodeField(spec, w)| <= |EncodeField(spec, v)| + |t.raw|
  {
    VarintMonotone(w.n, t.value);
    hide AppendVarint;
  }

  lemma StringFits(spec: Spec, v: Val, w: Val, t: Token)
    requires w == Str(t.blob) && |BytesField(spec.num, t.blob)| <= |t.raw|
    ensures |EncodeField(spec, w)| <= |EncodeField(spec, v)| + |t.raw|
  {
    hide BytesField;
  }

  lemma ListFits(spec: Spec, v: Val, w: Val, t: Token)
    requires v.Many? && w == Many(v.items + [t.blob]) && |BytesField(spec.num, t.blob)| <= |t.raw|
    ensures |EncodeField(spec, w)| <= |EncodeField(spec, v)| + |t.raw|
  {
    hide BytesField, ItemFields;
    ItemAppended(spec.num, v.items, t.blob, spec.kind.RepeatStrings?);
  }

  /** Taking a field in never adds more than the field's own bytes. */
  lemma AbsorbFits(spec: Spec, v: Val, t: Token, b: bytes)
    requires NextToken(b) == Some(t) && |b| < TwoTo64 && t.num == spec.num && Allows(spec.kind, v) &&
      Absorb(spec.kind, v, t).Some?
    ensures Allows(spec.kind, Absorb(spec.kind, v, t).value)
    ensures |EncodeField(spec, Absorb(spec.kind, v, t).value)| <= |EncodeField(spec, v)| + |t.raw|
  {
    hide NextToken, EncodeField;
    TokenCovers(b);
    var w := Absorb(spec.kind, v, t).value;
    if w.Num? {
      NumberFits(spec, v, w, t);
    } else if w.Many? {
      ListFits(spec, v, w, t);
    } else {
      StringFits(spec, v, w, t);
    }
  }

  lemma {:induction false} SizeChanged(s: Schema, vals: seq<Val>, i: nat, v: Val, from: nat)
    requires |vals| == |s| && i < |s| && from <= |s|
    ensures |EncodeFrom(s, vals[i := v], from)| ==
      |EncodeFrom(s, vals, from)| + if from <= i then |EncodeField(s[i], v)| - |EncodeField(s[i], vals[i])| else 0
    decreases |s| - from
  {
    hide EncodeField;
    if from < |s| {
      SizeChanged(s, vals, i, v, from + 1);
    }
  }

  // ---- what decoding leaves ----

  /** A message as decoding leaves it. */
  predicate Loose(s: Schema, m: Msg) {
    |m.vals| == |s| && (forall i :: 0 <= i < |s| ==> Allows(s[i].kind, m.vals[i])) && Unknown(s, m.unknown)
  }

  function Size(s: Schema, m: Msg): nat
    requires |m.vals| == |s|
  {
    |EncodeFrom(s, m.vals, 0)| + |m.unknown|
  }

  /** The unknown fields of an input, in order. */
  function UnknownIn(s: Schema, b: bytes): (u: bytes)
    decreases |b|
  {
    if b == [] || NextToken(b).None? then []
    else
      var t := NextToken(b).value;
      (if IndexOf(s, t.num).None? then t.raw else []) + UnknownIn(s, b[|t.raw|..])
  }

  lemma Reassociate(a: bytes, b: bytes, c: bytes)
    ensures a + b + c == a + (b + c)
  {
  }

  lemma StepKeeps(s: Schema, keep: bool, m: Msg, t: Token, b: bytes)
    requires Loose(s, m) && |b| < TwoTo64 && NextToken(b) == Some(t) && AbsorbToken(s, keep, m, t).Some?
    ensures var next := AbsorbToken(s, keep, m, t).value;
      && Loose(s, next) && Size(s, next) <= Size(s, m) + |t.raw|
      && next.unknown == m.unknown + if keep && IndexOf(s, t.num).None? then t.raw else []
  {
    hide NextToken, Unknown, Allows, Absorb, EncodeFrom, EncodeField;
    var next := AbsorbToken(s, keep, m, t).value;
    assert m.unknown + [] == m.unknown;
    if IndexOf(s, t.num).None? {
      if keep {
        TokenLocal(b, []);
        assert t.raw + [] == t.raw;
        UnknownAppend(s, m.unknown, t);
      }
    } else {
      var i := IndexOf(s, t.num).value;
      AbsorbFits(s[i], m.vals[i], t, b);
      SizeChanged(s, m.vals, i, next.vals[i], 0);
      assert next.vals == m.vals[i := next.vals[i]];
    }
  }

  /** What decoding keeps: every value fits its field, unknown fields are the input's in order or
      none, and nothing grew. */
  lemma {:induction false} DecodeKeeps(s: Schema, keep: bool, m: Msg, b: bytes)
    requires Loose(s, m) && |b| < TwoTo64 && DecodeInto(s, keep, m, b).Some?
    ensures var r := DecodeInto(s, keep, m, b).value;
      && Loose(s, r) && Size(s, r) <= Size(s, m) + |b|
      && r.unknown == m.unknown + if keep then UnknownIn(s, b) else []
    decreases |b|
  {
    assert |m.vals| == |s|;
    hide NextToken, AbsorbToken, Loose, Size;
    assert m.unknown + [] == m.unknown;
    if b != [] {
      var t := NextToken(b).value;
      var next := AbsorbToken(s, keep, m, t).value;
      StepKeeps(s, keep, m, t, b);
      DecodeKeeps(s, keep, next, b[|t.raw|..]);
      Reassociate(m.unknown, if IndexOf(s, t.num).None? then t.raw else [], UnknownIn(s, b[|t.raw|..]));
    }
  }

  lemma {:induction false} ZeroedSize(s: Schema, i: nat)
    requires i <= |s|
    ensures EncodeFrom(s, Zeroed(s).vals, i) == []
    decreases |s| - i
  {
    if i < |s| {
      ZeroedSize(s, i + 1);
    }
  }

  /** A decoded message, whether or not unknown fields are kept. */
  lemma DecodedLoose(s: Schema, keep: bool, b: bytes)
    requires |b| < TwoTo64 && Decode(s, keep, b).Some?
    ensures var m := Decode(s, keep, b).value;
      Loose(s, m) && |Encode(s, m)| <= |b| && m.unknown == if keep then UnknownIn(s, b) else []
  {
    ZeroedSize(s, 0);
    DecodeKeeps(s, keep, Zeroed(s), b);
    assert [] + UnknownIn(s, b) == UnknownIn(s, b);
  }

  // ---- string lists ----

  /** The value as it reads back: without empty strings. */
  function Trim(k: Kind, v: Val): Val {
    if k.RepeatStrings? && v.Many? then Many(NonEmpty(v.items)) else v
  }

  function Trimmed(s: Schema, vals: seq<Val>): (r: seq<Val>)
    requires |vals| == |s|
    ensures |r| == |s| && forall i :: 0 <= i < |s| ==> r[i] == Trim(s[i].kind, vals[i])
  {
    seq(|s|, i requires 0 <= i < |s| => Trim(s[i].kind, vals[i]))
  }

  predicate NoEmpty(k: Kind, v: Val) {
    k.RepeatStrings? && v.Many? ==> forall j :: 0 <= j < |v.items| ==> v.items[j] != []
  }

  lemma {:induction false} NonEmptyShort(items: seq<bytes>)
    requires forall i :: 0 <= i < |items| ==> Short(items[i])
    ensures forall i :: 0 <= i < |NonEmpty(items)| ==> Short(NonEmpty(items)[i]) && NonEmpty(items)[i] != []
  {
  }

  lemma TrimHolds(spec: Spec, v: Val)
    requires Allows(spec.kind, v)
    ensures Holds(spec.kind, Trim(spec.kind, v)) && EncodeField(spec, Trim(spec.kind, v)) == EncodeField(spec, v)
    ensures Trim(spec.kind, v) == v <==> NoEmpty(spec.kind, v)
  {
    if spec.kind.RepeatStrings? {
      NonEmptyShort(v.items);
      SkipsEmpty(spec.num, v.items);
      NonEmptyAll(v.items);
    }
  }

  lemma {:induction false} TrimEncodes(s: Schema, vals: seq<Val>, i: nat)
    requires |vals| == |s| && i <= |s| && forall j :: 0 <= j < |s| ==> Allows(s[j].kind, vals[j])
    ensures EncodeFrom(s, Trimmed(s, vals), i) == EncodeFrom(s, vals, i)
    decreases |s| - i
  {
    hide EncodeField, Trim, Allows;
    if i < |s| {
      TrimHolds(s[i], vals[i]);
      TrimEncodes(s, vals, i + 1);
    }
  }

  lemma TrimmedOk(s: Schema, m: Msg)
    requires Loose(s, m)
    ensures WellFormed(s, Msg(Trimmed(s, m.vals), m.unknown)) &&
      Encode(s, Msg(Trimmed(s, m.vals), m.unknown)) == Encode(s, m)
    ensures Trimmed(s, m.vals) == m.vals <==> forall i :: 0 <= i < |s| ==> NoEmpty(s[i].kind, m.vals[i])
  {
    hide Trim, Allows, NoEmpty, Holds, Unknown, EncodeFrom;
    TrimEncodes(s, m.vals, 0);
    forall i | 0 <= i < |s|
      ensures Holds(s[i].kind, Trim(s[i].kind, m.vals[i]))
      ensures Trim(s[i].kind, m.vals[i]) == m.vals[i] <==> NoEmpty(s[i].kind, m.vals[i])
    {
      TrimHolds(s[i], m.vals[i]);
    }
    if forall i :: 0 <= i < |s| ==> NoEmpty(s[i].kind, m.vals[i]) {
      assert forall i :: 0 <= i < |s| ==> Trimmed(s, m.vals)[i] == m.vals[i];
    }
  }

  /** Rewriting never sheds a newer writer's fields, and never grows: a decoded message carries
      the input's unknown fields and writes them back, and reads back as itself if and only if no
      list of strings in it holds an empty one, which is all it can lose. */
  lemma RewriteKeepsUnknown(s: Schema, b: bytes)
    requires ValidSchema(s) && |b| < TwoTo64 && Decode(s, true, b).Some?
    ensures var m := Decode(s, true, b).value;
      && m.unknown == UnknownIn(s, b) && |Encode(s, m)| <= |b| &&
        (exists front :: Encode(s, m) == front + UnknownIn(s, b))
      && Decode(s, true, Encode(s, m)) == Some(Msg(Trimmed(s, m.vals), m.unknown))
      && (Decode(s, true, Encode(s, m)) == Some(m) <==> forall i :: 0 <= i < |s| ==> NoEmpty(s[i].kind, m.vals[i]))
  {
    var m := Decode(s, true, b).value;
    DecodedLoose(s, true, b);
    hide Loose, Decode, NoEmpty;
    TrimmedOk(s, m);
    RoundTrip(s, Msg(Trimmed(s, m.vals), m.unknown));
    assert Encode(s, m) == EncodeFrom(s, m.vals, 0) + UnknownIn(s, b);
  }

  // ---- nested messages and maps ----

  /** Whether a nested message keeps unknown fields is its own type's choice: it keeps all or none. */
  lemma {:induction false} NestedReads(s: Schema, keep: bool, items: seq<bytes>)
    requires MetaDeep.ValidNested(s) && MetaDeep.DecodeNested(s, keep, items).Some? &&
      forall i :: 0 <= i < |items| ==> Short(items[i])
    ensures var msgs := MetaDeep.DecodeNested(s, keep, items).value;
      && |msgs| == |items|
      && forall i :: 0 <= i < |items| ==>
        |msgs[i].vals| == |s| && MetaDeep.NestedOk(s, keep, msgs[i]) && NestedUnknown(s, keep, msgs[i], items[i])
  {
    hide Decode, MetaDeep.NestedOk, NestedUnknown;
    if items != [] {
      var n := |items| - 1;
      NestedReads(s, keep, items[..n]);
      NestedReadOne(s, keep, items[n]);
    }
  }

  /** The unknown fields of a nested message: those of its bytes where its type keeps them, none
      where it does not. */
  predicate NestedUnknown(s: Schema, keep: bool, m: Msg, item: bytes) {
    m.unknown == if keep then UnknownIn(s, item) else []
  }

  lemma NestedReadOne(s: Schema, keep: bool, item: bytes)
    requires MetaDeep.ValidNested(s) && Decode(s, keep, item).Some? && Short(item)
    ensures var m := Decode(s, keep, item).value; MetaDeep.NestedOk(s, keep, m) && NestedUnknown(s, keep, m, item)
  {
    DecodedLoose(s, keep, item);
  }

  /** Of a map entry the key and the value are kept, and nothing else. */
  lemma EntryReads(item: bytes)
    requires Short(item) && MetaDeep.DecodeEntry(item).Some?
    ensures var (k, v) := MetaDeep.DecodeEntry(item).value;
      && Short(k) && Short(v) && |MetaDeep.EncodeEntry(k, v)| <= |item|
      && UnknownIn(MetaDeep.EntryTable, MetaDeep.EncodeEntry(k, v)) == []
  {
    var t := MetaDeep.EntryTable;
    DecodedLoose(t, false, item);
    var m := Decode(t, false, item).value;
    var (k, v) := MetaDeep.DecodeEntry(item).value;
    assert t[0].kind == Blob && t[1].kind == Blob;
    assert Allows(t[0].kind, m.vals[0]) && Allows(t[1].kind, m.vals[1]);
    assert m == Msg([Str(k), Str(v)], []);
    PlainRoundTrip(t, true, [Str(k), Str(v)]);
    hide Decode;
    DecodedLoose(t, true, Encode(t, m));
  }

  lemma {:induction false} DictReads(items: seq<bytes>)
    requires MetaDeep.DecodeDict(items).Some? && forall i :: 0 <= i < |items| ==> Short(items[i])
    ensures MetaDeep.ShortDict(MetaDeep.DecodeDict(items).value)
  {
    hide MetaDeep.DecodeEntry, MetaDeep.EncodeEntry;
    if items != [] {
      var n := |items| - 1;
      DictReads(items[..n]);
      EntryReads(items[n]);
    }
  }

  lemma ItemReads(shape: MetaDeep.Shape, v: Val)
    requires Allows(MetaDeep.FlatKind(shape), v) && MetaDeep.Lift(shape, v).Some? &&
      (shape.ListOf? ==> MetaDeep.ValidNested(shape.table))
    ensures MetaDeep.ItemFits(shape, MetaDeep.Lift(shape, v).value)
    ensures shape.ListOf? ==> v.Many? && InnerUnknown(shape, v.items, MetaDeep.Lift(shape, v).value)
  {
    match shape {
      case Plain(_) =>
      case MapOf => DictReads(v.items);
      case ListOf(t, keep) => NestedReads(t, keep, v.items);
    }
  }

  /** A list of nested messages against the byte strings it came from. */
  predicate InnerUnknown(shape: MetaDeep.Shape, items: seq<bytes>, x: MetaDeep.Item)
    requires shape.ListOf?
  {
    x.Nested? && |x.msgs| == |items| && forall i :: 0 <= i < |items| ==>
    NestedUnknown(shape.table, shape.keep, x.msgs[i], items[i])
  }

  lemma {:induction false} LiftedEach(t: MetaDeep.Table, vals: seq<Val>, i: nat)
    requires |vals| == |t| && i < |t| && MetaDeep.LiftAll(t, vals).Some?
    ensures MetaDeep.Lift(t[i].shape, vals[i]) == Some(MetaDeep.LiftAll(t, vals).value[i])
    decreases |t|
  {
    hide MetaDeep.Lift;
    var n := |t| - 1;
    if i < n {
      LiftedEach(t[..n], vals[..n], i);
    }
  }

  /** The byte strings an input carries in field i, a map or a list of messages. */
  function RawItems(t: MetaDeep.Table, b: bytes, i: nat): seq<bytes>
    requires i < |t|
  {
    var m := Decode(MetaDeep.Flat(t), true, b);
    if m.None? || !m.value.vals[i].Many? then [] else m.value.vals[i].items
  }

  /** What a decoded message holds: values that can be written again, the input's unknown fields,
      and in each nested message its own, all or none. */
  lemma DeepReads(t: MetaDeep.Table, b: bytes)
    requires MetaDeep.ValidTable(t) && |b| < TwoTo64 && MetaDeep.Decode(t, true, b).Some?
    ensures var d := MetaDeep.Decode(t, true, b).value;
      && MetaDeep.DeepFits(t, d) && d.unknown == UnknownIn(MetaDeep.Flat(t), b)
      && forall i :: 0 <= i < |t| && t[i].shape.ListOf? ==> InnerUnknown(t[i].shape, RawItems(t, b, i), d.items[i])
  {
    var s, d := MetaDeep.Flat(t), MetaDeep.Decode(t, true, b).value;
    DecodedLoose(s, true, b);
    var m := Decode(s, true, b).value;
    hide Decode, MetaDeep.Lift, MetaDeep.LiftAll, MetaDeep.ItemFits, InnerUnknown, MetaDeep.ValidNested, Allows,
      Unknown;
    forall i | 0 <= i < |t|
      ensures MetaDeep.ItemFits(t[i].shape, d.items[i])
      ensures t[i].shape.ListOf? ==> InnerUnknown(t[i].shape, RawItems(t, b, i), d.items[i])
    {
      LiftedEach(t, m.vals, i);
      ItemReads(t[i].shape, m.vals[i]);
    }
  }

  // ---- whole messages ----

  function TrimItem(s: MetaDeep.Shape, x: MetaDeep.Item): MetaDeep.Item {
    if s.Plain? && x.V? then MetaDeep.V(Trim(s.kind, x.val)) else x
  }

  predicate ItemNoEmpty(s: MetaDeep.Shape, x: MetaDeep.Item) { s.Plain? && x.V? ==> NoEmpty(s.kind, x.val) }

  /** A message as it reads back: empty strings gone from its lists of strings. */
  function TrimDeep(t: MetaDeep.Table, d: MetaDeep.Deep): (r: MetaDeep.Deep)
    requires |d.items| == |t|
    ensures |r.items| == |t| && r.unknown == d.unknown && forall i :: 0 <= i < |t| ==>
      r.items[i] == TrimItem(t[i].shape, d.items[i])
  {
    MetaDeep.Deep(seq(|t|, i requires 0 <= i < |t| => TrimItem(t[i].shape, d.items[i])), d.unknown)
  }

  lemma TrimItemOk(s: MetaDeep.Shape, x: MetaDeep.Item, num: nat)
    requires MetaDeep.ItemFits(s, x)
    ensures MetaDeep.ItemOk(s, TrimItem(s, x))
    ensures Allows(MetaDeep.FlatKind(s), MetaDeep.Lower(s, x))
    ensures MetaDeep.Lower(s, TrimItem(s, x)) == Trim(MetaDeep.FlatKind(s), MetaDeep.Lower(s, x))
    ensures TrimItem(s, x) == x <==> ItemNoEmpty(s, x)
  {
    if s.Plain? {
      TrimHolds(Spec(num, s.kind), x.val);
    } else if s.MapOf? {
      MetaDeep.DictRoundTrip(x.entries);
    }
  }

  lemma TrimDeepOk(t: MetaDeep.Table, d: MetaDeep.Deep)
    requires MetaDeep.DeepFits(t, d)
    ensures MetaDeep.DeepOk(t, TrimDeep(t, d)) && MetaDeep.Encode(t, TrimDeep(t, d)) == MetaDeep.Encode(t, d)
    ensures TrimDeep(t, d) == d <==> forall i :: 0 <= i < |t| ==> ItemNoEmpty(t[i].shape, d.items[i])
  {
    var s, r := MetaDeep.Flat(t), TrimDeep(t, d);
    hide MetaDeep.ItemFits, MetaDeep.ItemOk, MetaDeep.Lower, TrimItem, ItemNoEmpty, Unknown, Trim, Allows, EncodeFrom;
    forall i | 0 <= i < |t|
      ensures MetaDeep.ItemFits(t[i].shape, r.items[i]) && MetaDeep.ItemOk(t[i].shape, r.items[i])
      ensures Allows(s[i].kind, MetaDeep.Lower(t[i].shape, d.items[i]))
      ensures MetaDeep.Lower(t[i].shape, r.items[i]) == Trim(s[i].kind, MetaDeep.Lower(t[i].shape, d.items[i]))
      ensures TrimItem(t[i].shape, d.items[i]) == d.items[i] <==> ItemNoEmpty(t[i].shape, d.items[i])
    {
      TrimItemOk(t[i].shape, d.items[i], t[i].num);
      OkFits(t[i].shape, r.items[i]);
    }
    var vals := MetaDeep.Lowered(t, d);
    assert MetaDeep.Lowered(t, r) == Trimmed(s, vals);
    TrimEncodes(s, vals, 0);
    if forall i :: 0 <= i < |t| ==> ItemNoEmpty(t[i].shape, d.items[i]) {
      assert r.items == d.items;
    }
  }

  lemma OkFits(s: MetaDeep.Shape, x: MetaDeep.Item)
    requires MetaDeep.ItemOk(s, x)
    ensures MetaDeep.ItemFits(s, x)
  {
  }

  /** The same for whole records: what decodes can be written again, carries the input's unknown
      fields, and reads back as itself if and only if no list of strings in it holds an empty one.
      Besides those strings, what a rewrite can lose is what decoding already dropped: fields beside
      the key and value of a map entry, and fields of nested messages whose type keeps none. */
  lemma DeepRewrite(t: MetaDeep.Table, b: bytes)
    requires MetaDeep.ValidTable(t) && |b| < TwoTo64 && MetaDeep.Decode(t, true, b).Some?
    ensures var d := MetaDeep.Decode(t, true, b).value;
      && MetaDeep.DeepFits(t, d) && d.unknown == UnknownIn(MetaDeep.Flat(t), b)
      && MetaDeep.Decode(t, true, MetaDeep.Encode(t, d)) == Some(TrimDeep(t, d))
      && (MetaDeep.Decode(t, true, MetaDeep.Encode(t, d)) == Some(d) <==>
          forall i :: 0 <= i < |t| ==> ItemNoEmpty(t[i].shape, d.items[i]))
  {
    hide MetaDeep.Decode, MetaDeep.Encode, MetaDeep.DeepFits, MetaDeep.DeepOk, ItemNoEmpty, MetaDeep.ValidTable;
    DeepReads(t, b);
    var d := MetaDeep.Decode(t, true, b).value;
    TrimDeepOk(t, d);
    MetaDeep.DeepRoundTrip(t, TrimDeep(t, d), true);
  }
}
