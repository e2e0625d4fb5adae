/** Field tables and field values: what every record and proposal codec is built from. */
module MetaFields {
  import opened Bytes
  import opened MetaVid
  import opened MetaKeys
  import opened MetaRecords
  import opened MetaWire
  import MetaDeep
  import MetaRewrite

  type Shape = MetaDeep.Shape
  type Item = MetaDeep.Item

  // ---- tables: every message numbers its fields from one ----

  function Numbered(shapes: seq<Shape>): (t: MetaDeep.Table)
    ensures |t| == |shapes| && forall i :: 0 <= i < |t| ==> t[i] == MetaDeep.Row(i + 1, shapes[i])
  {
    seq(|shapes|, i requires 0 <= i < |shapes| => MetaDeep.Row(i + 1, shapes[i]))
  }

  function Fields(kinds: seq<Kind>): (s: Schema)
    ensures |s| == |kinds| && forall i :: 0 <= i < |s| ==> s[i] == Spec(i + 1, kinds[i])
  {
    seq(|kinds|, i requires 0 <= i < |kinds| => Spec(i + 1, kinds[i]))
  }

  function P(k: Kind): Shape { MetaDeep.Plain(k) }

  predicate ValidShapes(shapes: seq<Shape>) {
    |shapes| <= MaxNum && forall i :: 0 <= i < |shapes| && shapes[i].ListOf? ==> MetaDeep.ValidNested(shapes[i].table)
  }

  lemma NumberedValid(shapes: seq<Shape>)
    requires ValidShapes(shapes)
    ensures MetaDeep.ValidTable(Numbered(shapes))
  {
  }

  lemma FieldsValid(kinds: seq<Kind>)
    requires |kinds| <= MaxNum && RepeatStrings !in kinds
    ensures MetaDeep.ValidNested(Fields(kinds))
  {
  }

  // ---- numbers as Go stores them ----

  function Unsigned(x: int64): uint64 { if x < 0 then x + TwoTo64 else x }

  function Signed(v: uint64): int64 { if v < TwoTo63 then v else v - TwoTo64 }

  function Bit(b: bool): uint64 { if b then 1 else 0 }

  function NumOf(v: Val): uint64 { if v.Num? then v.n else 0 }

  function U32Of(v: Val): uint32 { if v.Num? && v.n < MetaWire.TwoTo32 then v.n else 0 }

  function U8Of(v: Val): uint8 { if v.Num? && v.n < 256 then v.n else 0 }

  function BytesOf(v: Val): bytes { if v.Str? then v.s else [] }

  function IdOf(v: Val): vid { if v.Str? && |v.s| == IdLen then IdFrom(v.s) else 0 }

  function ListOfVal(v: Val): seq<bytes> { if v.Many? then v.items else [] }

  function ValOf(x: Item): Val { if x.V? then x.val else Num(0) }

  function DictOf(x: Item): map<bytes, bytes> { if x.Dict? then x.entries else map[] }

  function MsgsOf(x: Item): seq<Msg> { if x.Nested? then x.msgs else [] }

  function IdVal(id: vid): Val { Str(IdBytes(id)) }

  lemma IdBack(id: vid)
    ensures IdOf(IdVal(id)) == id
  {
    IdsDiffer(IdOf(IdVal(id)), id);
  }

  // ---- a decoded field is what its Go value writes ----

  /** A field's value rebuilt from the Go value it was read into. */
  function Rebuilt(k: Kind, v: Val): Val {
    match k
    case U64 => Num(NumOf(v))
    case U32 => Num(U32Of(v))
    case Low32 => Num(U32Of(v))
    case Enum => Num(U8Of(v))
    case Flag => Num(Bit(NumOf(v) != 0))
    case Blob => Str(BytesOf(v))
    case Id => IdVal(IdOf(v))
    case _ => Many(ListOfVal(v))
  }

  lemma SignedForth(v: uint64)
    ensures Unsigned(Signed(v)) == v
  {
  }

  lemma IdForth(s: bytes)
    requires |s| == IdLen
    ensures IdVal(IdFrom(s)) == Str(s)
  {
    BytesOfValue(s);
  }

  lemma FieldForth(k: Kind, v: Val)
    requires Allows(k, v)
    ensures Rebuilt(k, v) == v
  {
    if k.Id? {
      IdForth(v.s);
    }
  }

  /** The same for the fields of a nested message. */
  lemma NestedForth(kinds: seq<Kind>, m: Msg)
    requires AllHold(Fields(kinds), m.vals)
    ensures |m.vals| == |kinds| && forall i :: 0 <= i < |kinds| ==> Rebuilt(kinds[i], m.vals[i]) == m.vals[i]
  {
    hide Rebuilt;
    forall i | 0 <= i < |kinds|
      ensures Rebuilt(kinds[i], m.vals[i]) == m.vals[i]
    {
      assert Holds(Fields(kinds)[i].kind, m.vals[i]);
      FieldForth(kinds[i], m.vals[i]);
    }
  }

  lemma FieldsForth(shapes: seq<Shape>, d: MetaDeep.Deep)
    requires MetaDeep.DeepFits(Numbered(shapes), d)
    ensures |d.items| == |shapes|
    ensures forall i :: 0 <= i < |shapes| ==> ItemForth(shapes[i], d.items[i])
  {
    hide Rebuilt;
    forall i | 0 <= i < |shapes|
      ensures ItemForth(shapes[i], d.items[i])
    {
      assert MetaDeep.ItemFits(Numbered(shapes)[i].shape, d.items[i]);
      if shapes[i].Plain? {
        FieldForth(shapes[i].kind, d.items[i].val);
      }
    }
  }

  /** An item of this kind is rebuilt from its Go value as it was. */
  predicate Reads(k: Kind, x: Item) {
    x == MetaDeep.V(Rebuilt(k, ValOf(x)))
  }

  /** The same for a signed number. */
  lemma ReadsSigned(x: Item)
    requires Reads(U64, x)
    ensures x == MetaDeep.V(Num(Unsigned(Signed(NumOf(ValOf(x))))))
  {
    SignedForth(NumOf(ValOf(x)));
  }

  /** A decoded item, as the Go value it is read into writes it. */
  predicate ItemForth(s: Shape, x: Item) {
    match s
    case Plain(k) => Reads(k, x)
    case MapOf => x.Dict?
    case ListOf(t, keep) => x.Nested? && forall i :: 0 <= i < |x.msgs| ==>
      AllHold(t, x.msgs[i].vals) && (!keep ==> x.msgs[i].unknown == [])
  }

  // ---- whole messages ----

  lemma NumberedBack(shapes: seq<Shape>, d: MetaDeep.Deep)
    requires ValidShapes(shapes) && MetaDeep.DeepOk(Numbered(shapes), d)
    ensures MetaDeep.Decode(Numbered(shapes), true, MetaDeep.Encode(Numbered(shapes), d)) == Some(d)
  {
    hide MetaDeep.Encode, MetaDeep.Decode, MetaDeep.DeepOk, MetaDeep.ValidTable;
    NumberedValid(shapes);
    MetaDeep.DeepRoundTrip(Numbered(shapes), d, true);
  }

  predicate NoStringLists(shapes: seq<Shape>) {
    forall i :: 0 <= i < |shapes| ==> shapes[i] != P(RepeatStrings)
  }

  /** Rewriting a record: what decodes can be written again and carries the input's unknown
      fields; without string lists it reads back as itself. */
  lemma NumberedRewrite(shapes: seq<Shape>, b: bytes)
    requires ValidShapes(shapes) && |b| < TwoTo64 && MetaDeep.Decode(Numbered(shapes), true, b).Some?
    ensures var t := Numbered(shapes); var d := MetaDeep.Decode(t, true, b).value;
      && MetaDeep.DeepFits(t, d) && d.unknown == MetaRewrite.UnknownIn(MetaDeep.Flat(t), b)
      && MetaDeep.Decode(t, true, MetaDeep.Encode(t, d)) == Some(MetaRewrite.TrimDeep(t, d))
      && (NoStringLists(shapes) ==> MetaRewrite.TrimDeep(t, d) == d && MetaDeep.DeepOk(t, d))
  {
    hide MetaDeep.Encode, MetaDeep.Decode, MetaDeep.DeepOk, MetaDeep.ValidTable, MetaDeep.DeepFits, ValidShapes;
    NumberedValid(shapes);
    var t := Numbered(shapes);
    MetaRewrite.DeepRewrite(t, b);
    var d := MetaDeep.Decode(t, true, b).value;
    MetaRewrite.TrimDeepOk(t, d);
    if NoStringLists(shapes) {
      forall i | 0 <= i < |t|
        ensures MetaRewrite.ItemNoEmpty(t[i].shape, d.items[i])
      {
        assert shapes[i] != P(RepeatStrings);
      }
    }
  }
}
