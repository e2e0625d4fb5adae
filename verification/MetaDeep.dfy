/** Messages with maps and nested messages: a repeated field whose items are themselves
    messages. */
module MetaDeep {
  import opened Bytes
  import opened Lex
  import opened MetaKV
  import opened MetaWire

  /** A field: plain, a string map, or a list of nested messages. */
  datatype Shape = Plain(kind: Kind) | MapOf | ListOf(table: Schema, keep: bool)

  datatype Row = Row(num: nat, shape: Shape)

  type Table = seq<Row>

  datatype Item = V(val: Val) | Dict(entries: map<bytes, bytes>) | Nested(msgs: seq<Msg>)

  datatype Deep = Deep(items: seq<Item>, unknown: bytes)

  /** The flat table under a table: maps and lists are repeated byte strings. */
  function Flat(t: Table): (s: Schema)
    ensures |s| == |t| && forall i :: 0 <= i < |t| ==> s[i] == Spec(t[i].num, FlatKind(t[i].shape))
  {
    seq(|t|, i requires 0 <= i < |t| => Spec(t[i].num, FlatKind(t[i].shape)))
  }

  function FlatKind(s: Shape): Kind { if s.Plain? then s.kind else Repeat }

  /** Numbered fields, and nested messages without string lists of their own. */
  predicate ValidTable(t: Table) {
    ValidSchema(Flat(t)) && forall i :: 0 <= i < |t| && t[i].shape.ListOf? ==> ValidNested(t[i].shape.table)
  }

  predicate ValidNested(s: Schema) {
    ValidSchema(s) && forall i :: 0 <= i < |s| ==> !s[i].kind.RepeatStrings?
  }

  // ---- string maps ----

  const EntryTable: Schema := [Spec(1, Blob), Spec(2, Blob)]

  function EncodeEntry(k: bytes, v: bytes): bytes {
    MetaWire.Encode(EntryTable, Msg([Str(k), Str(v)], []))
  }

  function DecodeEntry(b: bytes): (r: Option<(bytes, bytes)>) {
    var m := MetaWire.Decode(EntryTable, false, b);
    if m.None? || !m.value.vals[0].Str? || !m.value.vals[1].Str? then None
    else Some((m.value.vals[0].s, m.value.vals[1].s))
  }

  lemma EntryRoundTrip(k: bytes, v: bytes)
    requires Short(k) && Short(v)
    ensures DecodeEntry(EncodeEntry(k, v)) == Some((k, v))
  {
    PlainRoundTrip(EntryTable, false, [Str(k), Str(v)]);
  }

  lemma {:induction false} PlaceExists(keys: seq<bytes>, k: bytes) returns (i: nat)
    requires Ascending(keys)
    ensures Splits(keys, k, i)
    decreases |keys|
  {
    var n := |keys| - 1;
    if keys == [] {
      i := 0;
    } else if Less(keys[n], k) {
      i := |keys|;
      forall j | 0 <= j < n
        ensures Less(keys[j], k)
      {
        Transitive(keys[j], keys[n], k);
      }
    } else {
      Total(keys[n], k);
      i := PlaceExists(keys[..n], k);
    }
  }

  lemma {:induction false} OrderExists(m: map<bytes, bytes>)
    ensures exists keys :: Indexes(keys, m)
    decreases |m|
  {
    if m == map[] {
      assert Indexes([], m);
    } else {
      hide Indexes;
      var k :| k in m;
      var rest := m - {k};
      OneFewer(m, k);
      OrderExists(rest);
      var keys :| Indexes(keys, rest);
      var more := AddsOne(keys, rest, k, m[k]);
    }
  }

  lemma OneFewer(m: map<bytes, bytes>, k: bytes)
    requires k in m
    ensures |m - {k}| < |m| && (m - {k})[k := m[k]] == m
  {
    assert (m - {k}).Keys == m.Keys - {k};
  }

  lemma AddsOne(keys: seq<bytes>, m: map<bytes, bytes>, k: bytes, v: bytes) returns (more: seq<bytes>)
    requires Indexes(keys, m) && k !in m
    ensures Indexes(more, m[k := v])
  {
    var i := PlaceExists(keys, k);
    InsertKeeps(keys, m, k, v, i);
    more := keys[..i] + [k] + keys[i..];
  }

  /** A map's keys in order. */
  ghost function SortedKeys(m: map<bytes, bytes>): (keys: seq<bytes>)
    ensures Indexes(keys, m)
  {
    OrderExists(m);
    var keys :| Indexes(keys, m);
    keys
  }

  /** The entries of some of a map's keys. */
  function EntryList(m: map<bytes, bytes>, keys: seq<bytes>): (items: seq<bytes>)
    requires forall k :: k in keys ==> k in m
    ensures |items| == |keys|
  {
    if keys == [] then []
    else
      var n := |keys| - 1;
      assert keys[n] in keys;
      EntryList(m, keys[..n]) + [EncodeEntry(keys[n], m[keys[n]])]
  }

  ghost function EncodeDict(m: map<bytes, bytes>): (items: seq<bytes>) {
    EntryList(m, SortedKeys(m))
  }

  function DecodeDict(items: seq<bytes>): (r: Option<map<bytes, bytes>>) {
    if items == [] then Some(map[])
    else
      var before, last := DecodeDict(items[..|items| - 1]), DecodeEntry(items[|items| - 1]);
      if before.None? || last.None? then None else Some(before.value[last.value.0 := last.value.1])
  }

  ghost predicate ShortDict(m: map<bytes, bytes>) {
    forall k :: k in m ==> Short(k) && Short(m[k]) && Short(EncodeEntry(k, m[k]))
  }

  function Restrict(m: map<bytes, bytes>, keys: seq<bytes>): map<bytes, bytes> {
    map k | k in m && k in keys :: m[k]
  }

  lemma {:induction false} DictPart(m: map<bytes, bytes>, keys: seq<bytes>)
    requires ShortDict(m) && forall k :: k in keys ==> k in m
    ensures DecodeDict(EntryList(m, keys)) == Some(Restrict(m, keys))
    ensures forall i :: 0 <= i < |keys| ==> Short(EntryList(m, keys)[i])
    decreases |keys|
  {
    hide EncodeEntry, DecodeEntry;
    if keys == [] {
      assert Restrict(m, keys) == map[];
    } else {
      var n := |keys| - 1;
      var front, k := keys[..n], keys[n];
      assert k in keys;
      DictPart(m, front);
      EntryRoundTrip(k, m[k]);
      RestrictStep(m, front, k);
      assert keys == front + [k];
      assert EntryList(m, keys)[..n] == EntryList(m, front);
    }
  }

  lemma RestrictStep(m: map<bytes, bytes>, keys: seq<bytes>, k: bytes)
    requires k in m
    ensures Restrict(m, keys)[k := m[k]] == Restrict(m, keys + [k])
  {
  }

  lemma DictRoundTrip(m: map<bytes, bytes>)
    requires ShortDict(m)
    ensures DecodeDict(EncodeDict(m)) == Some(m)
    ensures forall i :: 0 <= i < |EncodeDict(m)| ==> Short(EncodeDict(m)[i])
  {
    hide EncodeEntry, EntryList, DecodeDict, Ascending, ShortDict;
    var keys := SortedKeys(m);
    DictPart(m, keys);
    assert Restrict(m, keys) == m;
  }

  // ---- nested messages ----

  function EncodeNested(s: Schema, msgs: seq<Msg>): (items: seq<bytes>)
    requires forall i :: 0 <= i < |msgs| ==> |msgs[i].vals| == |s|
  {
    seq(|msgs|, i requires 0 <= i < |msgs| => MetaWire.Encode(s, msgs[i]))
  }

  function DecodeNested(s: Schema, keep: bool, items: seq<bytes>): (r: Option<seq<Msg>>) {
    if items == [] then Some([])
    else
      var before, last := DecodeNested(s, keep, items[..|items| - 1]), MetaWire.Decode(s, keep, items[|items| - 1]);
      if before.None? || last.None? then None else Some(before.value + [last.value])
  }

  predicate NestedOk(s: Schema, keep: bool, m: Msg) {
    |m.vals| == |s| && MetaWire.WellFormed(s, m) && Short(MetaWire.Encode(s, m)) && (!keep ==> m.unknown == [])
  }

  lemma {:induction false} NestedRoundTrip(s: Schema, keep: bool, msgs: seq<Msg>)
    requires ValidSchema(s) && forall i :: 0 <= i < |msgs| ==> |msgs[i].vals| == |s| && NestedOk(s, keep, msgs[i])
    ensures DecodeNested(s, keep, EncodeNested(s, msgs)) == Some(msgs)
  {
    hide MetaWire.WellFormed, MetaWire.Encode, MetaWire.Decode, ValidSchema;
    if msgs != [] {
      var n := |msgs| - 1;
      NestedRoundTrip(s, keep, msgs[..n]);
      assert EncodeNested(s, msgs)[..n] == EncodeNested(s, msgs[..n]);
      NestedOne(s, keep, msgs[n]);
      assert msgs == msgs[..n] + [msgs[n]];
    } else {
      assert EncodeNested(s, msgs) == [];
    }
  }

  lemma NestedOne(s: Schema, keep: bool, m: Msg)
    requires ValidSchema(s) && NestedOk(s, keep, m)
    ensures MetaWire.Decode(s, keep, MetaWire.Encode(s, m)) == Some(m)
  {
    hide MetaWire.Encode, MetaWire.Decode;
    if keep {
      RoundTrip(s, m);
    } else {
      PlainRoundTrip(s, keep, m.vals);
      assert m == Msg(m.vals, []);
    }
  }

  // ---- whole messages ----

  /** What a field can hold. */
  ghost predicate ItemFits(s: Shape, x: Item) {
    match s
    case Plain(k) => x.V? && Allows(k, x.val)
    case MapOf => x.Dict? && ShortDict(x.entries)
    case ListOf(t, keep) => x.Nested? && forall i :: 0 <= i < |x.msgs| ==>
      |x.msgs[i].vals| == |t| && NestedOk(t, keep, x.msgs[i])
  }

  /** What a field holds and reads back. */
  ghost predicate ItemOk(s: Shape, x: Item) {
    ItemFits(s, x) && (s.Plain? ==> Holds(s.kind, x.val))
  }

  /** A field's flat value. */
  ghost function Lower(s: Shape, x: Item): (v: Val)
    requires ItemFits(s, x)
  {
    match s
    case Plain(_) => x.val
    case MapOf => Many(EncodeDict(x.entries))
    case ListOf(t, _) => Many(EncodeNested(t, x.msgs))
  }

  function Lift(s: Shape, v: Val): (r: Option<Item>) {
    match s
    case Plain(_) => Some(V(v))
    case MapOf =>
      if !v.Many? then None
      else
        var m := DecodeDict(v.items);
        if m.None? then None else Some(Dict(m.value))
    case ListOf(t, keep) =>
      if !v.Many? then None
      else
        var m := DecodeNested(t, keep, v.items);
        if m.None? then None else Some(Nested(m.value))
  }

  lemma LiftLowered(s: Shape, x: Item)
    requires ItemOk(s, x) && (s.ListOf? ==> ValidNested(s.table))
    ensures Lift(s, Lower(s, x)) == Some(x) && Holds(FlatKind(s), Lower(s, x))
  {
    match s {
      case Plain(_) =>
      case MapOf => DictRoundTrip(x.entries);
      case ListOf(t, keep) => NestedRoundTrip(t, keep, x.msgs);
    }
  }

  /** A message that can be written. */
  ghost predicate DeepFits(t: Table, d: Deep) {
    && |d.items| == |t| && (forall i :: 0 <= i < |t| ==> ItemFits(t[i].shape, d.items[i]))
    && Unknown(Flat(t), d.unknown)
  }

  /** A message that can be written and reads back: besides, no list of strings holds an empty
      one. */
  ghost predicate DeepOk(t: Table, d: Deep) {
    DeepFits(t, d) && forall i :: 0 <= i < |t| ==> ItemOk(t[i].shape, d.items[i])
  }

  ghost function Lowered(t: Table, d: Deep): (vals: seq<Val>)
    requires DeepFits(t, d)
    ensures |vals| == |t|
  {
    seq(|t|, i requires 0 <= i < |t| => Lower(t[i].shape, d.items[i]))
  }

  ghost function Encode(t: Table, d: Deep): bytes
    requires DeepFits(t, d)
  {
    MetaWire.Encode(Flat(t), Msg(Lowered(t, d), d.unknown))
  }

  function LiftAll(t: Table, vals: seq<Val>): (r: Option<seq<Item>>)
    requires |vals| == |t|
    ensures r.Some? ==> |r.value| == |t|
  {
    if t == [] then Some([])
    else
      var n := |t| - 1;
      var before, last := LiftAll(t[..n], vals[..n]), Lift(t[n].shape, vals[n]);
      if before.None? || last.None? then None else Some(before.value + [last.value])
  }

  function Decode(t: Table, keep: bool, b: bytes): (r: Option<Deep>)
    ensures r.Some? ==> |r.value.items| == |t|
  {
    var m := MetaWire.Decode(Flat(t), keep, b);
    if m.None? then None
    else
      var items := LiftAll(t, m.value.vals);
      if items.None? then None else Some(Deep(items.value, m.value.unknown))
  }

  lemma {:induction false} LiftsBack(t: Table, items: seq<Item>, vals: seq<Val>)
    requires |items| == |t| == |vals| && forall i :: 0 <= i < |t| ==> Lift(t[i].shape, vals[i]) == Some(items[i])
    ensures LiftAll(t, vals) == Some(items)
    decreases |t|
  {
    hide Lift;
    if t != [] {
      var n := |t| - 1;
      LiftsBack(t[..n], items[..n], vals[..n]);
      assert items == items[..n] + [items[n]];
    }
  }

  /** Every message reads back from its own encoding, nested messages and maps included. */
  lemma DeepRoundTrip(t: Table, d: Deep, keep: bool)
    requires ValidTable(t) && DeepOk(t, d) && (!keep ==> d.unknown == [])
    ensures Decode(t, keep, Encode(t, d)) == Some(d)
  {
    var vals := Lowered(t, d);
    forall i | 0 <= i < |t|
      ensures Lift(t[i].shape, vals[i]) == Some(d.items[i]) && Holds(FlatKind(t[i].shape), vals[i])
    {
      LiftLowered(t[i].shape, d.items[i]);
    }
    hide Lift, Holds, Lower, Unknown, ValidSchema, MetaWire.Encode, MetaWire.Decode;
    LiftsBack(t, d.items, vals);
    if keep {
      RoundTrip(Flat(t), Msg(vals, d.unknown));
    } else {
      PlainRoundTrip(Flat(t), keep, vals);
    }
  }
}
