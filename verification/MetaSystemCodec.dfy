/** The codecs of the cluster's own records. */
module MetaSystemCodec {
  import opened Bytes
  import opened MetaKeys
  import opened MetaRecords
  import opened MetaWire
  import MetaDeep
  import MetaRewrite
  import opened MetaFields

  const LayoutNodeKinds: seq<Kind> := [Blob, Blob, Blob, Low32, Flag]
  const TrustedCAKinds: seq<Kind> := [U64, Blob]

  const LayoutNodes := MetaDeep.ListOf(Fields(LayoutNodeKinds), false)
  const TrustedCAs := MetaDeep.ListOf(Fields(TrustedCAKinds), false)

  const LayoutShapes := [P(U32), P(U64), P(U32), P(RepeatStrings), LayoutNodes, LayoutNodes]
  const PostureShapes := [P(U32), P(Enum), P(U64), P(U64)]
  const TrustShapes := [P(U32), P(U64), TrustedCAs, P(U64)]
  const NodeShapes := [P(U32), P(Blob), P(Blob), P(Blob), P(U32), P(Flag), P(Blob), P(U64), P(Blob), P(U32)]

  // ---- nested messages ----

  function NodeMsg(n: LayoutNode): Msg {
    Msg([Str(n.id), Str(n.host), Str(n.zone), Num(n.weight), Num(Bit(n.draining))], [])
  }

  function NodeOf(m: Msg): LayoutNode {
    if |m.vals| != 5 then LayoutNode([], [], [], 0, false)
    else LayoutNode(BytesOf(m.vals[0]), BytesOf(m.vals[1]), BytesOf(m.vals[2]), U32Of(m.vals[3]), NumOf(m.vals[4]) != 0)
  }

  function NodeMsgs(nodes: seq<LayoutNode>): (ms: seq<Msg>)
    ensures |ms| == |nodes| && forall i :: 0 <= i < |ms| ==> ms[i] == NodeMsg(nodes[i])
  {
    seq(|nodes|, i requires 0 <= i < |nodes| => NodeMsg(nodes[i]))
  }

  function NodesOf(ms: seq<Msg>): (nodes: seq<LayoutNode>)
    ensures |nodes| == |ms| && forall i :: 0 <= i < |ms| ==> nodes[i] == NodeOf(ms[i])
  {
    seq(|ms|, i requires 0 <= i < |ms| => NodeOf(ms[i]))
  }

  lemma NodesBack(nodes: seq<LayoutNode>)
    ensures NodesOf(NodeMsgs(nodes)) == nodes
  {
    forall i | 0 <= i < |nodes|
      ensures NodeOf(NodeMsg(nodes[i])) == nodes[i]
    {
    }
  }

  lemma NodeForth(m: Msg)
    requires AllHold(Fields(LayoutNodeKinds), m.vals) && m.unknown == []
    ensures NodeMsg(NodeOf(m)) == m
  {
    NestedForth(LayoutNodeKinds, m);
    var v := m.vals;
    assert Rebuilt(Blob, v[0]) == v[0] && Rebuilt(Blob, v[1]) == v[1] && Rebuilt(Blob, v[2]) == v[2];
    assert Rebuilt(Low32, v[3]) == v[3] && Rebuilt(Flag, v[4]) == v[4];
    assert NodeMsg(NodeOf(m)).vals == v;
  }

  lemma NodesForth(ms: seq<Msg>)
    requires forall i :: 0 <= i < |ms| ==> AllHold(Fields(LayoutNodeKinds), ms[i].vals) && ms[i].unknown == []
    ensures NodeMsgs(NodesOf(ms)) == ms
  {
    hide NodeMsg, NodeOf;
    forall i | 0 <= i < |ms|
      ensures NodeMsg(NodeOf(ms[i])) == ms[i]
    {
      NodeForth(ms[i]);
    }
  }

  function CAMsg(c: TrustedCA): Msg { Msg([Num(c.fingerprint), Str(c.cert)], []) }

  function CAOf(m: Msg): TrustedCA { if |m.vals| != 2 then TrustedCA(0, [])
                                    else TrustedCA(NumOf(m.vals[0]), BytesOf(m.vals[1])) }

  function CAMsgs(cas: seq<TrustedCA>): (ms: seq<Msg>)
    ensures |ms| == |cas| && forall i :: 0 <= i < |ms| ==> ms[i] == CAMsg(cas[i])
  {
    seq(|cas|, i requires 0 <= i < |cas| => CAMsg(cas[i]))
  }

  function CAsOf(ms: seq<Msg>): (cas: seq<TrustedCA>)
    ensures |cas| == |ms| && forall i :: 0 <= i < |ms| ==> cas[i] == CAOf(ms[i])
  {
    seq(|ms|, i requires 0 <= i < |ms| => CAOf(ms[i]))
  }

  lemma CAsBack(cas: seq<TrustedCA>)
    ensures CAsOf(CAMsgs(cas)) == cas
  {
    forall i | 0 <= i < |cas|
      ensures CAOf(CAMsg(cas[i])) == cas[i]
    {
    }
  }

  lemma CAForth(m: Msg)
    requires AllHold(Fields(TrustedCAKinds), m.vals) && m.unknown == []
    ensures CAMsg(CAOf(m)) == m
  {
    NestedForth(TrustedCAKinds, m);
    var v := m.vals;
    assert Rebuilt(U64, v[0]) == v[0] && Rebuilt(Blob, v[1]) == v[1];
    assert CAMsg(CAOf(m)).vals == v;
  }

  lemma CAsForth(ms: seq<Msg>)
    requires forall i :: 0 <= i < |ms| ==> AllHold(Fields(TrustedCAKinds), ms[i].vals) && ms[i].unknown == []
    ensures CAMsgs(CAsOf(ms)) == ms
  {
    hide CAMsg, CAOf;
    forall i | 0 <= i < |ms|
      ensures CAMsg(CAOf(ms[i])) == ms[i]
    {
      CAForth(ms[i]);
    }
  }

  // ---- records as messages ----

  function LayoutDeep(l: ClusterLayout): MetaDeep.Deep {
    MetaDeep.Deep(
      [MetaDeep.V(Num(l.formatVersion)), MetaDeep.V(Num(l.version)), MetaDeep.V(Num(l.partitionCount)),
       MetaDeep.V(Many(l.members)),
       MetaDeep.Nested(NodeMsgs(l.nodes)), MetaDeep.Nested(NodeMsgs(l.previous))], l.unknown)
  }

  function LayoutOf(d: MetaDeep.Deep): ClusterLayout
    requires |d.items| == 6
  {
    var x := d.items;
    ClusterLayout(U32Of(ValOf(x[0])), NumOf(ValOf(x[1])), U32Of(ValOf(x[2])), ListOfVal(ValOf(x[3])),
                  NodesOf(MsgsOf(x[4])),
                  NodesOf(MsgsOf(x[5])), d.unknown)
  }

  function PostureDeep(p: EncryptionPosture): MetaDeep.Deep {
    MetaDeep.Deep(
      [MetaDeep.V(Num(p.formatVersion)), MetaDeep.V(Num(p.algorithm)), MetaDeep.V(Num(p.currentKEK)),
       MetaDeep.V(Num(p.rotatingToKEK))],
      p.unknown)
  }

  function PostureOf(d: MetaDeep.Deep): EncryptionPosture
    requires |d.items| == 4
  {
    var x := d.items;
    EncryptionPosture(U32Of(ValOf(x[0])), U8Of(ValOf(x[1])), NumOf(ValOf(x[2])), NumOf(ValOf(x[3])), d.unknown)
  }

  function TrustDeep(t: TrustBundle): MetaDeep.Deep {
    MetaDeep.Deep(
      [MetaDeep.V(Num(t.formatVersion)), MetaDeep.V(Num(t.version)), MetaDeep.Nested(CAMsgs(t.cas)),
       MetaDeep.V(Num(t.issuer))], t.unknown)
  }

  function TrustOf(d: MetaDeep.Deep): TrustBundle
    requires |d.items| == 4
  {
    var x := d.items;
    TrustBundle(U32Of(ValOf(x[0])), NumOf(ValOf(x[1])), CAsOf(MsgsOf(x[2])), NumOf(ValOf(x[3])), d.unknown)
  }

  function MemberDeep(n: NodeRecord): MetaDeep.Deep {
    MetaDeep.Deep(
      [MetaDeep.V(Num(n.formatVersion)), MetaDeep.V(Str(n.id)), MetaDeep.V(Str(n.host)), MetaDeep.V(Str(n.zone)),
       MetaDeep.V(Num(n.capacity)),
       MetaDeep.V(Num(Bit(n.draining))), MetaDeep.V(Str(n.replacedBy)), MetaDeep.V(Num(n.leafCA)),
       MetaDeep.V(Str(n.binaryVersion)),
       MetaDeep.V(Num(n.generation))], n.unknown)
  }

  function MemberOf(d: MetaDeep.Deep): NodeRecord
    requires |d.items| == 10
  {
    var x := d.items;
    NodeRecord(U32Of(ValOf(x[0])), BytesOf(ValOf(x[1])), BytesOf(ValOf(x[2])), BytesOf(ValOf(x[3])), U32Of(ValOf(x[4])),
               NumOf(ValOf(x[5])) != 0, BytesOf(ValOf(x[6])), NumOf(ValOf(x[7])), BytesOf(ValOf(x[8])),
               U32Of(ValOf(x[9])), d.unknown)
  }

  // ---- there and back ----

  lemma LayoutBack(l: ClusterLayout)
    ensures LayoutOf(LayoutDeep(l)) == l
  {
    NodesBack(l.nodes);
    NodesBack(l.previous);
    hide NodesOf, NodeMsgs;
  }

  lemma LayoutForth(d: MetaDeep.Deep)
    requires MetaDeep.DeepFits(Numbered(LayoutShapes), d)
    ensures |d.items| == 6 && LayoutDeep(LayoutOf(d)) == d
  {
    FieldsForth(LayoutShapes, d);
    var x := d.items;
    assert ItemForth(LayoutShapes[4], x[4]) && ItemForth(LayoutShapes[5], x[5]);
    NodesForth(x[4].msgs);
    NodesForth(x[5].msgs);
    hide MetaDeep.DeepFits, NodesOf, NodeMsgs;
    assert LayoutDeep(LayoutOf(d)).items == x;
  }

  lemma PostureForth(d: MetaDeep.Deep)
    requires MetaDeep.DeepFits(Numbered(PostureShapes), d)
    ensures |d.items| == 4 && PostureDeep(PostureOf(d)) == d
  {
    FieldsForth(PostureShapes, d);
    hide MetaDeep.DeepFits;
    assert PostureDeep(PostureOf(d)).items == d.items;
  }

  lemma TrustBack(t: TrustBundle)
    ensures TrustOf(TrustDeep(t)) == t
  {
    CAsBack(t.cas);
    hide CAsOf, CAMsgs;
  }

  lemma TrustForth(d: MetaDeep.Deep)
    requires MetaDeep.DeepFits(Numbered(TrustShapes), d)
    ensures |d.items| == 4 && TrustDeep(TrustOf(d)) == d
  {
    FieldsForth(TrustShapes, d);
    assert ItemForth(TrustShapes[2], d.items[2]);
    CAsForth(d.items[2].msgs);
    hide MetaDeep.DeepFits, CAsOf, CAMsgs;
    assert TrustDeep(TrustOf(d)).items == d.items;
  }

  ghost predicate MemberReads(x: seq<Item>) {
    |x| == 10
    && Reads(U32, x[0]) && Reads(Blob, x[1]) && Reads(Blob, x[2]) && Reads(Blob, x[3]) && Reads(U32, x[4])
    && Reads(Flag, x[5]) && Reads(Blob, x[6]) && Reads(U64, x[7]) && Reads(Blob, x[8]) && Reads(U32, x[9])
  }

  lemma MemberRebuilt(d: MetaDeep.Deep)
    requires MemberReads(d.items)
    ensures MemberDeep(MemberOf(d)).items == d.items
  {
    hide U32Of, NumOf, BytesOf, Bit, ValOf;
  }

  lemma MemberForth(d: MetaDeep.Deep)
    requires MetaDeep.DeepFits(Numbered(NodeShapes), d)
    ensures |d.items| == 10 && MemberDeep(MemberOf(d)) == d
  {
    hide MetaDeep.DeepFits, Numbered, Reads;
    FieldsForth(NodeShapes, d);
    var x := d.items;
    assert MemberReads(x) by {
      var s := NodeShapes;
      assert ItemForth(s[0], x[0]) && ItemForth(s[1], x[1]) && ItemForth(s[2], x[2]) && ItemForth(s[3], x[3]) &&
        ItemForth(s[4], x[4])
        && ItemForth(s[5], x[5]) && ItemForth(s[6], x[6]) && ItemForth(s[7], x[7]) && ItemForth(s[8], x[8]) &&
          ItemForth(s[9], x[9]);
    }
    MemberRebuilt(d);
  }

  lemma ShapesOk()
    ensures ValidShapes(LayoutShapes) && ValidShapes(PostureShapes) && ValidShapes(TrustShapes) &&
      ValidShapes(NodeShapes)
    ensures NoStringLists(PostureShapes) && NoStringLists(TrustShapes) && NoStringLists(NodeShapes)
  {
    FieldsValid(LayoutNodeKinds);
    FieldsValid(TrustedCAKinds);
    hide MetaDeep.ValidNested, Fields;
  }

  // ---- rows ----

  function SystemShapes(v: SystemRecord): seq<Shape> {
    match v
    case LayoutRec(_) => LayoutShapes
    case PostureRec(_) => PostureShapes
    case TrustRec(_) => TrustShapes
    case NodeRec(_) => NodeShapes
  }

  function SystemDeep(v: SystemRecord): (d: MetaDeep.Deep)
    ensures |d.items| == |SystemShapes(v)|
  {
    match v
    case LayoutRec(l) => LayoutDeep(l)
    case PostureRec(p) => PostureDeep(p)
    case TrustRec(t) => TrustDeep(t)
    case NodeRec(n) => MemberDeep(n)
  }

  /** A record whose strings fit and, for a layout, with no empty member name. */
  ghost predicate SystemStorable(v: SystemRecord) { MetaDeep.DeepOk(Numbered(SystemShapes(v)), SystemDeep(v)) }

  /** A record that can be written. */
  ghost predicate SystemWritable(v: SystemRecord) { MetaDeep.DeepFits(Numbered(SystemShapes(v)), SystemDeep(v)) }

  ghost function MarshalSystem(v: SystemRecord): bytes
    requires SystemWritable(v)
  {
    MetaDeep.Encode(Numbered(SystemShapes(v)), SystemDeep(v))
  }

  function ShapesNamed(name: SystemName): seq<Shape> {
    match name
    case LayoutName => LayoutShapes
    case PostureName => PostureShapes
    case TrustName => TrustShapes
    case NodeName(_) => NodeShapes
  }

  function SystemOf(name: SystemName, d: MetaDeep.Deep): (v: SystemRecord)
    requires |d.items| == |ShapesNamed(name)|
    ensures SystemFits(name, v)
  {
    match name
    case LayoutName => LayoutRec(LayoutOf(d))
    case PostureName => PostureRec(PostureOf(d))
    case TrustName => TrustRec(TrustOf(d))
    case NodeName(_) => NodeRec(MemberOf(d))
  }

  function UnmarshalSystem(name: SystemName, b: bytes): (r: Option<SystemRecord>) {
    var d := MetaDeep.Decode(Numbered(ShapesNamed(name)), true, b);
    if d.None? then None else Some(SystemOf(name, d.value))
  }

  lemma SystemBack(name: SystemName, v: SystemRecord)
    requires SystemFits(name, v)
    ensures ShapesNamed(name) == SystemShapes(v) && SystemOf(name, SystemDeep(v)) == v
  {
    hide LayoutDeep, LayoutOf, TrustDeep, TrustOf;
    match v {
      case LayoutRec(l) => LayoutBack(l);
      case PostureRec(_) =>
      case TrustRec(t) => TrustBack(t);
      case NodeRec(_) =>
    }
  }

  lemma SystemForth(name: SystemName, d: MetaDeep.Deep)
    requires MetaDeep.DeepFits(Numbered(ShapesNamed(name)), d)
    ensures |d.items| == |ShapesNamed(name)| && SystemShapes(SystemOf(name, d)) == ShapesNamed(name) &&
      SystemDeep(SystemOf(name, d)) == d
  {
    hide MetaDeep.DeepFits, LayoutDeep, LayoutOf, PostureDeep, PostureOf, TrustDeep, TrustOf, MemberDeep, MemberOf;
    match name {
      case LayoutName => LayoutForth(d);
      case PostureName => PostureForth(d);
      case TrustName => TrustForth(d);
      case NodeName(_) => MemberForth(d);
    }
  }

  lemma NamedShapesOk(name: SystemName)
    ensures ValidShapes(ShapesNamed(name)) && (!name.LayoutName? ==> NoStringLists(ShapesNamed(name)))
  {
    ShapesOk();
  }

  /** Every cluster record reads back from the row it is stored in. */
  lemma SystemRoundTrip(name: SystemName, v: SystemRecord)
    requires SystemFits(name, v) && SystemStorable(v)
    ensures SystemWritable(v) && UnmarshalSystem(name, MarshalSystem(v)) == Some(v)
  {
    hide MetaDeep.Encode, MetaDeep.Decode, ValidShapes, SystemDeep, SystemOf, SystemShapes, ShapesNamed;
    NamedShapesOk(name);
    SystemBack(name, v);
    NumberedBack(SystemShapes(v), SystemDeep(v));
  }

  /** Rewriting a cluster record keeps a newer writer's fields, and reads back as what was decoded;
      of a layout, but for empty member names. */
  lemma SystemRewrite(name: SystemName, b: bytes)
    requires |b| < TwoTo64 && UnmarshalSystem(name, b).Some?
    ensures var v := UnmarshalSystem(name, b).value;
      && SystemFits(name, v) && SystemWritable(v)
      && SystemDeep(v).unknown == MetaRewrite.UnknownIn(MetaDeep.Flat(Numbered(ShapesNamed(name))), b)
      && var again := UnmarshalSystem(name, MarshalSystem(v));
      && again.Some? && (!name.LayoutName? ==> again == Some(v))
      && (name.LayoutName? ==> again == Some(LayoutRec(v.layout.(members := NonEmpty(v.layout.members)))))
  {
    hide MetaDeep.Encode, MetaDeep.Decode, MetaDeep.DeepFits, MetaDeep.DeepOk, SystemDeep, SystemOf, SystemShapes,
      ShapesNamed;
    var t := Numbered(ShapesNamed(name));
    var d := MetaDeep.Decode(t, true, b).value;
    NamedRewrite(name, b);
    if name.LayoutName? {
      LayoutNamed(name, d);
    }
  }

  lemma NamedRewrite(name: SystemName, b: bytes)
    requires |b| < TwoTo64 && UnmarshalSystem(name, b).Some?
    ensures var t := Numbered(ShapesNamed(name)); var d := MetaDeep.Decode(t, true, b).value;
      var v := SystemOf(name, d);
      && MetaDeep.DeepFits(t, d) && SystemWritable(v) && SystemDeep(v) == d &&
        d.unknown == MetaRewrite.UnknownIn(MetaDeep.Flat(t), b)
      && UnmarshalSystem(name, MarshalSystem(v)) == Some(SystemOf(name, MetaRewrite.TrimDeep(t, d)))
      && (!name.LayoutName? ==> MetaRewrite.TrimDeep(t, d) == d)
  {
    hide MetaDeep.Encode, MetaDeep.Decode, MetaDeep.DeepFits, MetaDeep.DeepOk, ValidShapes, SystemDeep, SystemOf,
      SystemShapes, ShapesNamed;
    NamedShapesOk(name);
    NumberedRewrite(ShapesNamed(name), b);
    SystemForth(name, MetaDeep.Decode(Numbered(ShapesNamed(name)), true, b).value);
  }

  lemma LayoutNamed(name: SystemName, d: MetaDeep.Deep)
    requires name.LayoutName? && MetaDeep.DeepFits(Numbered(ShapesNamed(name)), d)
    ensures |d.items| == |ShapesNamed(name)|
    ensures var v, r := SystemOf(name, d), MetaRewrite.TrimDeep(Numbered(ShapesNamed(name)), d);
      v.LayoutRec? && SystemOf(name, r) == LayoutRec(v.layout.(members := NonEmpty(v.layout.members)))
  {
    LayoutTrimmed(d);
  }

  lemma LayoutTrimmed(d: MetaDeep.Deep)
    requires MetaDeep.DeepFits(Numbered(LayoutShapes), d)
    ensures |d.items| == 6
    ensures var r := MetaRewrite.TrimDeep(Numbered(LayoutShapes), d);
      SystemOf(LayoutName, r) == LayoutRec(LayoutOf(d).(members := NonEmpty(LayoutOf(d).members)))
  {
    var r := MetaRewrite.TrimDeep(Numbered(LayoutShapes), d);
    FieldsForth(LayoutShapes, d);
    assert ItemForth(LayoutShapes[3], d.items[3]);
    hide MetaDeep.DeepFits;
    assert r.items[0] == d.items[0] && r.items[1] == d.items[1] && r.items[2] == d.items[2] &&
      r.items[4] == d.items[4] && r.items[5] == d.items[5];
    assert r.items[3] == MetaRewrite.TrimItem(P(RepeatStrings), d.items[3]);
  }
}
