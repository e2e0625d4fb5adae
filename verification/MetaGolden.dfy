/** One proposal in full: the bytes a bucket creation is sent as. */
module MetaGolden {
  import opened Bytes
  import opened Wire
  import opened MetaRecords
  import opened MetaWire
  import MetaDeep
  import opened MetaProposals
  import MetaCommands

  lemma VarintStep(v: nat, low: byte, rest: nat)
    requires v >= 128 && low as nat == v % 128 + 128 && rest == v / 128
    ensures AppendVarint(v) == [low] + AppendVarint(rest)
  {
  }

  lemma SmallVarint(v: nat)
    requires v < 128
    ensures AppendVarint(v) == [v as byte]
  {
  }

  lemma GoldenTime()
    ensures AppendVarint(1700000000001) == [0x81, 0xd0, 0x95, 0xff, 0xbc, 0x31]
  {
    hide AppendVarint;
    VarintStep(1700000000001, 0x81, 13281250000);
    VarintStep(13281250000, 0xd0, 103759765);
    VarintStep(103759765, 0x95, 810623);
    VarintStep(810623, 0xff, 6332);
    VarintStep(6332, 0xbc, 49);
    SmallVarint(49);
  }

  const Table: MetaDeep.Table := [MetaDeep.Row(1, MetaDeep.Plain(Blob)), MetaDeep.Row(2, MetaDeep.Plain(Flag))]

  lemma GoldenTable()
    ensures CommandTable(3) == Table && MetaDeep.Flat(Table) == [Spec(1, Blob), Spec(2, Flag)]
  {
  }

  function Fields(name: bytes): MetaDeep.Deep { MetaDeep.Deep([MetaDeep.V(Str(name)), MetaDeep.V(Num(1))], []) }

  lemma GoldenLowered(name: bytes)
    requires |name| == 4
    ensures MetaDeep.DeepFits(Table, Fields(name)) && MetaDeep.Lowered(Table, Fields(name)) == [Str(name), Num(1)]
  {
    var t, d := Table, Fields(name);
    assert MetaDeep.ItemFits(t[0].shape, d.items[0]) && MetaDeep.ItemFits(t[1].shape, d.items[1]);
    assert Unknown(MetaDeep.Flat(t), []);
    var vals := MetaDeep.Lowered(t, d);
    assert vals[0] == MetaDeep.Lower(t[0].shape, d.items[0]) && vals[1] == MetaDeep.Lower(t[1].shape, d.items[1]);
  }

  lemma GoldenFields(name: bytes)
    requires |name| == 4
    ensures EncodeFrom([Spec(1, Blob), Spec(2, Flag)], [Str(name), Num(1)], 0) == [0x0a, 0x04] + name + [0x10, 0x01]
  {
    hide AppendVarint;
    SmallVarint(10);
    SmallVarint(4);
    SmallVarint(16);
    SmallVarint(1);
    var s, vals := [Spec(1, Blob), Spec(2, Flag)], [Str(name), Num(1)];
    assert EncodeFrom(s, vals, 2) == [];
    assert EncodeField(s[1], vals[1]) == [0x10, 0x01];
    assert EncodeFrom(s, vals, 1) == [0x10, 0x01];
    assert EncodeField(s[0], vals[0]) == [0x0a, 0x04] + name;
  }

  lemma GoldenCommand(name: bytes)
    requires |name| == 4
    ensures MetaDeep.DeepOk(CommandTable(3), Fields(name))
    ensures MetaDeep.Encode(CommandTable(3), Fields(name)) == [0x0a, 0x04] + name + [0x10, 0x01]
  {
    GoldenTable();
    GoldenLowered(name);
    GoldenFields(name);
    hide EncodeFrom, CommandTable, MetaDeep.Flat, MetaDeep.Lowered;
  }

  lemma GoldenEnvelope(cmd: bytes)
    requires |cmd| == 8
    ensures VarintField(1, 1) + (EncodeField(Spec(2, U64), Num(1700000000001)) + BytesField(3, cmd)) ==
      [0x08, 0x01] + (([0x10] + [0x81, 0xd0, 0x95, 0xff, 0xbc, 0x31]) + ([0x1a, 0x08] + cmd))
  {
    hide AppendVarint;
    GoldenTime();
    SmallVarint(8);
    SmallVarint(1);
    SmallVarint(16);
    SmallVarint(26);
  }

  /** A bucket creation with object lock at millisecond 1700000000001, for any four-letter name. */
  lemma GoldenCreateBucket(name: bytes)
    requires |name| == 4
    ensures var c := MetaCommands.CommandOf(CreateBucket(1700000000001, name, true));
      && Sendable(c)
      && EncodeProposal(c) == [0x08, 0x01] + (([0x10] + [0x81, 0xd0, 0x95, 0xff, 0xbc, 0x31]) +
         ([0x1a, 0x08] + ([0x0a, 0x04] + name + [0x10, 0x01])))
  {
    GoldenCommand(name);
    GoldenEnvelope([0x0a, 0x04] + name + [0x10, 0x01]);
    hide AppendVarint, MetaDeep.Encode, MetaDeep.DeepOk, CommandTable, VarintField, BytesField, EncodeField;
    var c := MetaCommands.CommandOf(CreateBucket(1700000000001, name, true));
    assert c == Command(1700000000001, 3, Fields(name).items);
  }
}
