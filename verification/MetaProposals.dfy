/** The proposal envelope: a time and exactly one command, each command a message with its own
    table. */
module MetaProposals {
  import opened Bytes
  import opened Wire
  import opened MetaRecords
  import opened MetaWire
  import MetaDeep
  import opened MetaFields
  import opened MetaSystemCodec
  import opened MetaCodec

  const FirstCommand := 3
  const LastCommand := 27

  /** The fields of each command, numbered from one. */
  function CommandShapes(num: nat): seq<Shape> {
    match num
    case 3 => [P(Blob), P(Flag)]
    case 4 => [P(Blob)]
    case 5 => [P(Blob), P(Enum)]
    case 6 => [P(Blob), P(Blob), P(Id), P(U64), P(Blob), P(Blob), MetaDeep.MapOf, P(U64), P(U32), P(U32), P(Blob),
               P(Repeat),
               P(Enum), P(U64), P(Flag), P(Enum), P(Blob), P(U64)]
    case 7 => [P(Blob), P(Blob), P(Id)]
    case 8 => [P(Blob), P(Blob), P(Id), P(Flag)]
    case 9 => [P(Blob), P(Blob), P(Id), P(Enum), P(U64), P(Flag)]
    case 10 => [P(Blob), P(Blob), P(Id), P(Flag)]
    case 11 => [P(Blob), P(Blob), P(Id), P(Blob), MetaDeep.MapOf]
    case 12 => [P(Blob), P(Blob), P(Id), P(U32), P(Id), P(U64), P(Blob), P(Blob), P(U64), P(U32), P(U32), P(Repeat),
                P(Enum),
                P(Blob), P(U64)]
    case 13 => [P(Blob), P(Blob), P(Id), P(Id), P(Blob), CompletedParts]
    case 14 => [P(Blob), P(Blob), P(Id)]
    case 15 => [P(U64), P(U32), P(RepeatStrings), LayoutNodes, LayoutNodes]
    case 16 => [P(Blob), P(Blob), P(Blob), P(U32), P(U64)]
    case 17 => [P(Blob), P(Flag)]
    case 18 => [P(Blob), P(Blob)]
    case 19 => [P(Blob), P(Blob), P(Id), P(Id), P(U32), P(U32), P(Repeat)]
    case 20 => [P(Blob), P(Enum), P(U32), P(U32)]
    case 21 => [P(Enum), P(U64)]
    case 22 => [P(U64), P(U64)]
    case 23 => [P(Blob), P(Blob), P(Id), P(Blob), P(U64)]
    case 24 => [P(U64)]
    case 25 => [P(Blob), P(U64)]
    case 26 => [P(U64), TrustedCAs, P(U64)]
    case 27 => [P(Blob), P(Blob), P(U32)]
    case _ => []
  }

  /** A proposal: when it was made, which command, and the command's fields. */
  datatype Command = Command(at: int64, num: nat, items: seq<Item>)

  function CommandTable(num: nat): MetaDeep.Table { Numbered(CommandShapes(num)) }

  /** A command this version knows, with strings that fit and no empty string in a list of
      strings. */
  ghost predicate Sendable(c: Command) {
    && FirstCommand <= c.num <= LastCommand
    && MetaDeep.DeepOk(CommandTable(c.num), MetaDeep.Deep(c.items, []))
    && Short(MetaDeep.Encode(CommandTable(c.num), MetaDeep.Deep(c.items, [])))
  }

  ghost function EncodeProposal(c: Command): bytes
    requires Sendable(c)
  {
    var cmd := MetaDeep.Encode(CommandTable(c.num), MetaDeep.Deep(c.items, []));
    VarintField(1, 1) + (EncodeField(Spec(2, U64), Num(Unsigned(c.at))) + BytesField(c.num, cmd))
  }

  /** What the envelope has said so far. */
  datatype Envelope = Envelope(at: int64, command: Option<(nat, bytes)>)

  /** One envelope field: the format version, the time, or the one command. Anything else is
      refused, for a replica must not half-apply what it does not understand. */
  function ReadField(e: Envelope, t: Token): Option<Envelope> {
    if t.num == 1 then if t.typ == VarintType && t.value < MetaWire.TwoTo32 then Some(e) else None
    else if t.num == 2 then if t.typ == VarintType then Some(e.(at := Signed(t.value))) else None
    else if FirstCommand <= t.num <= LastCommand then
      if e.command.Some? || t.typ != BytesType then None else Some(e.(command := Some((t.num, t.blob))))
    else None
  }

  function ReadEnvelope(e: Envelope, b: bytes): (r: Option<Envelope>)
    decreases |b|
  {
    if b == [] then Some(e)
    else
      var t := NextToken(b);
      if t.None? then None
      else
        var next := ReadField(e, t.value);
        if next.None? then None else ReadEnvelope(next.value, b[|t.value.raw|..])
  }

  function DecodeProposal(b: bytes): (r: Option<Command>) {
    var e := ReadEnvelope(Envelope(0, None), b);
    if e.None? || e.value.command.None? then None
    else
      var (num, cmd) := e.value.command.value;
      var d := MetaDeep.Decode(CommandTable(num), false, cmd);
      if d.None? then None else Some(Command(e.value.at, num, d.value.items))
  }

  /** The envelope loop. */
  method DecodeEnvelope(b: bytes) returns (r: Option<Envelope>)
    ensures r == ReadEnvelope(Envelope(0, None), b)
  {
    hide NextToken, ReadField;
    var e, rest := Envelope(0, None), b;
    while rest != []
      invariant ReadEnvelope(e, rest) == ReadEnvelope(Envelope(0, None), b)
      decreases |rest|
    {
      var t := NextToken(rest);
      if t.None? {
        return None;
      }
      var next := ReadField(e, t.value);
      if next.None? {
        return None;
      }
      e, rest := next.value, rest[|t.value.raw|..];
    }
    r := Some(e);
  }

  lemma EnvelopeStep(e: Envelope, f: bytes, t: Token, rest: bytes)
    requires f != [] && NextToken(f + rest) == Some(t) && t.raw == f && ReadField(e, t).Some?
    ensures ReadEnvelope(e, f + rest) == ReadEnvelope(ReadField(e, t).value, rest)
  {
    hide NextToken, ReadField;
    assert (f + rest)[|f|..] == rest;
  }

  lemma NestedShapes(shapes: seq<Shape>)
    requires |shapes| <= 18 && forall i :: 0 <= i < |shapes| && shapes[i].ListOf? ==>
      MetaDeep.ValidNested(shapes[i].table)
    ensures ValidShapes(shapes)
  {
  }

  lemma FlatShapes(num: nat)
    requires num != 13 && num != 15 && num != 26
    ensures ValidShapes(CommandShapes(num))
  {
    var shapes := CommandShapes(num);
    assert |shapes| <= 18;
    forall i | 0 <= i < |shapes| ensures !shapes[i].ListOf? {
    }
    hide CommandShapes;
  }

  lemma ShapesValid(num: nat)
    ensures ValidShapes(CommandShapes(num))
  {
    FieldsValid(CompletedPartKinds);
    FieldsValid(LayoutNodeKinds);
    FieldsValid(TrustedCAKinds);
    hide ValidSchema, Fields;
    if num == 13 {
      NestedShapes(CommandShapes(num));
    } else if num == 15 {
      NestedShapes(CommandShapes(num));
    } else if num == 26 {
      NestedShapes(CommandShapes(num));
    } else {
      FlatShapes(num);
    }
  }

  /** Every proposal reads back from its own encoding. */
  lemma ProposalRoundTrip(c: Command)
    requires Sendable(c)
    ensures DecodeProposal(EncodeProposal(c)) == Some(c)
  {
    var t := CommandTable(c.num);
    var d := MetaDeep.Deep(c.items, []);
    CommandBack(c);
    hide MetaDeep.Encode, MetaDeep.Decode, MetaDeep.DeepOk, CommandTable;
    EnvelopeBack(c.at, c.num, MetaDeep.Encode(t, d));
  }

  lemma CommandBack(c: Command)
    requires Sendable(c)
    ensures MetaDeep.Decode(CommandTable(c.num), false,
                            MetaDeep.Encode(CommandTable(c.num),
                                            MetaDeep.Deep(c.items, []))) == Some(MetaDeep.Deep(c.items, []))
  {
    hide MetaDeep.Encode, MetaDeep.Decode, MetaDeep.DeepOk, MetaDeep.ValidTable, CommandShapes;
    ShapesValid(c.num);
    NumberedValid(CommandShapes(c.num));
    MetaDeep.DeepRoundTrip(CommandTable(c.num), MetaDeep.Deep(c.items, []), false);
  }

  lemma EnvelopeBack(at: int64, num: nat, cmd: bytes)
    requires FirstCommand <= num <= LastCommand && Short(cmd)
    ensures ReadEnvelope(Envelope(0, None),
                         VarintField(1, 1) + (EncodeField(Spec(2, U64), Num(Unsigned(at))) + BytesField(num, cmd))) ==
      Some(Envelope(at, Some((num, cmd))))
  {
    hide NextToken, VarintField, BytesField, ReadEnvelope;
    var version, time, body := VarintField(1, 1), EncodeField(Spec(2, U64), Num(Unsigned(at))), BytesField(num, cmd);
    FieldsNonEmpty(1, 1, num, cmd);
    VarintToken(1, 1, time + body);
    EnvelopeStep(Envelope(0, None), version, Token(1, VarintType, version, 1, []), time + body);
    var e := Envelope(at, None);
    if at == 0 {
      assert time + body == body;
    } else {
      FieldsNonEmpty(2, Unsigned(at), num, cmd);
      VarintToken(2, Unsigned(at), body);
      EnvelopeStep(Envelope(0, None), time, Token(2, VarintType, time, Unsigned(at), []), body);
    }
    BytesToken(num, cmd, []);
    assert body + [] == body;
    EnvelopeStep(e, body, Token(num, BytesType, body, 0, cmd), []);
    EnvelopeEnd(Envelope(at, Some((num, cmd))));
  }

  lemma EnvelopeEnd(e: Envelope)
    ensures ReadEnvelope(e, []) == Some(e)
  {
  }

  lemma FieldsNonEmpty(num: nat, v: uint64, n: nat, b: bytes)
    ensures VarintField(num, v) != [] && BytesField(n, b) != []
  {
  }

  /** The commands an input carries. */
  function CommandsIn(b: bytes): nat
    decreases |b|
  {
    if b == [] || NextToken(b).None? then 0
    else
      var t := NextToken(b).value;
      CommandsIn(b[|t.raw|..]) + if FirstCommand <= t.num <= LastCommand then 1 else 0
  }

  /** Every field of an input is one this version knows. */
  predicate AllKnown(b: bytes)
    decreases |b|
  {
    b == [] || (NextToken(b).Some? && 1 <= NextToken(b).value.num <= LastCommand &&
                AllKnown(b[|NextToken(b).value.raw|..]))
  }

  lemma {:induction false} EnvelopeAccepts(e: Envelope, b: bytes)
    requires ReadEnvelope(e, b).Some?
    ensures AllKnown(b)
    ensures CommandsIn(b) + (if e.command.Some? then 1 else 0) ==
      if ReadEnvelope(e, b).value.command.Some? then 1 else 0
    decreases |b|
  {
    hide NextToken;
    if b != [] {
      var t := NextToken(b).value;
      EnvelopeAccepts(ReadField(e, t).value, b[|t.raw|..]);
      TokenNumber(b);
    }
  }

  lemma TokenNumber(b: bytes)
    ensures NextToken(b).Some? ==> NextToken(b).value.num >= 1
  {
  }

  /** What decodes carries exactly one command and nothing this version does not know. */
  lemma DecodesOneKnownCommand(b: bytes)
    requires DecodeProposal(b).Some?
    ensures AllKnown(b) && CommandsIn(b) == 1
  {
    EnvelopeAccepts(Envelope(0, None), b);
  }
}
