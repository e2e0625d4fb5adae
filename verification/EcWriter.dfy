/** The streaming encoder: frame bytes in, in any split of writes; shard files out. */
module EcWriter {
  import opened Bytes
  import opened Arith
  import opened EcGeometry
  import opened EcHeader
  import opened EcStripe

  datatype WriterError =
    | InvalidParams | EmptyFrame | SinkCount | WriteAfterClose | FrameExceeded | ClosedTwice | FrameShort

  /** What sink `i` holds after `n` full stripes of the bytes accepted so far. */
  function Emitted(g: Geometry, c: Code, frame: bytes, i: nat, n: nat): (p: bytes)
    requires g.Valid() && MDS(c, g.k, g.m) && At(n, g.StripeBytes()) <= |frame| && i < g.Width()
  {
    if n == 0 then []
    else
      AtSteps(n - 1, n, g.StripeBytes());
      Emitted(g, c, frame, i, n - 1) + FullStripe(g, c, frame, n - 1)[i]
  }

  function FullStripe(g: Geometry, c: Code, frame: bytes, si: nat): (s: seq<Slice>)
    requires g.Valid() && MDS(c, g.k, g.m) && At(si + 1, g.StripeBytes()) <= |frame|
    ensures |s| == g.Width()
  {
    AtSteps(si, si + 1, g.StripeBytes());
    var body := frame[At(si, g.StripeBytes())..At(si + 1, g.StripeBytes())];
    EncodedStripeUniform(c, g.k, g.m, body, g.sliceSize);
    EncodedStripe(c, g.k, g.m, body, g.sliceSize)
  }

  /** Bytes accepted later do not disturb the stripes already emitted. */
  lemma {:induction false} EmittedExtends(g: Geometry, c: Code, frame: bytes, more: bytes, i: nat, n: nat)
    requires g.Valid() && MDS(c, g.k, g.m) && At(n, g.StripeBytes()) <= |frame| && i < g.Width()
    ensures Emitted(g, c, frame + more, i, n) == Emitted(g, c, frame, i, n)
  {
    hide EncodedStripe, MDS, At;
    if n > 0 {
      AtSteps(n - 1, n, g.StripeBytes());
      EmittedExtends(g, c, frame, more, i, n - 1);
      var lo, hi := At(n - 1, g.StripeBytes()), At(n, g.StripeBytes());
      assert (frame + more)[lo..hi] == frame[lo..hi];
    }
  }

  lemma FullStripeIsStripe(g: Geometry, c: Code, frame: bytes, si: nat)
    requires g.Valid() && MDS(c, g.k, g.m) && |frame| == g.frameSize && si < g.FullStripes()
    ensures At(si + 1, g.StripeBytes()) <= |frame|
    ensures FullStripe(g, c, frame, si) == StripeSlices(g, c, frame, si)
  {
    hide MDS, EncodedStripe;
    var sb := g.StripeBytes();
    DivMod(g.frameSize, sb);
    LeMul(si + 1, g.FullStripes(), sb);
    AtSteps(si, si + 1, sb);
    StripesTileFrame(g, si);
    assert StripeBody(g, frame, si) == frame[At(si, sb)..At(si + 1, sb)];
  }

  /** On the whole frame, the emitted full stripes are the reference payload. */
  lemma {:induction false} EmittedIsPayload(g: Geometry, c: Code, frame: bytes, i: nat, n: nat)
    requires g.Valid() && MDS(c, g.k, g.m) && |frame| == g.frameSize && n <= g.FullStripes() && i < g.Width()
    ensures At(n, g.StripeBytes()) <= |frame|
    ensures Emitted(g, c, frame, i, n) == Payload(g, c, frame, i, n)
  {
    hide FullStripe, StripeSlices, MDS, At;
    if n > 0 {
      EmittedIsPayload(g, c, frame, i, n - 1);
      FullStripeIsStripe(g, c, frame, n - 1);
    }
  }

  /** The parameters a writer runs under: storable headers and a code that can correct. */
  ghost predicate Ready(g: Geometry, c: Code, id: bytes) {
    Writable(g, id) && MDS(c, g.k, g.m)
  }

  /** `n` stripes of `frame` are out in `sinks` and the rest of it is in `stripe`. */
  ghost predicate Filling(g: Geometry, c: Code, id: bytes, frame: bytes, stripe: bytes, sinks: seq<bytes>, n: nat) {
    && Ready(g, c, id) && |sinks| == g.Width()
    && At(n, g.StripeBytes()) <= |frame| < At(n, g.StripeBytes()) + g.StripeBytes()
    && stripe == frame[At(n, g.StripeBytes())..]
    && forall i :: 0 <= i < g.Width() ==> sinks[i] == EncodeShard(HeaderOf(g, id, i)) + Emitted(g, c, frame, i, n)
  }

  /** Bytes that leave the stripe short only join the buffer. */
  lemma FillPartly(g: Geometry, c: Code, id: bytes, frame: bytes, stripe: bytes, sinks: seq<bytes>, n: nat, q: bytes)
    requires Filling(g, c, id, frame, stripe, sinks, n) && |stripe| + |q| < g.StripeBytes()
    ensures Filling(g, c, id, frame + q, stripe + q, sinks, n)
  {
    hide MDS, At, Emitted, EncodeShard;
    forall i | 0 <= i < g.Width()
      ensures Emitted(g, c, frame + q, i, n) == Emitted(g, c, frame, i, n)
    {
      EmittedExtends(g, c, frame, q, i, n);
    }
  }

  /** Bytes that complete the stripe emit it. */
  lemma FillUp(g: Geometry, c: Code, id: bytes, frame: bytes, stripe: bytes, sinks: seq<bytes>, n: nat, q: bytes,
               after: seq<bytes>)
    requires Filling(g, c, id, frame, stripe, sinks, n) && |stripe| + |q| == g.StripeBytes()
    requires |after| == |EncodedStripe(c, g.k, g.m, stripe + q, g.sliceSize)| == g.Width()
    requires forall i :: 0 <= i < g.Width() ==>
               after[i] == sinks[i] + EncodedStripe(c, g.k, g.m, stripe + q, g.sliceSize)[i]
    ensures Filling(g, c, id, frame + q, [], after, n + 1)
  {
    hide MDS, At, EncodeShard, EncodedStripe;
    var sb, f := g.StripeBytes(), frame + q;
    AtSteps(n, n + 1, sb);
    assert f[At(n, sb)..At(n + 1, sb)] == stripe + q;
    forall i | 0 <= i < g.Width()
      ensures after[i] == EncodeShard(HeaderOf(g, id, i)) + Emitted(g, c, f, i, n + 1)
    {
      EmittedExtends(g, c, frame, q, i, n);
    }
  }

  /** The frame ended on a stripe boundary: nothing is left to emit. */
  lemma FinishEven(g: Geometry, c: Code, id: bytes, frame: bytes, stripe: bytes, sinks: seq<bytes>)
    requires |frame| == g.frameSize && g.Valid() && Filling(g, c, id, frame, stripe, sinks, g.FullStripes()) &&
      stripe == []
    ensures forall i :: 0 <= i < g.Width() ==> sinks[i] == ShardFile(g, c, id, frame, i)
  {
    hide MDS, Emitted, Payload, EncodeShard;
    DivMod(g.frameSize, g.StripeBytes());
    forall i | 0 <= i < g.Width()
      ensures sinks[i] == ShardFile(g, c, id, frame, i)
    {
      EmittedIsPayload(g, c, frame, i, g.FullStripes());
    }
  }

  /** What is left in the buffer at Close, padded, is the last stripe's body. */
  lemma LastStripe(g: Geometry, frame: bytes, tail: bytes)
    requires g.Valid() && |frame| == g.frameSize && At(g.FullStripes(), g.StripeBytes()) <= |frame|
    requires tail == frame[At(g.FullStripes(), g.StripeBytes())..] && |tail| > 0
    ensures g.Stripes() == g.FullStripes() + 1
    ensures |tail| <= g.k * g.LastLen() == At(g.k, g.LastLen())
    ensures g.StripeSlice(g.FullStripes()).0 == g.LastLen()
    ensures StripeBody(g, frame, g.FullStripes()) == tail + Zeros(g.k * g.LastLen() - |tail|)
  {
    var sb := g.StripeBytes();
    DivMod(g.frameSize, sb);
    CeilingFits(g.frameSize % sb, g.k, g.sliceSize);
    StripesTileFrame(g, g.FullStripes());
  }

  /** The padded remainder completes every shard file. */
  lemma FinishShort(g: Geometry, c: Code, id: bytes, frame: bytes, tail: bytes, sinks: seq<bytes>, after: seq<bytes>,
                    body: bytes)
    requires |frame| == g.frameSize && g.Valid() && Filling(g, c, id, frame, tail, sinks, g.FullStripes()) && |tail| > 0
    requires |body| == At(g.k, g.LastLen()) && body == StripeBodyOf(g, frame)
    requires |after| == |EncodedStripe(c, g.k, g.m, body, g.LastLen())| == g.Width()
    requires forall i :: 0 <= i < g.Width() ==> after[i] == sinks[i] + EncodedStripe(c, g.k, g.m, body, g.LastLen())[i]
    ensures forall i :: 0 <= i < g.Width() ==> after[i] == ShardFile(g, c, id, frame, i)
  {
    hide MDS, Emitted, EncodeShard, At, EncodedStripe;
    LastStripe(g, frame, tail);
    hide Geometry.FullStripes, Geometry.Stripes, Geometry.StripeSlice, Geometry.LastLen, Geometry.StripeBytes;
    forall i | 0 <= i < g.Width()
      ensures after[i] == ShardFile(g, c, id, frame, i)
    {
      EmittedIsPayload(g, c, frame, i, g.FullStripes());
    }
  }

  /** The last stripe's body, when the frame has a short last stripe. */
  function StripeBodyOf(g: Geometry, frame: bytes): bytes
    requires g.Valid() && |frame| == g.frameSize
  {
    if g.FullStripes() < g.Stripes() then StripeBody(g, frame, g.FullStripes()) else []
  }

  lemma QuotientIs(a: nat, d: int, q: nat)
    requires d > 0 && At(q, d) <= a < At(q, d) + d
    ensures a / d == q
  {
    DivMod(a, d);
    if a / d < q {
      LeMul(a / d + 1, q, d);
      assert false;
    } else if a / d > q {
      LeMul(q + 1, a / d, d);
      assert false;
    }
  }

  class Writer {
    const geo: Geometry
    const id: bytes
    const code: Code
    var sinks: seq<bytes>   // what each shard's sink (and its running hash) has received
    var stripe: bytes       // the stripe being filled
    var written: nat
    var closed: bool
    ghost var frame: bytes  // every byte accepted so far
    ghost var full: nat     // stripes emitted so far

    ghost predicate Valid()
      reads this
    {
      && Ready(geo, code, id) && |sinks| == geo.Width()
      && written == |frame| <= geo.frameSize
      && (!closed ==> Filling(geo, code, id, frame, stripe, sinks, full))
    }

    constructor Start(geo: Geometry, id: bytes, code: Code)
      requires Ready(geo, code, id)
      ensures Valid() && !closed && frame == [] && this.geo == geo && this.id == id && this.code == code
    {
      this.geo, this.id, this.code := geo, id, code;
      this.sinks := seq(geo.Width(), i requires 0 <= i < geo.Width() => EncodeShard(HeaderOf(geo, id, i)));
      stripe, written, closed, frame, full := [], 0, false, [], 0;
      new;
      hide MDS;
      assert Filling(geo, code, id, [], [], sinks, 0);
    }

    /** Starts encoding a frame into `shards` sinks, refusing parameters Hamster does not write. */
    static method Create(id: bytes, k: int, m: int, sliceSize: int, frameSize: int, shards: nat, code: Code)
      returns (r: Result<Writer, WriterError>)
      requires |id| == 16 && 0 < sliceSize < TwoTo64 / 2 && frameSize < TwoTo64 / 2
      requires ValidParams(k, m) ==> MDS(code, k, m)
      ensures r.Ok? <==> 1 <= k && 0 <= m && k + m <= 256 && (m == 0 ==> k == 1) && frameSize > 0 && shards == k + m
      ensures r.Ok? ==> fresh(r.value) && r.value.Valid() && !r.value.closed && r.value.frame == []
                        && r.value.geo == Geometry(k, m, sliceSize, frameSize) && r.value.id == id &&
                          r.value.code == code
    {
      if !ValidParams(k, m) {
        return Err(InvalidParams);
      }
      if frameSize <= 0 {
        return Err(EmptyFrame);
      }
      if shards != k + m {
        return Err(SinkCount);
      }
      var w := new Writer.Start(Geometry(k, m, sliceSize, frameSize), id, code);
      r := Ok(w);
    }

    /** Splits the buffered stripe into k slices of length l, computes parity and appends
        slice i to sink i. */
    method EncodeStripe(l: nat)
      requires Ready(geo, code, id) && |sinks| == geo.Width()
      requires |stripe| == At(geo.k, l)
      modifies this`sinks, this`stripe
      ensures stripe == [] && |sinks| == geo.Width()
      ensures |EncodedStripe(code, geo.k, geo.m, old(stripe), l)| == geo.Width()
      ensures forall i :: 0 <= i < geo.Width() ==>
                sinks[i] == old(sinks[i]) + EncodedStripe(code, geo.k, geo.m, old(stripe), l)[i]
    {
      EncodedStripeUniform(code, geo.k, geo.m, stripe, l);
      var slices := EncodedStripe(code, geo.k, geo.m, stripe, l);
      var i := 0;
      while i < geo.Width()
        invariant 0 <= i <= geo.Width() == |sinks|
        invariant forall j :: 0 <= j < i ==> sinks[j] == old(sinks[j]) + slices[j]
        invariant forall j :: i <= j < geo.Width() ==> sinks[j] == old(sinks[j])
      {
        sinks := sinks[i := sinks[i] + slices[i]];
        i := i + 1;
      }
      stripe := [];
    }

    /** Accepts frame bytes, emitting each stripe as it fills. */
    method Write(p: bytes) returns (n: nat, err: Option<WriterError>)
      requires Valid()
      modifies this
      ensures Valid() && closed == old(closed)
      ensures err.None? <==> !old(closed) && old(|frame|) + |p| <= geo.frameSize
      ensures err.None? ==> n == |p| && frame == old(frame) + p
      ensures err.Some? ==> n == 0 && frame == old(frame) && sinks == old(sinks)
    {
      hide MDS, At, Emitted, Geometry.StripeBytes;
      if closed {
        return 0, Some(WriteAfterClose);
      }
      if written + |p| > geo.frameSize {
        return 0, Some(FrameExceeded);
      }
      var rest := p;
      n := 0;
      while rest != []
        invariant n + |rest| == |p| && rest == p[n..]
        invariant Valid() && !closed && frame == old(frame) + p[..n]
        decreases |rest|
      {
        var take := geo.StripeBytes() - |stripe|;
        if take > |rest| {
          take := |rest|;
        }
        assert p[..n] + rest[..take] == p[..n + take];
        Accept(rest[..take]);
        rest := rest[take..];
        n := n + take;
      }
      assert p[..n] == p;
      err := None;
    }

    /** One round of the write loop: bytes that fit the stripe being filled. */
    method Accept(q: bytes)
      requires Valid() && !closed && |frame| + |q| <= geo.frameSize
      requires 0 < |q| <= geo.StripeBytes() - |stripe|
      modifies this
      ensures Valid() && !closed && frame == old(frame) + q
    {
      hide MDS, Emitted, Filling;
      stripe := stripe + q;
      written := written + |q|;
      frame := frame + q;
      if |stripe| == geo.StripeBytes() {
        EncodeStripe(geo.sliceSize);
        FillUp(geo, code, id, old(frame), old(stripe), old(sinks), full, q, sinks);
        full := full + 1;
      } else {
        FillPartly(geo, code, id, old(frame), old(stripe), old(sinks), full, q);
      }
    }

    /** Fills what is left up to k slices with zeros and encodes it. After a successful Close every
        sink holds exactly its reference shard file. */
    method Close() returns (err: Option<WriterError>)
      requires Valid()
      modifies this
      ensures Valid() && closed && frame == old(frame)
      ensures err.None? <==> !old(closed) && |frame| == geo.frameSize
      ensures err.None? ==> forall i :: 0 <= i < geo.Width() ==> sinks[i] == ShardFile(geo, code, id, frame, i)
    {
      hide MDS, Emitted, EncodedStripe, ShardFile;
      if closed {
        return Some(ClosedTwice);
      }
      closed := true;
      if written != geo.frameSize {
        return Some(FrameShort);
      }
      ghost var tail := stripe;
      QuotientIs(geo.frameSize, geo.StripeBytes(), full);
      assert full == geo.FullStripes();
      if |stripe| > 0 {
        LastStripe(geo, frame, tail);
        var l := geo.LastLen();
        PadStripe(geo.k * l);
        ghost var body := stripe;
        EncodeStripe(l);
        FinishShort(geo, code, id, frame, tail, old(sinks), sinks, body);
      } else {
        FinishEven(geo, code, id, frame, stripe, sinks);
      }
      err := None;
    }

    /** Appends zero bytes up to `len`. */
    method PadStripe(len: nat)
      requires |stripe| <= len
      modifies this`stripe
      ensures stripe == old(stripe) + Zeros(len - |old(stripe)|)
    {
      while |stripe| < len
        invariant |old(stripe)| <= |stripe| <= len
        invariant stripe == old(stripe) + Zeros(|stripe| - |old(stripe)|)
      {
        stripe := stripe + [0];
      }
    }

    /** Each shard's digest, header included: the values the metadata records. */
    method Checksums(sha: bytes -> bytes) returns (sums: seq<bytes>)
      requires Valid()
      ensures |sums| == |sinks| && forall i :: 0 <= i < |sums| ==> sums[i] == sha(sinks[i])
    {
      sums := [];
      for i := 0 to |sinks|
        invariant |sums| == i && forall j :: 0 <= j < i ==> sums[j] == sha(sinks[j])
      {
        sums := sums + [sha(sinks[i])];
      }
    }
  }
}
