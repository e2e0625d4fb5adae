/** Reed-Solomon as the library promises it, and the shard files a frame encodes to: the
    reference definition Writer, Reader and Reconstruct are all proved against. */
module EcStripe {
  import opened Bytes
  import opened Arith
  import opened EcGeometry
  import opened EcHeader

  type Slice = bytes

  /** The codec library, uninterpreted: parity of k data slices, and the completion of a
      partial set of k+m slices. */
  datatype Code = Code(parity: (nat, nat, seq<Slice>) -> seq<Slice>,
                       rebuild: (nat, nat, seq<Option<Slice>>) -> seq<Slice>)

  predicate Uniform(slices: seq<Slice>, n: nat, l: nat) {
    |slices| == n && forall i :: 0 <= i < n ==> |slices[i]| == l
  }

  /** `partial` holds some slices of `word`. */
  predicate PartOf(partial: seq<Option<Slice>>, word: seq<Slice>) {
    |partial| == |word| && forall i :: 0 <= i < |word| && partial[i].Some? ==> partial[i].value == word[i]
  }

  function Count<T>(partial: seq<Option<T>>): (n: nat)
    ensures n <= |partial|
  {
    if partial == [] then 0 else Count(partial[..|partial| - 1]) + if partial[|partial| - 1].Some? then 1 else 0
  }

  function Codeword(c: Code, k: nat, m: nat, data: seq<Slice>): seq<Slice> {
    if m == 0 then data else data + c.parity(k, m, data)
  }

  /** The one property assumed of the library at k+m: slices come back in the length
      they went in, and any k slices of an encoded stripe determine the rest. */
  ghost predicate MDS(c: Code, k: nat, m: nat) {
    && (forall data: seq<Slice>, l: nat {:trigger Uniform(data, k, l)} ::
          Uniform(data, k, l) ==> Uniform(c.parity(k, m, data), m, l))
    && (forall data: seq<Slice>, l: nat,
        partial: seq<Option<Slice>> {:trigger Uniform(data, k, l), c.rebuild(k, m, partial)} ::
          Uniform(data, k, l) && PartOf(partial, data + c.parity(k, m, data)) && Count(partial) >= k
          ==> c.rebuild(k, m, partial) == data + c.parity(k, m, data))
    && (forall partial: seq<Option<Slice>>, l: nat {:trigger UniformPart(partial, k + m, l)} ::
          UniformPart(partial, k + m, l) && Count(partial) >= k ==> Uniform(c.rebuild(k, m, partial), k + m, l))
  }

  predicate UniformPart(partial: seq<Option<Slice>>, n: nat, l: nat) {
    |partial| == n && forall i :: 0 <= i < n && partial[i].Some? ==> |partial[i].value| == l
  }

  /** Where slice `i` of length `l` starts. */
  function At(i: nat, l: nat): (n: nat)
    ensures i == 0 ==> n == 0
    ensures i == 1 ==> n == l
  {
    MulNonNegative(i, l);
    i * l
  }

  lemma AtSteps(i: nat, k: nat, l: nat)
    requires i < k
    ensures At(i + 1, l) == At(i, l) + l && At(i + 1, l) <= At(k, l)
  {
    LeMul(i + 1, k, l);
    assert (i + 1) * l == i * l + l;
  }

  /** Cuts the first k*l bytes of `body` into k contiguous slices of length l. */
  function Cut(body: bytes, k: nat, l: nat): (s: seq<Slice>)
    requires |body| == At(k, l)
    ensures Uniform(s, k, l)
  {
    CutBounds(k, l);
    seq(k, i requires 0 <= i < k => body[At(i, l)..At(i + 1, l)])
  }

  lemma CutBounds(k: nat, l: nat)
    ensures forall i {:trigger At(i, l)} :: 0 <= i < k ==> At(i + 1, l) == At(i, l) + l && At(i + 1, l) <= At(k, l)
  {
    forall i {:trigger At(i, l)} | 0 <= i < k
      ensures At(i + 1, l) == At(i, l) + l && At(i + 1, l) <= At(k, l)
    {
      AtSteps(i, k, l);
    }
  }

  function Join(slices: seq<Slice>): bytes {
    if slices == [] then [] else Join(slices[..|slices| - 1]) + slices[|slices| - 1]
  }

  lemma {:induction false} JoinLength(slices: seq<Slice>, n: nat, l: nat)
    requires Uniform(slices, n, l)
    ensures |Join(slices)| == At(n, l)
  {
    hide At;
    if n > 0 {
      JoinLength(slices[..n - 1], n - 1, l);
      AtSteps(n - 1, n, l);
    }
  }

  /** Joining a prefix of the cut gives that prefix of the body. */
  lemma {:induction false} JoinCutPrefix(body: bytes, k: nat, l: nat, n: nat)
    requires |body| == At(k, l) && n <= k
    ensures At(n, l) <= At(k, l) && Join(Cut(body, k, l)[..n]) == body[..At(n, l)]
  {
    hide At;
    if n > 0 {
      JoinCutPrefix(body, k, l, n - 1);
      AtSteps(n - 1, k, l);
      var c := Cut(body, k, l);
      assert c[..n][..n - 1] == c[..n - 1];
      assert body[..At(n - 1, l)] + body[At(n - 1, l)..At(n, l)] == body[..At(n, l)];
    } else if k > 0 {
      AtSteps(0, k, l);
    }
  }

  lemma JoinCut(body: bytes, k: nat, l: nat)
    requires |body| == At(k, l)
    ensures Join(Cut(body, k, l)) == body
  {
    JoinCutPrefix(body, k, l, k);
    assert Cut(body, k, l)[..k] == Cut(body, k, l);
  }

  /** One stripe's k+m slices. */
  function EncodedStripe(c: Code, k: nat, m: nat, body: bytes, l: nat): (s: seq<Slice>)
    requires |body| == At(k, l)
  {
    Codeword(c, k, m, Cut(body, k, l))
  }

  lemma EncodedStripeUniform(c: Code, k: nat, m: nat, body: bytes, l: nat)
    requires |body| == At(k, l) && MDS(c, k, m)
    ensures Uniform(EncodedStripe(c, k, m, body, l), k + m, l)
  {
    var data := Cut(body, k, l);
    assert Uniform(data, k, l);
  }

  /** Stripe `si`'s bytes, zero-padded to k equal slices. */
  function StripeBody(g: Geometry, frame: bytes, si: nat): (b: bytes)
    requires g.Valid() && |frame| == g.frameSize && si < g.Stripes()
    ensures |b| == g.PaddedLen(si)
  {
    StripesTileFrame(g, si);
    Padded(frame, g.StripeStart(si), g.StripeData(si), g.PaddedLen(si))
  }

  function Padded(frame: bytes, start: nat, n: nat, len: nat): (b: bytes)
    requires start + n <= |frame| && n <= len
    ensures |b| == len
  {
    frame[start..start + n] + Zeros(len - n)
  }

  function StripeSlices(g: Geometry, c: Code, frame: bytes, si: nat): (s: seq<Slice>)
    requires g.Valid() && |frame| == g.frameSize && si < g.Stripes()
  {
    PaddedIsAt(g, si);
    EncodedStripe(c, g.k, g.m, StripeBody(g, frame, si), g.StripeSlice(si).0)
  }

  /** The first `n` slices of shard `i`, in stripe order. */
  function Payload(g: Geometry, c: Code, frame: bytes, i: nat, n: nat): (p: bytes)
    requires g.Valid() && |frame| == g.frameSize && n <= g.Stripes() && i < g.Width()
    requires MDS(c, g.k, g.m)
  {
    if n == 0 then []
    else
      StripeSlicesUniform(g, c, frame, n - 1);
      Payload(g, c, frame, i, n - 1) + StripeSlices(g, c, frame, n - 1)[i]
  }

  function HeaderOf(g: Geometry, id: bytes, i: nat): Header {
    Header(id, i, g.k, g.m, g.sliceSize, g.frameSize)
  }

  /** A geometry and address whose headers can be stored. */
  predicate Writable(g: Geometry, id: bytes) {
    g.Valid() && |id| == 16 && g.sliceSize < TwoTo64 / 2 && g.frameSize < TwoTo64 / 2
  }

  /** Shard file `i` of a frame: its front, then one slice per stripe. */
  function ShardFile(g: Geometry, c: Code, id: bytes, frame: bytes, i: nat): (f: bytes)
    requires Writable(g, id) && |frame| == g.frameSize && i < g.Width() && MDS(c, g.k, g.m)
  {
    EncodeShard(HeaderOf(g, id, i)) + Payload(g, c, frame, i, g.Stripes())
  }

  lemma {:induction false} PayloadLength(g: Geometry, c: Code, frame: bytes, i: nat, n: nat)
    requires g.Valid() && |frame| == g.frameSize && n <= g.Stripes() && i < g.Width() && MDS(c, g.k, g.m)
    ensures n < g.Stripes() ==> |Payload(g, c, frame, i, n)| == At(n, g.sliceSize)
    ensures n > 0 ==> |Payload(g, c, frame, i, n)| == At(n - 1, g.sliceSize) + g.StripeSlice(n - 1).0
  {
    hide Geometry.StripeSlice, Geometry.Stripes, At, EncodedStripe, StripeBody, Geometry.PaddedLen, Geometry.StripeData;
    if n > 0 {
      PayloadLength(g, c, frame, i, n - 1);
      StripeSlicesUniform(g, c, frame, n - 1);
      StripesTileFrame(g, n - 1);
      AtSteps(n - 1, n, g.sliceSize);
    }
  }

  /** Reading shard `i` at stripe `si`'s offset and length yields that stripe's slice i. */
  lemma {:induction false} PayloadSlice(g: Geometry, c: Code, frame: bytes, i: nat, n: nat, si: nat)
    requires g.Valid() && |frame| == g.frameSize && si < n <= g.Stripes() && i < g.Width() && MDS(c, g.k, g.m)
    ensures var (l, off) := g.StripeSlice(si);
      && |StripeSlices(g, c, frame, si)| == g.Width()
      && off + l <= |Payload(g, c, frame, i, n)|
      && Payload(g, c, frame, i, n)[off..off + l] == StripeSlices(g, c, frame, si)[i]
    decreases n
  {
    hide Geometry.StripeSlice, Geometry.Stripes, StripeSlices, EncodedStripe, StripeBody, Geometry.PaddedLen,
      Geometry.StripeData;
    var (l, off) := g.StripeSlice(si);
    StripeSlicesUniform(g, c, frame, n - 1);
    StripesTileFrame(g, si);
    if si < n - 1 {
      PayloadSlice(g, c, frame, i, n - 1, si);
      var prior := Payload(g, c, frame, i, n - 1);
      assert Payload(g, c, frame, i, n)[off..off + l] == prior[off..off + l];
    } else {
      PayloadLength(g, c, frame, i, si);
      assert |Payload(g, c, frame, i, si)| == off;
    }
  }

  /** The first StripeData bytes of a stripe's joined data slices are the frame's. */
  lemma StripeDataBytes(g: Geometry, c: Code, frame: bytes, si: nat)
    requires g.Valid() && |frame| == g.frameSize && si < g.Stripes() && MDS(c, g.k, g.m)
    ensures |StripeSlices(g, c, frame, si)| == g.Width()
    ensures g.StripeStart(si) + g.StripeData(si) <= |frame|
    ensures g.StripeData(si) <= |Join(StripeSlices(g, c, frame, si)[..g.k])|
    ensures Join(StripeSlices(g, c, frame, si)[..g.k])[..g.StripeData(si)]
         == frame[g.StripeStart(si)..g.StripeStart(si) + g.StripeData(si)]
  {
    hide Geometry.StripeSlice, Geometry.Stripes, At, Geometry.StripeStart, Geometry.StripeData, Geometry.PaddedLen;
    var l := g.StripeSlice(si).0;
    var body := StripeBody(g, frame, si);
    StripeSlicesUniform(g, c, frame, si);
    PaddedIsAt(g, si);
    assert StripeSlices(g, c, frame, si)[..g.k] == Cut(body, g.k, l);
    JoinCut(body, g.k, l);
    StripesTileFrame(g, si);
  }

  lemma PaddedIsAt(g: Geometry, si: nat)
    requires g.Valid()
    ensures g.PaddedLen(si) == At(g.k, g.StripeSlice(si).0)
  {
  }

  lemma StripeSlicesUniform(g: Geometry, c: Code, frame: bytes, si: nat)
    requires g.Valid() && |frame| == g.frameSize && si < g.Stripes() && MDS(c, g.k, g.m)
    ensures Uniform(StripeSlices(g, c, frame, si), g.Width(), g.StripeSlice(si).0)
  {
    PaddedIsAt(g, si);
    EncodedStripeUniform(c, g.k, g.m, StripeBody(g, frame, si), g.StripeSlice(si).0);
  }

  /** The assumption on the library is met: replication (k = 1) satisfies it at every m. */
  const Replication := Code(CopyParity, CopyRebuild)

  function Copies(s: Slice, n: nat): (c: seq<Slice>)
    ensures |c| == n && forall i :: 0 <= i < n ==> c[i] == s
  {
    seq(n, _ => s)
  }

  function CopyParity(k: nat, m: nat, data: seq<Slice>): seq<Slice> {
    if data == [] then [] else Copies(data[0], m)
  }

  function CopyRebuild(k: nat, m: nat, partial: seq<Option<Slice>>): seq<Slice> {
    Copies(FirstPresent(partial), k + m)
  }

  function FirstPresent(partial: seq<Option<Slice>>): Slice {
    if partial == [] then []
    else if partial[|partial| - 1].Some? then partial[|partial| - 1].value
    else FirstPresent(partial[..|partial| - 1])
  }

  lemma ReplicationIsMDS(m: nat)
    ensures MDS(Replication, 1, m)
  {
    forall data: seq<Slice>, l: nat, partial: seq<Option<Slice>>
      | Uniform(data, 1, l) && PartOf(partial, data + CopyParity(1, m, data)) && Count(partial) >= 1
      ensures CopyRebuild(1, m, partial) == data + CopyParity(1, m, data)
    {
      FirstPresentOf(partial, data[0]);
    }
    forall partial: seq<Option<Slice>>, l: nat {:trigger UniformPart(partial, 1 + m, l)}
      | UniformPart(partial, 1 + m, l) && Count(partial) >= 1
      ensures Uniform(CopyRebuild(1, m, partial), 1 + m, l)
    {
      FirstPresentLength(partial, l);
    }
  }

  lemma {:induction false} FirstPresentLength(partial: seq<Option<Slice>>, l: nat)
    requires UniformPart(partial, |partial|, l) && Count(partial) >= 1
    ensures |FirstPresent(partial)| == l
  {
    if partial[|partial| - 1].None? {
      FirstPresentLength(partial[..|partial| - 1], l);
    }
  }

  lemma {:induction false} FirstPresentOf(partial: seq<Option<Slice>>, s: Slice)
    requires forall i :: 0 <= i < |partial| && partial[i].Some? ==> partial[i].value == s
    requires Count(partial) >= 1
    ensures FirstPresent(partial) == s
  {
    if partial[|partial| - 1].None? {
      FirstPresentOf(partial[..|partial| - 1], s);
    }
  }

  /** And so does a single parity shard at every k: each column of bytes sums to zero. */
  const Zeroing := Code(ZeroParity, ZeroRebuild)

  /** Column `j` of the slices that are there, added up. */
  function Column(partial: seq<Option<Slice>>, j: nat): (n: nat) {
    if partial == [] then 0
    else
      var last := partial[|partial| - 1];
      Column(partial[..|partial| - 1], j) + if last.Some? && j < |last.value| then last.value[j] as nat else 0
  }

  /** The slice that brings every column to zero modulo 256. */
  function Balance(partial: seq<Option<Slice>>, l: nat): (s: Slice)
    ensures |s| == l && forall j :: 0 <= j < l ==> s[j] as int == (256 - Column(partial, j) % 256) % 256
  {
    seq(l, j requires 0 <= j < l => ((256 - Column(partial, j) % 256) % 256) as byte)
  }

  function Present(data: seq<Slice>): (p: seq<Option<Slice>>)
    ensures |p| == |data| && forall i :: 0 <= i < |p| ==> p[i] == Some(data[i])
  {
    seq(|data|, i requires 0 <= i < |data| => Some(data[i]))
  }

  function ZeroParity(k: nat, m: nat, data: seq<Slice>): seq<Slice> {
    if data == [] then [] else [Balance(Present(data), |data[0]|)]
  }

  function ZeroRebuild(k: nat, m: nat, partial: seq<Option<Slice>>): (s: seq<Slice>)
    ensures |s| == |partial|
  {
    var l := |FirstPresent(partial)|;
    seq(|partial|, i requires 0 <= i < |partial| => if partial[i].Some? then partial[i].value else Balance(partial, l))
  }

  /** What one missing slice leaves of a column. */
  lemma {:induction false} ColumnLacks(partial: seq<Option<Slice>>, word: seq<Slice>, x: nat, j: nat)
    requires PartOf(partial, word) && x < |word| && partial[x].None? && j < |word[x]|
    requires forall i :: 0 <= i < |word| && i != x ==> partial[i].Some?
    ensures Column(partial, j) + word[x][j] as nat == Column(Present(word), j)
  {
    var n := |word| - 1;
    assert Present(word)[..n] == Present(word[..n]);
    if x == n {
      assert partial[..n] == Present(word[..n]);
    } else {
      ColumnLacks(partial[..n], word[..n], x, j);
    }
  }

  /** Every column of a codeword sums to zero. */
  lemma CodewordBalances(data: seq<Slice>, k: nat, l: nat, j: nat)
    requires k > 0 && Uniform(data, k, l) && j < l
    ensures Column(Present(data + ZeroParity(k, 1, data)), j) % 256 == 0
  {
    var word := data + ZeroParity(k, 1, data);
    assert Present(word)[..k] == Present(data);
  }

  /** A full count leaves nothing out, one less leaves out one. */
  lemma {:induction false} OneMissing(partial: seq<Option<Slice>>) returns (x: nat)
    requires Count(partial) >= |partial| - 1
    ensures x <= |partial| && forall i :: 0 <= i < |partial| && i != x ==> partial[i].Some?
    ensures x < |partial| ==> partial[x].None?
    ensures Count(partial) == |partial| ==> x == |partial|
  {
    if partial == [] {
      x := 0;
    } else {
      var n := |partial| - 1;
      if partial[n].None? {
        var y := OneMissing(partial[..n]);
        x := n;
      } else {
        var y := OneMissing(partial[..n]);
        x := if y == n then n + 1 else y;
      }
    }
  }

  lemma RebuildsMissing(data: seq<Slice>, k: nat, l: nat, partial: seq<Option<Slice>>)
    requires k > 0 && Uniform(data, k, l) && PartOf(partial, data + ZeroParity(k, 1, data)) && Count(partial) >= k
    ensures ZeroRebuild(k, 1, partial) == data + ZeroParity(k, 1, data)
  {
    var word := data + ZeroParity(k, 1, data);
    var x := OneMissing(partial);
    FirstPresentLength(partial, l);
    var got := ZeroRebuild(k, 1, partial);
    if x < |word| {
      forall j | 0 <= j < l
        ensures got[x][j] == word[x][j]
      {
        ColumnLacks(partial, word, x, j);
        CodewordBalances(data, k, l, j);
        Negates(Column(partial, j), word[x][j] as nat);
      }
      assert got[x] == word[x];
    }
    assert forall i :: 0 <= i < |word| ==> got[i] == word[i];
  }

  lemma Negates(a: nat, b: nat)
    requires b < 256 && (a + b) % 256 == 0
    ensures (256 - a % 256) % 256 == b
  {
  }

  lemma ZeroingIsMDS(k: nat)
    requires k > 0
    ensures MDS(Zeroing, k, 1)
  {
    forall data: seq<Slice>, l: nat, partial: seq<Option<Slice>>
      | Uniform(data, k, l) && PartOf(partial, data + ZeroParity(k, 1, data)) && Count(partial) >= k
      ensures ZeroRebuild(k, 1, partial) == data + ZeroParity(k, 1, data)
    {
      RebuildsMissing(data, k, l, partial);
    }
    forall partial: seq<Option<Slice>>, l: nat {:trigger UniformPart(partial, k + 1, l)}
      | UniformPart(partial, k + 1, l) && Count(partial) >= k
      ensures Uniform(ZeroRebuild(k, 1, partial), k + 1, l)
    {
      FirstPresentLength(partial, l);
    }
  }
}
