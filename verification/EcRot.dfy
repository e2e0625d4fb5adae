/** What one changed byte of a data shard does to what is read: the shard still opens, because only
    its header is checked, and the frame read differs exactly when the byte was not padding. */
module EcRot {
  import opened Bytes
  import opened Arith
  import opened EcGeometry
  import opened EcHeader
  import opened EcStripe
  import opened EcReader
  import opened EcReconstruct

  /** A byte of a data shard's payload: which shard, which stripe, where in the slice. */
  datatype Place = Place(shard: nat, stripe: nat, at: nat)

  predicate InPayload(g: Geometry, p: Place)
    requires g.Valid()
  {
    p.shard < g.k && p.stripe < g.Stripes() && p.at < g.StripeSlice(p.stripe).0
  }

  /** Where the byte falls in its stripe's data. */
  function InStripe(g: Geometry, p: Place): nat
    requires g.Valid()
  {
    At(p.shard, g.StripeSlice(p.stripe).0) + p.at
  }

  /** The last stripe is filled up to k equal slices with bytes no frame has. */
  predicate Padding(g: Geometry, p: Place)
    requires g.Valid()
  {
    InStripe(g, p) >= g.StripeData(p.stripe)
  }

  /** Where the byte is in its shard's file. */
  function InFile(v: View, p: Place): int
    requires v.geo.Valid() && p.shard < |v.offs|
  {
    v.offs[p.shard] + v.geo.StripeSlice(p.stripe).1 + p.at
  }

  ghost predicate Rottable(v: View, frame: bytes, p: Place) {
    Genuine(v, frame) && AllDataPresent(v) && InPayload(v.geo, p)
  }

  lemma PlaceInFile(v: View, frame: bytes, p: Place)
    requires Rottable(v, frame, p)
    ensures v.shards[p.shard].Some? && 0 <= v.offs[p.shard] <= InFile(v, p) < |v.shards[p.shard].value|
    ensures SliceAt(v, p.shard, p.stripe).Some?
  {
    hide MDS, DecodeShard, ShardFile, Count, StripeSlices;
    GenuineSlice(v, frame, p.shard, p.stripe);
  }

  ghost function Rotted(v: View, frame: bytes, p: Place, b: byte): View
    requires Rottable(v, frame, p)
  {
    PlaceInFile(v, frame, p);
    v.(shards := v.shards[p.shard := Some(v.shards[p.shard].value[InFile(v, p) := b])])
  }

  /** Rot past the header is not seen on opening. */
  lemma StillOpens(v: View, frame: bytes, p: Place, b: byte)
    requires Rottable(v, frame, p)
    ensures Opened(Rotted(v, frame, p, b))
  {
    hide MDS, DecodeShard, Payload, EncodeShard, Count;
    var g, i := v.geo, p.shard;
    var h := HeaderOf(g, v.id, i);
    var front, body := EncodeShard(h), Payload(g, v.code, frame, i, g.Stripes());
    ShardFrontRoundTrip(h, body);
    PlaceInFile(v, frame, p);
    var w := Rotted(v, frame, p, b);
    var x := InFile(v, p) - |front|;
    assert v.shards[i].value == front + body;
    assert w.shards[i].value == front + body[x := b];
    ShardFrontRoundTrip(h, body[x := b]);
    SameCount(v.shards, w.shards);
  }

  lemma {:induction false} SameCount<T>(a: seq<Option<T>>, b: seq<Option<T>>)
    requires |a| == |b| && forall i :: 0 <= i < |a| ==> a[i].Some? == b[i].Some?
    ensures Count(a) == Count(b)
  {
    if a != [] {
      SameCount(a[..|a| - 1], b[..|b| - 1]);
    }
  }

  /** Only the slice the byte is in reads differently. */
  lemma SliceRots(v: View, frame: bytes, p: Place, b: byte, j: nat, sj: nat)
    requires Rottable(v, frame, p) && j < v.geo.k && sj < v.geo.Stripes()
    ensures var w := Rotted(v, frame, p, b);
      && v.shards[j].Some? && w.shards[j].Some? && v.offs[j] >= 0 && SliceAt(v, j, sj).Some?
      && SliceAt(w, j, sj) ==
         if j == p.shard && sj == p.stripe then Some(SliceAt(v, j, sj).value[p.at := b]) else SliceAt(v, j, sj)
  {
    hide MDS, DecodeShard, ShardFile, Count, StripeSlices, Agree;
    GenuineSlice(v, frame, j, sj);
    PlaceInFile(v, frame, p);
    if j == p.shard {
      var (l, off) := v.geo.StripeSlice(sj);
      SliceOfUpdated(v.shards[j].value, InFile(v, p), b, v.offs[j] + off, l);
      if sj != p.stripe {
        SlicesApart(v.geo, p, sj);
      }
    }
  }

  lemma SliceOfUpdated(s: bytes, x: nat, b: byte, from: nat, l: nat)
    requires x < |s| && from + l <= |s|
    ensures s[x := b][from..from + l] ==
      if from <= x < from + l then s[from..from + l][x - from := b] else s[from..from + l]
  {
  }

  lemma SlicesApart(g: Geometry, p: Place, sj: nat)
    requires g.Valid() && InPayload(g, p) && sj < g.Stripes() && sj != p.stripe
    ensures var x := g.StripeSlice(p.stripe).1 + p.at; var (l, off) := g.StripeSlice(sj); x < off || off + l <= x
  {
    hide Geometry.StripeSlice, Geometry.Stripes, Geometry.StripeData, Geometry.PaddedLen, Geometry.StripeStart;
    StripesTileFrame(g, p.stripe);
    StripesTileFrame(g, sj);
    if sj < p.stripe {
      LeMul(sj + 1, p.stripe, g.sliceSize);
      assert (sj + 1) * g.sliceSize == sj * g.sliceSize + g.sliceSize;
    } else {
      LeMul(p.stripe + 1, sj, g.sliceSize);
      assert (p.stripe + 1) * g.sliceSize == p.stripe * g.sliceSize + g.sliceSize;
    }
  }

  lemma {:induction false} DirectRots(v: View, frame: bytes, p: Place, b: byte, sj: nat, n: nat)
    requires Rottable(v, frame, p) && sj < v.geo.Stripes() && n <= v.geo.k && Opened(Rotted(v, frame, p, b))
    ensures n <= |v.shards| && forall i :: 0 <= i < n ==> v.shards[i].Some?
    ensures var was, now := Direct(v, sj, n), Direct(Rotted(v, frame, p, b), sj, n);
      && was.Some? && now.Some? && |was.value| == n
      && now.value == if sj == p.stripe && p.shard < n then was.value[p.shard := was.value[p.shard][p.at := b]]
        else was.value
  {
    hide MDS, DecodeShard, ShardFile, Count, SliceAt, Rotted, Geometry.StripeSlice, Geometry.Stripes;
    if n > 0 {
      DirectRots(v, frame, p, b, sj, n - 1);
      SliceRots(v, frame, p, b, n - 1, sj);
    }
  }

  /** Changing one byte of one slice changes one byte of the joined data. */
  lemma {:induction false} JoinRots(slices: seq<Slice>, n: nat, l: nat, i: nat, at: nat, b: byte)
    requires Uniform(slices, n, l) && i < n && at < l
    ensures At(i, l) + at < |Join(slices)|
    ensures Join(slices[i := slices[i][at := b]]) == Join(slices)[At(i, l) + at := b]
  {
    hide At;
    var now := slices[i := slices[i][at := b]];
    var front := slices[..n - 1];
    JoinLength(front, n - 1, l);
    AtSteps(n - 1, n, l);
    JoinLength(slices, n, l);
    if i == n - 1 {
      assert now[..n - 1] == front;
    } else {
      JoinRots(front, n - 1, l, i, at, b);
      assert now[..n - 1] == front[i := front[i][at := b]];
    }
  }

  /** The frame the rotted set reads as. */
  function RottedFrame(g: Geometry, frame: bytes, p: Place, b: byte): (held: bytes)
    requires g.Valid() && InPayload(g, p) && |frame| == g.frameSize
    ensures |held| == |frame|
  {
    StripesTileFrame(g, p.stripe);
    if Padding(g, p) then frame else frame[g.StripeStart(p.stripe) + InStripe(g, p) := b]
  }

  /** One stripe's bytes after the rot. */
  function RottedStripe(g: Geometry, data: bytes, p: Place, b: byte, sj: nat): bytes
    requires g.Valid() && sj < g.Stripes() && |data| == g.StripeData(sj)
  {
    if sj == p.stripe && !Padding(g, p) then data[InStripe(g, p) := b] else data
  }

  lemma ReadsDirectly(v: View, si: nat)
    requires Opened(v) && AllDataPresent(v) && si < v.geo.Stripes()
    ensures (forall i :: 0 <= i < v.geo.k ==> v.shards[i].Some?) && DataSlices(v, si) == Direct(v, si, v.geo.k)
  {
    hide MDS, DecodeShard, Count, Direct;
  }

  lemma CutShort(joined: bytes, n: nat, x: nat, b: byte)
    requires n <= |joined| && x < |joined|
    ensures joined[x := b][..n] == if x < n then joined[..n][x := b] else joined[..n]
  {
  }

  lemma StripeRots(v: View, frame: bytes, p: Place, b: byte, sj: nat)
    requires Rottable(v, frame, p) && sj < v.geo.Stripes() && Opened(Rotted(v, frame, p, b))
    ensures StripeOf(v, sj).Some?
    ensures StripeOf(Rotted(v, frame, p, b), sj) == Some(RottedStripe(v.geo, StripeOf(v, sj).value, p, b, sj))
  {
    hide MDS, DecodeShard, ShardFile, Count, StripeSlices, Direct, Join, At, DataSlices, Agree;
    hide Geometry.StripeStart, Geometry.StripeSlice, Geometry.StripeData, Geometry.Stripes;
    var g, w := v.geo, Rotted(v, frame, p, b);
    DirectRots(v, frame, p, b, sj, g.k);
    ReadsDirectly(v, sj);
    ReadsDirectly(w, sj);
    var was := Direct(v, sj, g.k).value;
    JoinFits(g, was, sj);
    if sj == p.stripe {
      JoinRots(was, g.k, g.StripeSlice(sj).0, p.shard, p.at, b);
      CutShort(Join(was), g.StripeData(sj), InStripe(g, p), b);
    }
  }

  /** The same change seen in the frame. */
  lemma FrameRots(g: Geometry, frame: bytes, p: Place, b: byte, sj: nat)
    requires g.Valid() && InPayload(g, p) && |frame| == g.frameSize && sj < g.Stripes()
    ensures var from, to := g.StripeStart(sj), g.StripeStart(sj) + g.StripeData(sj);
      && to <= |frame|
      && RottedFrame(g, frame, p, b)[from..to] == RottedStripe(g, frame[from..to], p, b, sj)
  {
    hide Geometry.StripeStart, Geometry.StripeSlice, Geometry.StripeData, Geometry.Stripes, InStripe;
    var from, to := g.StripeStart(sj), g.StripeStart(sj) + g.StripeData(sj);
    StripesTileFrame(g, sj);
    StripesTileFrame(g, p.stripe);
    if sj != p.stripe {
      StripesApart(g, p.stripe, sj);
    }
  }

  lemma StripesApart(g: Geometry, a: nat, c: nat)
    requires g.Valid() && a < g.Stripes() && c < g.Stripes() && a != c
    ensures g.StripeStart(a) + g.StripeData(a) <= g.StripeStart(c) ||
      g.StripeStart(c) + g.StripeData(c) <= g.StripeStart(a)
  {
    hide Geometry.StripeData, Geometry.Stripes;
    StripeFits(g, a);
    StripeFits(g, c);
    var sb := g.StripeBytes();
    if a < c {
      LeMul(a + 1, c, sb);
      assert (a + 1) * sb == a * sb + sb;
    } else {
      LeMul(c + 1, a, sb);
      assert (c + 1) * sb == c * sb + sb;
    }
  }

  lemma SameView(v: View, frame: bytes, p: Place, b: byte)
    requires Rottable(v, frame, p)
    ensures Rotted(v, frame, p, b).geo == v.geo && |RottedFrame(v.geo, frame, p, b)| == |frame| == v.geo.frameSize
  {
    hide MDS, DecodeShard, ShardFile, Count, Agree;
  }

  lemma RottedReads(v: View, frame: bytes, p: Place, b: byte)
    requires Rottable(v, frame, p)
    ensures Reads(Rotted(v, frame, p, b), RottedFrame(v.geo, frame, p, b))
  {
    hide Opened, StripeOf, Geometry.StripeStart, Geometry.StripeData, Geometry.Stripes, Rotted, RottedFrame;
    StillOpens(v, frame, p, b);
    SameView(v, frame, p, b);
    forall sj: nat | sj < v.geo.Stripes()
      ensures StripeReads(Rotted(v, frame, p, b), RottedFrame(v.geo, frame, p, b), sj)
    {
      StripeRots(v, frame, p, b, sj);
      FrameRots(v.geo, frame, p, b, sj);
      AnyKShardsReadStripe(v, frame, sj);
    }
  }

  lemma JoinByte(slices: seq<Slice>, n: nat, l: nat, i: nat, at: nat)
    requires Uniform(slices, n, l) && i < n && at < l
    ensures At(i, l) + at < |Join(slices)| && Join(slices)[At(i, l) + at] == slices[i][at]
  {
    hide At, Join;
    JoinRots(slices, n, l, i, at, slices[i][at]);
    assert slices[i][at := slices[i][at]] == slices[i];
    assert slices[i := slices[i]] == slices;
  }

  lemma {:induction false} DirectAt(v: View, si: nat, n: nat, i: nat)
    requires Opened(v) && i < n <= |v.shards| && (forall j :: 0 <= j < n ==> v.shards[j].Some?) &&
      Direct(v, si, n).Some?
    ensures v.offs[i] >= 0 && SliceAt(v, i, si).Some? && Direct(v, si, n).value[i] == SliceAt(v, i, si).value
    decreases n
  {
    hide MDS, DecodeShard, Count, SliceAt, Geometry.StripeSlice;
    if i < n - 1 {
      DirectAt(v, si, n - 1, i);
    }
  }

  /** Outside the padding, a file's byte is the frame's. */
  lemma FileByte(v: View, frame: bytes, p: Place)
    requires Rottable(v, frame, p) && !Padding(v.geo, p)
    ensures v.geo.StripeStart(p.stripe) + InStripe(v.geo, p) < |frame|
    ensures v.shards[p.shard].Some? && 0 <= InFile(v, p) < |v.shards[p.shard].value|
    ensures v.shards[p.shard].value[InFile(v, p)] == frame[v.geo.StripeStart(p.stripe) + InStripe(v.geo, p)]
  {
    hide MDS, DecodeShard, ShardFile, Count, StripeSlices, Direct, Join, DataSlices, Agree, At;
    hide Geometry.StripeStart, Geometry.StripeData, Geometry.Stripes;
    var g, si := v.geo, p.stripe;
    PlaceInFile(v, frame, p);
    ReadsDirectly(v, si);
    AnyKShardsReadStripe(v, frame, si);
    var was := Direct(v, si, g.k).value;
    DirectAt(v, si, g.k, p.shard);
    JoinByte(was, g.k, g.StripeSlice(si).0, p.shard, p.at);
    var from := g.StripeStart(si);
    assert frame[from..from + g.StripeData(si)][InStripe(g, p)] == frame[from + InStripe(g, p)];
  }

  /** One byte of a data shard, changed: the set still opens and reads, and the frame it reads as is
      the recorded one exactly when the byte was padding. */
  lemma RottedByteExactly(v: View, frame: bytes, p: Place, b: byte)
    requires Rottable(v, frame, p) && Rotted(v, frame, p, b) != v
    ensures Reads(Rotted(v, frame, p, b), RottedFrame(v.geo, frame, p, b))
    ensures RottedFrame(v.geo, frame, p, b) == frame <==> Padding(v.geo, p)
  {
    RottedReads(v, frame, p, b);
    if !Padding(v.geo, p) {
      NewByte(v, frame, p, b);
    }
  }

  lemma SameByteSameView(v: View, frame: bytes, p: Place, b: byte)
    requires Rottable(v, frame, p)
    requires (PlaceInFile(v, frame, p); v.shards[p.shard].value[InFile(v, p)] == b)
    ensures Rotted(v, frame, p, b) == v
  {
    hide MDS, DecodeShard, ShardFile, Count, Agree, InFile;
    PlaceInFile(v, frame, p);
    var file, x := v.shards[p.shard].value, InFile(v, p);
    assert file[x := b] == file;
    assert v.shards[p.shard := Some(file)] == v.shards;
  }

  lemma NewByte(v: View, frame: bytes, p: Place, b: byte)
    requires Rottable(v, frame, p) && !Padding(v.geo, p) && Rotted(v, frame, p, b) != v
    ensures RottedFrame(v.geo, frame, p, b) != frame
  {
    hide MDS, DecodeShard, ShardFile, Count, Agree;
    hide Geometry.StripeStart, Geometry.StripeData, Geometry.Stripes, InStripe, InFile, Padding, Rotted;
    FileByte(v, frame, p);
    if v.shards[p.shard].value[InFile(v, p)] == b {
      SameByteSameView(v, frame, p, b);
    }
  }

  /** Both happen: three bytes over two data shards and a parity shard leave one byte of padding. */
  lemma RotHappens(id: bytes, frame: bytes) returns (v: View)
    requires |id| == 16 && |frame| == 3
    ensures Rottable(v, frame, Place(0, 0, 0)) && !Padding(v.geo, Place(0, 0, 0))
    ensures Rottable(v, frame, Place(1, 0, 1)) && Padding(v.geo, Place(1, 0, 1))
  {
    hide MDS, DecodeShard, EncodeShard, Payload;
    var g := Geometry(2, 1, 4, 3);
    ZeroingIsMDS(2);
    var a, b := ShardFile(g, Zeroing, id, frame, 0), ShardFile(g, Zeroing, id, frame, 1);
    var shards := [Some(a), Some(b), None];
    assert WrittenBy(shards, g, Zeroing, id, frame);
    TwoPresent(a, b);
    v := WrittenOpens(shards, g, Zeroing, id, frame);
    ShortStripe(g);
  }

  lemma TwoPresent(a: bytes, b: bytes)
    ensures Count([Some(a), Some(b), None]) == 2
  {
    hide Count;
    var none: seq<Option<bytes>> := [];
    NoneCounted();
    CountAppend(none, Some(a));
    CountAppend(none + [Some(a)], Some(b));
    CountAppend(none + [Some(a)] + [Some(b)], None);
    assert none + [Some(a)] + [Some(b)] + [None] == [Some(a), Some(b), None];
  }

  lemma NoneCounted()
    ensures Count<bytes>([]) == 0
  {
  }

  lemma ShortStripe(g: Geometry)
    requires g == Geometry(2, 1, 4, 3)
    ensures g.Stripes() == 1 && g.StripeSlice(0).0 == 2 && g.StripeData(0) == 3
  {
  }
}
