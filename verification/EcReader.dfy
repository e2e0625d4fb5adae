/** Reading a frame back from any k of its shards, with the one-stripe cache. */
module EcReader {
  import opened Bytes
  import opened Arith
  import opened EcGeometry
  import opened EcHeader
  import opened EcStripe

  datatype OpenError =
    | BadShard(index: nat, error: HeaderError) | Misplaced(index: nat) | SlotCount | MixedSets(index: nat) | NoShards
    | TooFew

  datatype ReadError = NegativeOffset | ShortShard | EndOfFrame

  /** An opened shard set: what every present header agreed on and where each payload
      starts (-1 when the shard is absent). */
  datatype View = View(shards: seq<Option<bytes>>, geo: Geometry, id: bytes, offs: seq<int>, code: Code)

  /** Every present shard sits at its own index and describes the same object. */
  predicate Agree(shards: seq<Option<bytes>>, g: Geometry, id: bytes) {
    && |shards| == g.Width()
    && forall i :: 0 <= i < |shards| && shards[i].Some? ==>
         var d := DecodeShard(shards[i].value);
         d.Ok? && d.value.0 == HeaderOf(g, id, i)
  }

  /** Agree, for the slots below `n` and a set of the right width. */
  predicate AgreeBelow(shards: seq<Option<bytes>>, g: Geometry, id: bytes, n: nat)
    requires n <= |shards|
  {
    && |shards| == g.Width()
    && forall i :: 0 <= i < n && shards[i].Some? ==>
         var d := DecodeShard(shards[i].value);
         d.Ok? && d.value.0 == HeaderOf(g, id, i)
  }

  predicate OffsetsBelow(shards: seq<Option<bytes>>, offs: seq<int>, n: nat)
    requires n <= |shards| == |offs|
  {
    && (forall i :: 0 <= i < n && shards[i].Some? ==>
          var d := DecodeShard(shards[i].value);
          d.Ok? && offs[i] == d.value.1)
    && forall i :: 0 <= i < |shards| && (i >= n || shards[i].None?) ==> offs[i] == -1
  }

  function Absent(n: nat): (offs: seq<int>)
    ensures |offs| == n && forall i :: 0 <= i < n ==> offs[i] == -1
  {
    seq(n, _ => -1)
  }

  ghost predicate CorrectLibrary(code: Code) {
    forall k: nat, m: nat {:trigger ValidParams(k, m)} :: ValidParams(k, m) ==> MDS(code, k, m)
  }

  ghost predicate Opened(v: View) {
    && v.geo.Valid() && MDS(v.code, v.geo.k, v.geo.m)
    && Agree(v.shards, v.geo, v.id) && Count(v.shards) >= v.geo.k && |v.offs| == |v.shards|
    && forall i :: 0 <= i < |v.shards| ==>
         if v.shards[i].Some? then v.offs[i] == DecodeShard(v.shards[i].value).value.1 else v.offs[i] == -1
  }

  /** The present shards are the ones Writer produced for `frame`. */
  ghost predicate Genuine(v: View, frame: bytes) {
    && Opened(v) && Writable(v.geo, v.id) && |frame| == v.geo.frameSize
    && forall i :: 0 <= i < |v.shards| && v.shards[i].Some? ==>
         v.shards[i].value == ShardFile(v.geo, v.code, v.id, frame, i)
  }

  // ---- one stripe ----

  /** Shard `i`'s slice of stripe `si`, or None when the file is too short. */
  function SliceAt(v: View, i: nat, si: nat): (s: Option<Slice>)
    requires v.geo.Valid() && i < |v.shards| == |v.offs| && v.shards[i].Some? && v.offs[i] >= 0
    ensures s.Some? ==> |s.value| == v.geo.StripeSlice(si).0
  {
    var (l, off) := v.geo.StripeSlice(si);
    var start := v.offs[i] + off;
    if start + l <= |v.shards[i].value| then Some(v.shards[i].value[start..start + l]) else None
  }

  /** The first `n` shards' slices, read one after another. */
  ghost function Direct(v: View, si: nat, n: nat): (r: Option<seq<Slice>>)
    requires Opened(v) && n <= |v.shards| && forall i :: 0 <= i < n ==> v.shards[i].Some?
    ensures r.Some? ==> Uniform(r.value, n, v.geo.StripeSlice(si).0)
  {
    if n == 0 then Some([])
    else
      var prior := Direct(v, si, n - 1);
      if prior.None? then None
      else
        var s := SliceAt(v, n - 1, si);
        if s.None? then None else Some(prior.value + [s.value])
  }

  /** The slices gathered from shards below `n`: the first k present ones. */
  ghost function Gather(v: View, si: nat, n: nat): (r: Option<seq<Option<Slice>>>)
    requires Opened(v) && n <= |v.shards|
    ensures r.Some? ==> UniformPart(r.value, n, v.geo.StripeSlice(si).0)
    ensures r.Some? ==> Count(r.value) == if Count(v.shards[..n]) < v.geo.k then Count(v.shards[..n]) else v.geo.k
  {
    if n == 0 then Some([])
    else
      var prior := Gather(v, si, n - 1);
      PrefixCount(v.shards, n);
      if prior.None? then None
      else if v.offs[n - 1] < 0 || Count(prior.value) == v.geo.k then
        CountAppend(prior.value, None);
        Some(prior.value + [None])
      else
        var s := SliceAt(v, n - 1, si);
        CountAppend(prior.value, s);
        if s.None? then None else Some(prior.value + [s])
  }

  predicate AllDataPresent(v: View)
    requires v.geo.Valid() && |v.offs| == v.geo.Width()
  {
    forall i :: 0 <= i < v.geo.k ==> v.offs[i] >= 0
  }

  /** The k data slices of stripe `si` as the present shards determine them. */
  ghost function DataSlices(v: View, si: nat): (r: Option<seq<Slice>>)
    requires Opened(v)
    ensures r.Some? ==> Uniform(r.value, v.geo.k, v.geo.StripeSlice(si).0)
  {
    if AllDataPresent(v) then Direct(v, si, v.geo.k)
    else
      var partial := Gather(v, si, |v.shards|);
      assert v.shards[..|v.shards|] == v.shards;
      if partial.None? then None
      else
        assert UniformPart(partial.value, v.geo.k + v.geo.m, v.geo.StripeSlice(si).0);
        Some(v.code.rebuild(v.geo.k, v.geo.m, partial.value)[..v.geo.k])
  }

  /** Stripe `si`'s frame bytes as read from the shard set. */
  ghost function StripeOf(v: View, si: nat): (r: Option<bytes>)
    requires Opened(v) && si < v.geo.Stripes()
    ensures r.Some? ==> |r.value| == v.geo.StripeData(si)
  {
    var d := DataSlices(v, si);
    if d.None? then None
    else
      JoinFits(v.geo, d.value, si);
      Some(Join(d.value)[..v.geo.StripeData(si)])
  }

  lemma JoinFits(g: Geometry, slices: seq<Slice>, si: nat)
    requires g.Valid() && si < g.Stripes() && Uniform(slices, g.k, g.StripeSlice(si).0)
    ensures g.StripeData(si) <= |Join(slices)|
  {
    StripesTileFrame(g, si);
    PaddedIsAt(g, si);
    JoinLength(slices, g.k, g.StripeSlice(si).0);
  }

  // ---- genuine shards read back the frame ----

  lemma GenuineSlice(v: View, frame: bytes, i: nat, si: nat)
    requires Genuine(v, frame) && i < |v.shards| && v.shards[i].Some? && si < v.geo.Stripes()
    ensures |StripeSlices(v.geo, v.code, frame, si)| == v.geo.Width()
    ensures SliceAt(v, i, si) == Some(StripeSlices(v.geo, v.code, frame, si)[i])
  {
    hide MDS, Payload, EncodeShard, DecodeShard, StripeSlices, Count;
    var g := v.geo;
    var (l, off) := g.StripeSlice(si);
    var p := Payload(g, v.code, frame, i, g.Stripes());
    var front := EncodeShard(HeaderOf(g, v.id, i));
    ShardFrontRoundTrip(HeaderOf(g, v.id, i), p);
    PayloadSlice(g, v.code, frame, i, g.Stripes(), si);
    assert v.shards[i].value == front + p;
    assert (front + p)[|front| + off..|front| + off + l] == p[off..off + l];
  }

  lemma {:induction false} DirectGenuine(v: View, frame: bytes, si: nat, n: nat)
    requires Genuine(v, frame) && si < v.geo.Stripes()
    requires n <= |v.shards| && forall i :: 0 <= i < n ==> v.shards[i].Some?
    ensures |StripeSlices(v.geo, v.code, frame, si)| == v.geo.Width()
    ensures Direct(v, si, n) == Some(StripeSlices(v.geo, v.code, frame, si)[..n])
  {
    hide MDS, SliceAt, StripeSlices, Geometry.StripeSlice, Count, Geometry.Stripes, DecodeShard, ShardFile;
    StripeSlicesUniform(v.geo, v.code, frame, si);
    var word := StripeSlices(v.geo, v.code, frame, si);
    if n > 0 {
      DirectGenuine(v, frame, si, n - 1);
      GenuineSlice(v, frame, n - 1, si);
      assert word[..n - 1] + [word[n - 1]] == word[..n];
    }
  }

  lemma {:induction false} GatherGenuine(v: View, frame: bytes, si: nat, n: nat)
    requires Genuine(v, frame) && si < v.geo.Stripes() && n <= |v.shards|
    ensures |StripeSlices(v.geo, v.code, frame, si)| == v.geo.Width()
    ensures Gather(v, si, n).Some? && PartOf(Gather(v, si, n).value, StripeSlices(v.geo, v.code, frame, si)[..n])
  {
    hide MDS, SliceAt, StripeSlices, Geometry.StripeSlice, Count, Geometry.Stripes, DecodeShard, ShardFile;
    StripeSlicesUniform(v.geo, v.code, frame, si);
    var word := StripeSlices(v.geo, v.code, frame, si);
    if n > 0 {
      GatherGenuine(v, frame, si, n - 1);
      assert word[..n - 1] + [word[n - 1]] == word[..n];
      if v.shards[n - 1].Some? {
        GenuineSlice(v, frame, n - 1, si);
      }
    }
  }

  /** Any k genuine shards determine every stripe of the frame: the erasure promise. */
  lemma AnyKShardsReadStripe(v: View, frame: bytes, si: nat)
    requires Genuine(v, frame) && si < v.geo.Stripes()
    ensures v.geo.StripeStart(si) + v.geo.StripeData(si) <= |frame|
    ensures StripeOf(v, si) == Some(frame[v.geo.StripeStart(si)..v.geo.StripeStart(si) + v.geo.StripeData(si)])
  {
    hide MDS, StripeSlices, DataSlices, DecodeShard, Count, Geometry.StripeStart, Geometry.StripeData,
      Geometry.Stripes, Geometry.StripeSlice;
    StripeDataBytes(v.geo, v.code, frame, si);
    DataSlicesGenuine(v, frame, si);
  }

  lemma DataSlicesGenuine(v: View, frame: bytes, si: nat)
    requires Genuine(v, frame) && si < v.geo.Stripes()
    ensures |StripeSlices(v.geo, v.code, frame, si)| == v.geo.Width()
    ensures DataSlices(v, si) == Some(StripeSlices(v.geo, v.code, frame, si)[..v.geo.k])
  {
    var g := v.geo;
    var word := StripeSlices(g, v.code, frame, si);
    if AllDataPresent(v) {
      DirectGenuine(v, frame, si, g.k);
    } else {
      GatherGenuine(v, frame, si, |v.shards|);
      assert v.shards[..|v.shards|] == v.shards && word[..|v.shards|] == word;
      RebuildsWord(v, frame, si, Gather(v, si, |v.shards|).value);
    }
  }

  /** The gathered slices rebuild the whole codeword. */
  lemma RebuildsWord(v: View, frame: bytes, si: nat, partial: seq<Option<Slice>>)
    requires Genuine(v, frame) && si < v.geo.Stripes() && !AllDataPresent(v)
    requires PartOf(partial, StripeSlices(v.geo, v.code, frame, si)) && Count(partial) >= v.geo.k
    ensures v.code.rebuild(v.geo.k, v.geo.m, partial) == StripeSlices(v.geo, v.code, frame, si)
  {
    var g := v.geo;
    MissingDataHasParity(v);
    PaddedIsAt(g, si);
    CodewordRebuilds(v.code, g.k, g.m, StripeBody(g, frame, si), g.StripeSlice(si).0, partial);
  }

  /** Without parity there is one shard, and an opened set holds it. */
  lemma MissingDataHasParity(v: View)
    requires Opened(v) && !AllDataPresent(v)
    ensures v.geo.m > 0
  {
    hide MDS, DecodeShard, Count;
    if |v.shards| == 1 {
      CountSingle(v.shards);
    }
  }

  lemma CountSingle<T>(s: seq<Option<T>>)
    requires |s| == 1
    ensures Count(s) == if s[0].Some? then 1 else 0
  {
    assert s == [] + [s[0]];
    CountAppend([], s[0]);
  }

  lemma CodewordRebuilds(c: Code, k: nat, m: nat, body: bytes, l: nat, partial: seq<Option<Slice>>)
    requires m > 0 && MDS(c, k, m) && |body| == At(k, l)
    requires PartOf(partial, EncodedStripe(c, k, m, body, l)) && Count(partial) >= k
    ensures c.rebuild(k, m, partial) == EncodedStripe(c, k, m, body, l)
  {
    hide Cut, At, Count;
    assert Uniform(Cut(body, k, l), k, l);
  }

  // ---- what a set reads as, whoever wrote it ----

  ghost predicate StripeReads(v: View, frame: bytes, si: nat)
    requires Opened(v) && si < v.geo.Stripes()
  {
    && v.geo.StripeStart(si) + v.geo.StripeData(si) <= |frame|
    && StripeOf(v, si) == Some(frame[v.geo.StripeStart(si)..v.geo.StripeStart(si) + v.geo.StripeData(si)])
  }

  /** Every stripe can be read, and together they are `frame`. */
  ghost predicate Reads(v: View, frame: bytes) {
    && Opened(v) && |frame| == v.geo.frameSize
    && forall si: nat :: si < v.geo.Stripes() ==> StripeReads(v, frame, si)
  }

  /** Genuine shards read as the frame they were written for. */
  lemma GenuineReads(v: View, frame: bytes)
    requires Genuine(v, frame)
    ensures Reads(v, frame)
  {
    hide MDS, DecodeShard, Count, ShardFile, StripeOf;
    forall si: nat | si < v.geo.Stripes()
      ensures StripeReads(v, frame, si)
    {
      AnyKShardsReadStripe(v, frame, si);
    }
  }

  /** A set reads as one frame at most. */
  lemma ReadsOnce(v: View, frame: bytes, other: bytes)
    requires Reads(v, frame) && Reads(v, other)
    ensures frame == other
  {
    hide MDS, Agree, Count, DecodeShard, StripeOf, Geometry.StripeStart, Geometry.StripeData, Geometry.Stripes;
    forall x: nat | x < v.geo.frameSize
      ensures frame[x] == other[x]
    {
      OffsetInStripe(v.geo, x);
      var si := x / v.geo.StripeBytes();
      assert StripeReads(v, frame, si) && StripeReads(v, other, si);
      var from := v.geo.StripeStart(si);
      assert frame[from..from + v.geo.StripeData(si)][x - from] == frame[x];
    }
  }

  /** What a reader opened on these shards reads. */
  ghost predicate ReadsAs(shards: seq<Option<bytes>>, code: Code, frame: bytes) {
    exists v: View :: v.shards == shards && v.code == code && Reads(v, frame)
  }

  /** A set opens one way. */
  lemma OneView(v: View, w: View)
    requires Opened(v) && Opened(w) && v.shards == w.shards && v.code == w.code
    ensures v == w
  {
    hide MDS, DecodeShard;
    var i := SomePresent(v.shards);
    assert HeaderOf(v.geo, v.id, i) == HeaderOf(w.geo, w.id, i);
    assert v.offs == w.offs;
  }

  lemma {:induction false} SomePresent<T>(s: seq<Option<T>>) returns (i: nat)
    requires Count(s) >= 1
    ensures i < |s| && s[i].Some?
  {
    if s[|s| - 1].Some? {
      i := |s| - 1;
    } else {
      i := SomePresent(s[..|s| - 1]);
    }
  }

  lemma ReadsAsOnce(shards: seq<Option<bytes>>, code: Code, frame: bytes, other: bytes)
    requires ReadsAs(shards, code, frame) && ReadsAs(shards, code, other)
    ensures frame == other
  {
    hide Opened, StripeReads;
    var v: View :| v.shards == shards && v.code == code && Reads(v, frame);
    var w: View :| w.shards == shards && w.code == code && Reads(w, other);
    OneView(v, w);
    ReadsOnce(v, frame, other);
  }

  ghost predicate Readable(v: View) {
    Opened(v) && forall si: nat :: si < v.geo.Stripes() ==> StripeOf(v, si).Some?
  }

  /** The stripes read one after another. */
  ghost function Stripes(v: View, n: nat): (b: bytes)
    requires Readable(v) && n <= v.geo.Stripes()
  {
    if n == 0 then [] else Stripes(v, n - 1) + StripeOf(v, n - 1).value
  }

  lemma {:induction false} StripesLength(v: View, n: nat)
    requires Readable(v) && n <= v.geo.Stripes()
    ensures |Stripes(v, n)| == if n == v.geo.Stripes() then v.geo.frameSize else v.geo.StripeStart(n)
  {
    hide MDS, Agree, Count, DecodeShard, StripeOf, Geometry.StripeData, Geometry.Stripes;
    if n == 0 {
      SomeStripe(v.geo);
    } else {
      StripesLength(v, n - 1);
      StripesTileFrame(v.geo, n - 1);
    }
  }

  lemma SomeStripe(g: Geometry)
    requires g.Valid()
    ensures g.Stripes() > 0 && g.StripeStart(0) == 0
  {
    OffsetInStripe(g, 0);
  }

  lemma {:induction false} StripesHold(v: View, n: nat, si: nat)
    requires Readable(v) && si < n <= v.geo.Stripes()
    ensures v.geo.StripeStart(si) + v.geo.StripeData(si) <= |Stripes(v, n)|
    ensures Stripes(v, n)[v.geo.StripeStart(si)..v.geo.StripeStart(si) + v.geo.StripeData(si)] == StripeOf(v, si).value
    decreases n
  {
    hide MDS, Agree, Count, DecodeShard, StripeOf, Geometry.StripeStart, Geometry.StripeData, Geometry.Stripes;
    if si < n - 1 {
      StripesHold(v, n - 1, si);
      var a, b := v.geo.StripeStart(si), v.geo.StripeStart(si) + v.geo.StripeData(si);
      assert Stripes(v, n)[a..b] == Stripes(v, n - 1)[a..b];
    } else {
      StripesLength(v, si);
      StripesTileFrame(v.geo, si);
    }
  }

  /** A set reads as some frame exactly when every stripe can be read. */
  lemma ReadableReads(v: View)
    requires Readable(v)
    ensures Reads(v, Stripes(v, v.geo.Stripes()))
  {
    hide MDS, Agree, Count, DecodeShard, StripeOf, Geometry.StripeStart, Geometry.StripeData, Geometry.Stripes, Stripes;
    StripesLength(v, v.geo.Stripes());
    forall si: nat | si < v.geo.Stripes()
      ensures StripeReads(v, Stripes(v, v.geo.Stripes()), si)
    {
      StripesHold(v, v.geo.Stripes(), si);
    }
  }

  /** The stripes under these frame offsets can be read. */
  ghost predicate Covered(v: View, from: nat, to: nat)
    requires Opened(v)
  {
    forall x: nat :: from <= x < to && x < v.geo.frameSize ==> StripeUnder(v, x).Some?
  }

  ghost function StripeUnder(v: View, x: nat): Option<bytes>
    requires Opened(v) && x < v.geo.frameSize
  {
    OffsetInStripe(v.geo, x);
    StripeOf(v, x / v.geo.StripeBytes())
  }

  lemma CoveredIsReadable(v: View)
    requires Opened(v) && Covered(v, 0, v.geo.frameSize)
    ensures Readable(v)
  {
    hide MDS, Agree, Count, DecodeShard, StripeOf;
    forall si: nat | si < v.geo.Stripes()
      ensures StripeOf(v, si).Some?
    {
      StripesTileFrame(v.geo, si);
      StartsStripe(v.geo, si);
      assert StripeUnder(v, v.geo.StripeStart(si)).Some?;
    }
  }

  lemma StartsStripe(g: Geometry, si: nat)
    requires g.Valid()
    ensures g.StripeStart(si) / g.StripeBytes() == si
  {
    Quotient(si, g.StripeBytes(), 0);
  }

  lemma Quotient(q: nat, d: nat, r: nat)
    requires r < d
    ensures (q * d + r) / d == q
  {
    var x := q * d + r;
    DivMod(x, d);
    var p := x / d;
    if p < q {
      LeMul(p + 1, q, d);
    } else if p > q {
      LeMul(q + 1, p, d);
    }
  }

  lemma Adjacent<T>(s: seq<T>, a: nat, b: nat, c: nat)
    requires a <= b <= c <= |s|
    ensures s[a..b] + s[b..c] == s[a..c]
  {
  }

  // ---- the reader ----

  class Reader {
    const view: View
    var cachedIdx: int  // single-stripe cache; -1 when empty
    var cached: bytes

    ghost predicate Valid()
      reads this
    {
      && Opened(view)
      && (cachedIdx == -1 || (0 <= cachedIdx < view.geo.Stripes() && StripeOf(view, cachedIdx) == Some(cached)))
    }

    /** Opens a shard set (None where a shard is missing). It opens exactly when every
        present file is a well-formed shard in its own slot, all agree on one object, and
        at least k of them are present. */
    static method Open(shards: seq<Option<bytes>>, code: Code) returns (r: Result<Reader, OpenError>)
      requires CorrectLibrary(code)
      ensures r.Ok? ==> fresh(r.value) && r.value.Valid() && r.value.view.shards == shards && r.value.view.code == code
      ensures (exists g: Geometry, id: bytes ::
               Agree(shards, g, id) && 1 <= Count(shards) && Count(shards) >= g.k) ==> r.Ok?
    {
      hide Count, DecodeShard, MDS;
      var present := 0;
      var geo, id, offs: seq<int> := Geometry(0, 0, 0, 0), [], [];
      ghost var first := 0;
      var i := 0;
      while i < |shards|
        invariant 0 <= i <= |shards| && present == Count(shards[..i])
        invariant present > 0 ==> 0 <= first < i && shards[first].Some?
        invariant present > 0 ==>
          |offs| == |shards| && geo.Valid() && AgreeBelow(shards, geo, id, i) && OffsetsBelow(shards, offs, i)
        invariant present == 0 ==> forall j :: 0 <= j < i ==> shards[j].None?
      {
        assert shards[..i + 1] == shards[..i] + [shards[i]];
        CountAppend(shards[..i], shards[i]);
        if shards[i].Some? {
          var d := DecodeShard(shards[i].value);
          if d.Err? {
            return Err(BadShard(i, d.error));
          }
          var (h, off) := d.value;
          if h.index != i {
            return Err(Misplaced(i));
          }
          var g := Geometry(h.k, h.m, h.sliceSize, h.frameSize);
          if present == 0 {
            geo, id := g, h.id;
            first := i;
            if |shards| != h.k + h.m {
              return Err(SlotCount);
            }
            offs := Absent(|shards|);
          } else if g != geo || h.id != id {
            return Err(MixedSets(i));
          }
          offs := offs[i := off];
          present := present + 1;
        }
        i := i + 1;
      }
      assert shards[..i] == shards;
      if present == 0 {
        return Err(NoShards);
      }
      if present < geo.k {
        return Err(TooFew);
      }
      var reader := new Reader(View(shards, geo, id, offs, code));
      r := Ok(reader);
    }

    constructor (view: View)
      requires Opened(view)
      ensures Valid() && this.view == view
    {
      this.view := view;
      cachedIdx, cached := -1, [];
    }

    /** Reads frame bytes at `off` into `p`. When the set reads as `frame` the bytes read
        are exactly the frame's, end-of-frame is reported exactly when the buffer outruns
        the frame, and nothing past what was read is touched. */
    method ReadAt(p: array<byte>, off: int, ghost frame: bytes) returns (n: nat, err: Option<ReadError>)
      requires Valid()
      modifies this`cachedIdx, this`cached, p
      ensures Valid() && n <= p.Length
      ensures off < 0 ==> n == 0 && err == Some(NegativeOffset)
      ensures p[n..] == old(p[n..])
      ensures err.None? ==> n == p.Length
      ensures off >= 0 ==> Covered(view, off, off + n)
      ensures off >= 0 && Reads(view, frame) ==>
                && n == (if off >= |frame| then 0 else if p.Length <= |frame| - off then p.Length else |frame| - off)
                && (n > 0 ==> off + n <= |frame| && p[..n] == frame[off..off + n])
                && err == (if n < p.Length then Some(EndOfFrame) else None)
    {
      hide Opened, StripeOf, Geometry.Stripes, GotSoFar, Piece, Covered, Reads;
      n := 0;
      if off < 0 {
        return 0, Some(NegativeOffset);
      }
      ghost var was := p[..];
      NothingGot(view, frame, off);
      assert p[..0] == [];
      var at: nat := off;
      while n < p.Length && at < view.geo.frameSize
        invariant Valid() && n <= p.Length && at == off + n
        invariant p[n..] == was[n..] && GotSoFar(view, frame, off, p[..n])
        decreases p.Length - n
      {
        ghost var done := p[..n];
        var c := CopyStripe(p, n, at, frame);
        if c == 0 {
          GotIs(view, frame, off, p[..n], p.Length);
          return n, Some(ShortShard);
        }
        MoreSoFar(view, frame, off, done, p[n..n + c]);
        assert p[..n + c] == done + p[n..n + c];
        assert was[n..][c..] == was[n + c..];
        n := n + c;
        at := at + c;
      }
      GotIs(view, frame, off, p[..n], p.Length);
      err := if n < p.Length then Some(EndOfFrame) else None;
    }

    /** One round of the read loop: copies what the stripe holding `at` has for p[n..];
        0 when the stripe could not be read. */
    method CopyStripe(p: array<byte>, n: nat, at: nat, ghost frame: bytes) returns (c: nat)
      requires Valid() && n < p.Length && at < view.geo.frameSize
      modifies this`cachedIdx, this`cached, p
      ensures Valid() && n + c <= p.Length
      ensures p[..n] == old(p[..n]) && p[n + c..] == old(p[n..])[c..]
      ensures Piece(view, frame, at, p[n..n + c])
      ensures c == 0 ==> !Reads(view, frame)
    {
      hide MDS, DataSlices, DecodeShard, Reads;
      var si := at / view.geo.StripeBytes();
      OffsetInStripe(view.geo, at);
      var data := StripeData(si);
      if data.None? {
        CorruptOnly(view, frame, si);
        return 0;
      }
      var from := at - view.geo.StripeStart(si);
      c := if p.Length - n < |data.value| - from then p.Length - n else |data.value| - from;
      StripePiece(view, frame, si, data.value, from, c);
      ghost var was := p[..];
      CopyInto(p, n, data.value[from..from + c]);
      assert was[n..][c..] == was[n + c..];
    }

    /** Stripe `si`'s frame bytes: from the cache, directly, or rebuilt from any k. */
    method StripeData(si: nat) returns (r: Option<bytes>)
      requires Valid() && si < view.geo.Stripes()
      modifies this`cachedIdx, this`cached
      ensures Valid() && r == StripeOf(view, si)
    {
      if si == cachedIdx {
        return Some(cached);
      }
      var slices: Option<seq<Slice>>;
      if AllDataPresent(view) {
        slices := ReadData(si);
      } else {
        slices := ReadAny(si);
      }
      if slices.None? {
        return None;
      }
      JoinFits(view.geo, slices.value, si);
      var data := Join(slices.value)[..view.geo.StripeData(si)];
      cachedIdx, cached := si, data;
      r := Some(data);
    }

    /** Reads the k data slices directly. */
    method ReadData(si: nat) returns (r: Option<seq<Slice>>)
      requires Opened(view) && AllDataPresent(view)
      ensures r == DataSlices(view, si)
    {
      hide MDS, Count, DecodeShard, Geometry.StripeSlice;
      var slices := [];
      var i := 0;
      while i < view.geo.k
        invariant 0 <= i <= view.geo.k && Direct(view, si, i) == Some(slices)
      {
        var s := SliceAt(view, i, si);
        if s.None? {
          DirectStops(view, si, i + 1, view.geo.k);
          return None;
        }
        slices := slices + [s.value];
        i := i + 1;
      }
      r := Some(slices);
    }

    /** Gathers any k surviving slices and rebuilds the data ones. */
    method ReadAny(si: nat) returns (r: Option<seq<Slice>>)
      requires Opened(view) && !AllDataPresent(view)
      ensures r == DataSlices(view, si)
    {
      hide MDS, Count, DecodeShard, Geometry.StripeSlice, DataSlices;
      var partial: seq<Option<Slice>> := [];
      var got := 0;
      var i := 0;
      while i < |view.shards|
        invariant 0 <= i <= |view.shards| && Gather(view, si, i) == Some(partial) && got == Count(partial)
      {
        if view.offs[i] < 0 || got == view.geo.k {
          CountAppend(partial, None);
          partial := partial + [None];
        } else {
          var s := SliceAt(view, i, si);
          if s.None? {
            GatherFails(view, si, i + 1);
            return None;
          }
          CountAppend(partial, s);
          partial := partial + [s];
          got := got + 1;
        }
        i := i + 1;
      }
      r := RebuildData(partial, si);
    }

    /** ReconstructData: completes the slices and keeps the data ones. */
    method RebuildData(partial: seq<Option<Slice>>, si: nat) returns (r: Option<seq<Slice>>)
      requires Opened(view) && !AllDataPresent(view) && Gather(view, si, |view.shards|) == Some(partial)
      ensures r == DataSlices(view, si)
    {
      ghost var d := DataSlices(view, si);
      assert view.shards[..|view.shards|] == view.shards;
      assert UniformPart(partial, view.geo.k + view.geo.m, view.geo.StripeSlice(si).0);
      r := Some(view.code.rebuild(view.geo.k, view.geo.m, partial)[..view.geo.k]);
    }
  }

  method CopyInto(p: array<byte>, n: nat, src: bytes)
    requires n + |src| <= p.Length
    modifies p
    ensures p[..n] == old(p[..n]) && p[n..n + |src|] == src && p[n + |src|..] == old(p[n + |src|..])
  {
    forall i | 0 <= i < |src| {
      p[n + i] := src[i];
    }
  }

  lemma CountAppend<T>(s: seq<Option<T>>, x: Option<T>)
    ensures Count(s + [x]) == Count(s) + if x.Some? then 1 else 0
  {
    assert (s + [x])[..|s|] == s;
  }

  lemma PrefixCount<T>(s: seq<Option<T>>, n: nat)
    requires 1 <= n <= |s|
    ensures Count(s[..n]) == Count(s[..n - 1]) + if s[n - 1].Some? then 1 else 0
  {
    assert s[..n][..n - 1] == s[..n - 1];
  }

  lemma {:induction false} DirectStops(v: View, si: nat, i: nat, n: nat)
    requires Opened(v) && i <= n <= |v.shards| && forall j :: 0 <= j < n ==> v.shards[j].Some?
    requires Direct(v, si, i).None?
    ensures Direct(v, si, n).None?
    decreases n
  {
    hide Opened, SliceAt, Geometry.StripeSlice;
    if i < n {
      DirectStops(v, si, i, n - 1);
    }
  }

  lemma {:induction false} GatherStops(v: View, si: nat, i: nat, n: nat)
    requires Opened(v) && i <= n <= |v.shards| && Gather(v, si, i).None?
    ensures Gather(v, si, n).None?
    decreases n
  {
    hide Opened, SliceAt, Geometry.StripeSlice, Count;
    if i < n {
      GatherStops(v, si, i, n - 1);
    }
  }

  lemma GatherFails(v: View, si: nat, i: nat)
    requires Opened(v) && !AllDataPresent(v) && i <= |v.shards| && Gather(v, si, i).None?
    ensures DataSlices(v, si).None?
  {
    hide MDS, Gather, Count, DecodeShard;
    GatherStops(v, si, i, |v.shards|);
  }

  /** A failed stripe read means the set reads as nothing. */
  lemma CorruptOnly(v: View, frame: bytes, si: nat)
    requires Opened(v) && si < v.geo.Stripes() && StripeOf(v, si).None?
    ensures !Reads(v, frame)
  {
    assert Reads(v, frame) ==> StripeReads(v, frame, si);
  }

  /** Bytes read from offset `at` on: their stripes could be read, and they are the frame's. */
  ghost predicate Piece(v: View, frame: bytes, at: nat, b: bytes)
    requires Opened(v)
  {
    && at + |b| <= v.geo.frameSize && Covered(v, at, at + |b|)
    && (Reads(v, frame) ==> b == frame[at..at + |b|])
  }

  /** What a read from `off` has gathered. */
  ghost predicate GotSoFar(v: View, frame: bytes, off: nat, b: bytes)
    requires Opened(v)
  {
    b != [] ==> Piece(v, frame, off, b)
  }

  lemma NothingGot(v: View, frame: bytes, off: nat)
    requires Opened(v)
    ensures GotSoFar(v, frame, off, [])
  {
  }

  /** What was gathered, when it is all there was room for or all there is. */
  lemma GotIs(v: View, frame: bytes, off: nat, b: bytes, room: nat)
    requires Opened(v) && GotSoFar(v, frame, off, b) && |b| <= room
    ensures Covered(v, off, off + |b|)
    ensures Reads(v, frame) && (|b| == room || off + |b| >= v.geo.frameSize) ==>
      && |b| == (if off >= |frame| then 0 else if room <= |frame| - off then room else |frame| - off)
      && (b != [] ==> off + |b| <= |frame| && b == frame[off..off + |b|])
  {
    hide Opened, StripeUnder, StripeReads;
  }

  lemma MoreSoFar(v: View, frame: bytes, off: nat, b: bytes, more: bytes)
    requires Opened(v) && GotSoFar(v, frame, off, b) && Piece(v, frame, off + |b|, more)
    ensures GotSoFar(v, frame, off, b + more)
  {
    hide Opened, StripeUnder, StripeReads;
    if b != [] && Reads(v, frame) {
      Adjacent(frame, off, off + |b|, off + |b| + |more|);
    } else if b == [] {
      assert b + more == more;
    }
    forall x: nat | off <= x < off + |b + more| && x < v.geo.frameSize
      ensures StripeUnder(v, x).Some?
    {
      if x < off + |b| {
        assert Piece(v, frame, off, b);
      }
    }
  }

  /** Part of one stripe. */
  lemma StripePiece(v: View, frame: bytes, si: nat, data: bytes, from: nat, c: nat)
    requires Opened(v) && si < v.geo.Stripes() && StripeOf(v, si) == Some(data) && from + c <= |data|
    ensures Piece(v, frame, v.geo.StripeStart(si) + from, data[from..from + c])
  {
    hide MDS, Agree, StripeOf, DecodeShard, Count;
    StripesTileFrame(v.geo, si);
    var start := v.geo.StripeStart(si);
    assert |data| == v.geo.StripeData(si) by {
      StripeLength(v, si);
    }
    forall x: nat | start + from <= x < start + from + c && x < v.geo.frameSize
      ensures StripeUnder(v, x).Some?
    {
      SameStripe(v.geo, si, x);
    }
    if Reads(v, frame) {
      assert StripeReads(v, frame, si);
      SubSlice(frame, start, start + v.geo.StripeData(si), data, from, c);
    }
  }

  lemma StripeLength(v: View, si: nat)
    requires Opened(v) && si < v.geo.Stripes() && StripeOf(v, si).Some?
    ensures |StripeOf(v, si).value| == v.geo.StripeData(si)
  {
  }

  lemma StripeFits(g: Geometry, si: nat)
    requires g.Valid() && si < g.Stripes()
    ensures g.StripeData(si) <= g.StripeBytes()
  {
    DivMod(g.frameSize, g.StripeBytes());
  }

  lemma SameStripe(g: Geometry, si: nat, x: nat)
    requires g.Valid() && si < g.Stripes() && g.StripeStart(si) <= x < g.StripeStart(si) + g.StripeData(si)
    ensures x / g.StripeBytes() == si
  {
    hide Geometry.StripeData, Geometry.Stripes;
    StripeFits(g, si);
    Quotient(si, g.StripeBytes(), x - g.StripeStart(si));
  }

  lemma SubSlice(frame: bytes, a: nat, b: nat, data: bytes, from: nat, c: nat)
    requires a <= b <= |frame| && data == frame[a..b] && from + c <= |data|
    ensures data[from..from + c] == frame[a + from..a + from + c]
  {
    var got, want := data[from..from + c], frame[a + from..a + from + c];
    assert forall i :: 0 <= i < c ==> got[i] == want[i];
  }
}
