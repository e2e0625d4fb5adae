/** Repair's rebuild: missing shards recomputed from the survivors, every source and
    every output checked against the recorded digests. */
module EcReconstruct {
  import opened Bytes
  import opened EcGeometry
  import opened EcHeader
  import opened EcStripe
  import opened EcReader

  datatype RebuildError = SlotCount | ChecksumCount | SourceAndTarget(index: nat) | CannotOpen(error: OpenError)
    | NoRedundancy | ShortShard | SourceCorrupt(index: nat) | RebuiltCorrupt(index: nat)

  ghost predicate Injective(sha: bytes -> bytes) {
    forall a, b {:trigger sha(a), sha(b)} :: sha(a) == sha(b) ==> a == b
  }

  /** Every survivor's slice of stripe `si`, from the shards below `n`. */
  ghost function Survivors(v: View, si: nat, n: nat): (r: Option<seq<Option<Slice>>>)
    requires Opened(v) && n <= |v.shards|
    ensures r.Some? ==> |r.value| == n
  {
    if n == 0 then Some([])
    else
      var prior := Survivors(v, si, n - 1);
      if prior.None? then None
      else if v.shards[n - 1].None? then Some(prior.value + [None])
      else
        var s := SliceAt(v, n - 1, si);
        if s.None? then None else Some(prior.value + [s])
  }

  /** The slices are there exactly where the shards are, all of one length. */
  lemma {:induction false} SurvivorsShape(v: View, si: nat, n: nat)
    requires Opened(v) && n <= |v.shards| && Survivors(v, si, n).Some?
    ensures var p := Survivors(v, si, n).value;
      && UniformPart(p, n, v.geo.StripeSlice(si).0) && Count(p) == Count(v.shards[..n])
      && forall i :: 0 <= i < n ==> (p[i].Some? <==> v.shards[i].Some?)
  {
    hide MDS, SliceAt, DecodeShard, Count, Geometry.StripeSlice;
    if n == 0 {
      NothingCounted(v);
    } else {
      SurvivorsShape(v, si, n - 1);
      PrefixCount(v.shards, n);
      var prior := Survivors(v, si, n - 1).value;
      CountAppend(prior, if v.shards[n - 1].Some? then SliceAt(v, n - 1, si) else None);
    }
  }

  lemma NothingCounted(v: View)
    ensures Count(v.shards[..0]) == 0 && Count<Slice>([]) == 0
  {
  }

  lemma {:induction false} SurvivorsGenuine(v: View, frame: bytes, si: nat, n: nat)
    requires Genuine(v, frame) && si < v.geo.Stripes() && n <= |v.shards|
    ensures |StripeSlices(v.geo, v.code, frame, si)| == v.geo.Width()
    ensures Survivors(v, si, n).Some? && PartOf(Survivors(v, si, n).value, StripeSlices(v.geo, v.code, frame, si)[..n])
  {
    hide MDS, SliceAt, StripeSlices, Geometry.StripeSlice, Count, Geometry.Stripes, DecodeShard, ShardFile;
    StripeSlicesUniform(v.geo, v.code, frame, si);
    var word := StripeSlices(v.geo, v.code, frame, si);
    if n > 0 {
      SurvivorsGenuine(v, frame, si, n - 1);
      assert word[..n - 1] + [word[n - 1]] == word[..n];
      if v.shards[n - 1].Some? {
        GenuineSlice(v, frame, n - 1, si);
      }
    }
  }

  lemma {:induction false} SurvivorsStop(v: View, si: nat, i: nat, n: nat)
    requires Opened(v) && i <= n <= |v.shards| && Survivors(v, si, i).None?
    ensures Survivors(v, si, n).None?
    decreases n
  {
    hide Opened, SliceAt, Geometry.StripeSlice, Count;
    if i < n {
      SurvivorsStop(v, si, i, n - 1);
    }
  }

  /** All k+m slices of stripe `si`, rebuilt from the survivors. */
  ghost function Word(v: View, si: nat): (r: Option<seq<Slice>>)
    requires Opened(v)
    ensures r.Some? ==> |r.value| == v.geo.Width()
  {
    var p := Survivors(v, si, |v.shards|);
    assert v.shards[..|v.shards|] == v.shards;
    if p.None? then None
    else
      SurvivorsShape(v, si, |v.shards|);
      Some(v.code.rebuild(v.geo.k, v.geo.m, p.value))
  }

  lemma WordGenuine(v: View, frame: bytes, si: nat)
    requires Genuine(v, frame) && si < v.geo.Stripes() && v.geo.m > 0
    ensures Word(v, si) == Some(StripeSlices(v.geo, v.code, frame, si))
  {
    hide StripeBody, Geometry.StripeSlice, Geometry.Stripes, DecodeShard, ShardFile;
    var g := v.geo;
    var word := StripeSlices(g, v.code, frame, si);
    SurvivorsGenuine(v, frame, si, |v.shards|);
    SurvivorsShape(v, si, |v.shards|);
    var p := Survivors(v, si, |v.shards|).value;
    assert v.shards[..|v.shards|] == v.shards && word[..|v.shards|] == word;
    PaddedIsAt(g, si);
    CodewordRebuilds(v.code, g.k, g.m, StripeBody(g, frame, si), g.StripeSlice(si).0, p);
  }

  /** Reads every survivor's slice and completes the stripe. */
  method ReadWord(v: View, si: nat) returns (partial: seq<Option<Slice>>, word: Option<seq<Slice>>)
    requires Opened(v)
    ensures word == Word(v, si)
    ensures word.Some? ==> Survivors(v, si, |v.shards|) == Some(partial)
  {
    hide MDS, Count, DecodeShard, Geometry.StripeSlice;
    partial := [];
    var i := 0;
    while i < |v.shards|
      invariant 0 <= i <= |v.shards| && Survivors(v, si, i) == Some(partial)
    {
      if v.shards[i].None? {
        partial := partial + [None];
      } else {
        var s := SliceAt(v, i, si);
        if s.None? {
          SurvivorsStop(v, si, i + 1, |v.shards|);
          return partial, None;
        }
        partial := partial + [s];
      }
      i := i + 1;
    }
    word := Some(v.code.rebuild(v.geo.k, v.geo.m, partial));
  }

  /** Appends each selected slice to its own buffer. */
  method AppendEach(bufs: seq<bytes>, slices: seq<Option<Slice>>) returns (out: seq<bytes>)
    requires |bufs| == |slices|
    ensures |out| == |bufs|
    ensures forall i :: 0 <= i < |bufs| ==> out[i] == if slices[i].Some? then bufs[i] + slices[i].value else bufs[i]
  {
    out := bufs;
    for i := 0 to |bufs|
      invariant |out| == |bufs|
      invariant forall j :: 0 <= j < i ==> out[j] == if slices[j].Some? then bufs[j] + slices[j].value else bufs[j]
      invariant forall j :: i <= j < |bufs| ==> out[j] == bufs[j]
    {
      if slices[i].Some? {
        out := out[i := out[i] + slices[i].value];
      }
    }
  }

  /** What has been hashed or rebuilt for every shard in play after `n` stripes of genuine
      shards: the front and the first n slices of the reference file. */
  ghost predicate Tracks(v: View, frame: bytes, bufs: seq<bytes>, live: seq<bool>, n: nat)
    requires Genuine(v, frame) && n <= v.geo.Stripes()
  {
    && |bufs| == |live| == |v.shards|
    && forall i :: 0 <= i < |live| && live[i] ==>
         bufs[i] == EncodeShard(HeaderOf(v.geo, v.id, i)) + Payload(v.geo, v.code, frame, i, n)
  }

  lemma TracksStep(v: View, frame: bytes, bufs: seq<bytes>, live: seq<bool>, n: nat, slices: seq<Option<Slice>>,
                   out: seq<bytes>)
    requires Genuine(v, frame) && n < v.geo.Stripes() && Tracks(v, frame, bufs, live, n)
    requires |slices| == |out| == |bufs| && |StripeSlices(v.geo, v.code, frame, n)| == v.geo.Width()
    requires forall i :: 0 <= i < |live| && live[i] ==> slices[i] == Some(StripeSlices(v.geo, v.code, frame, n)[i])
    requires forall i :: 0 <= i < |bufs| ==> out[i] == if slices[i].Some? then bufs[i] + slices[i].value else bufs[i]
    ensures Tracks(v, frame, out, live, n + 1)
  {
    hide MDS, StripeSlices, EncodeShard, DecodeShard, Count, ShardFile, Geometry.Stripes;
    forall i | 0 <= i < |live| && live[i]
      ensures out[i] == EncodeShard(HeaderOf(v.geo, v.id, i)) + Payload(v.geo, v.code, frame, i, n + 1)
    {
      assert Payload(v.geo, v.code, frame, i, n + 1) == Payload(v.geo, v.code, frame, i, n) + StripeSlices(v.geo,
        v.code, frame, n)[i];
    }
  }

  /** The stripe loop: what each survivor's hash saw and what each target received. */
  method RebuildStripes(v: View, fronts: seq<bytes>, live: seq<bool>, ghost frame: bytes)
    returns (bufs: Option<seq<bytes>>)
    requires Opened(v) && v.geo.m > 0 && |fronts| == |live| == |v.shards|
    requires forall i :: 0 <= i < |live| && v.shards[i].Some? ==> live[i]
    requires Genuine(v, frame) ==> Tracks(v, frame, fronts, live, 0)
    ensures bufs.Some? ==> |bufs.value| == |v.shards|
    ensures Genuine(v, frame) ==> bufs.Some? && Tracks(v, frame, bufs.value, live, v.geo.Stripes())
  {
    hide MDS, Count, DecodeShard, Word, Tracks, Genuine, StripeSlices;
    var b := fronts;
    var si := 0;
    while si < v.geo.Stripes()
      invariant 0 <= si <= v.geo.Stripes() && |b| == |v.shards|
      invariant Genuine(v, frame) ==> Tracks(v, frame, b, live, si)
    {
      var partial, word := ReadWord(v, si);
      if word.None? {
        if Genuine(v, frame) {
          WordGenuine(v, frame, si);
        }
        return None;
      }
      var slices := Choose(live, partial, word.value, v.shards);
      var next := AppendEach(b, slices);
      if Genuine(v, frame) {
        StripeAdvances(v, frame, b, live, si, partial, word.value, slices, next);
      }
      b := next;
      si := si + 1;
    }
    bufs := Some(b);
  }

  /** The slice each live shard takes from a stripe: a survivor's own, a target's rebuilt. */
  function Choose(live: seq<bool>, partial: seq<Option<Slice>>, word: seq<Slice>,
                  shards: seq<Option<bytes>>): (s: seq<Option<Slice>>)
    requires |live| == |partial| == |word| == |shards|
    ensures |s| == |live|
    ensures forall i :: 0 <= i < |s| ==>
              s[i] == if !live[i] then None else if shards[i].Some? then partial[i] else Some(word[i])
  {
    seq(|live|, i requires 0 <= i < |live| =>
      if !live[i] then None else if shards[i].Some? then partial[i] else Some(word[i]))
  }

  lemma StripeAdvances(v: View, frame: bytes, b: seq<bytes>, live: seq<bool>, si: nat, partial: seq<Option<Slice>>,
                       word: seq<Slice>, slices: seq<Option<Slice>>, next: seq<bytes>)
    requires Genuine(v, frame) && si < v.geo.Stripes() && v.geo.m > 0 && Tracks(v, frame, b, live, si)
    requires Word(v, si) == Some(word) && Survivors(v, si, |v.shards|) == Some(partial)
    requires slices == Choose(live, partial, word, v.shards) && |next| == |b|
    requires forall i :: 0 <= i < |b| ==> next[i] == if slices[i].Some? then b[i] + slices[i].value else b[i]
    ensures Tracks(v, frame, next, live, si + 1)
  {
    hide MDS, Count, DecodeShard, Word, StripeSlices, ShardFile, Geometry.Stripes, Payload, EncodeShard;
    WordGenuine(v, frame, si);
    SurvivorsGenuine(v, frame, si, |v.shards|);
    SurvivorsShape(v, si, |v.shards|);
    var full := StripeSlices(v.geo, v.code, frame, si);
    assert full[..|v.shards|] == full;
    TracksStep(v, frame, b, live, si, slices, next);
  }

  /** The digests metadata recorded for `frame`'s shards. */
  ghost predicate Recorded(sums: seq<bytes>, sha: bytes -> bytes, g: Geometry, c: Code, id: bytes, frame: bytes)
    requires Writable(g, id) && |frame| == g.frameSize && MDS(c, g.k, g.m)
  {
    |sums| == g.Width() && forall i :: 0 <= i < |sums| ==> sums[i] == sha(ShardFile(g, c, id, frame, i))
  }

  predicate SomeOverlap(shards: seq<Option<bytes>>, rebuild: seq<bool>)
    requires |shards| == |rebuild|
  {
    exists i :: 0 <= i < |shards| && rebuild[i] && shards[i].Some?
  }

  /** What Reconstruct promises when it succeeds: every target it was given a digest for
      carries exactly that digest. */
  predicate TargetsMatch(outs: seq<bytes>, rebuild: seq<bool>, sums: Option<seq<bytes>>, sha: bytes -> bytes) {
    |outs| == |rebuild| &&
    (sums.Some? ==>
       && |sums.value| == |rebuild|
       && forall i :: 0 <= i < |rebuild| && rebuild[i] && sums.value[i] != [] ==> sha(outs[i]) == sums.value[i])
  }

  /** Rebuilds the shards `rebuild` names from the ones present. It fails on mismatched
      slots, a slot that is both source and target, an unopenable set, no redundancy, a
      short source or any digest mismatch; on genuine survivors with true (or no) digests it
      succeeds and every rebuilt shard is byte for byte the one Writer produced. */
  method Reconstruct(shards: seq<Option<bytes>>, sums: Option<seq<bytes>>, rebuild: seq<bool>, code: Code,
                     sha: bytes -> bytes, ghost g: Geometry, ghost id: bytes, ghost frame: bytes)
    returns (err: Option<RebuildError>, outs: seq<bytes>)
    requires CorrectLibrary(code)
    ensures err.None? ==> TargetsMatch(outs, rebuild, sums, sha)
    ensures WrittenBy(shards, g, code, id, frame) && g.m > 0 && Count(shards) >= g.k && |rebuild| == |shards|
            && !SomeOverlap(shards, rebuild) && (sums.Some? ==> Recorded(sums.value, sha, g, code, id, frame)) ==>
              && err.None? && |outs| == g.Width()
              && forall i :: 0 <= i < |outs| && rebuild[i] ==> outs[i] == ShardFile(g, code, id, frame, i)
  {
    hide MDS, Count, DecodeShard, ShardFile, Payload, EncodeShard;
    outs := [];
    if |rebuild| != |shards| {
      return Some(RebuildError.SlotCount), outs;
    }
    if sums.Some? && |sums.value| != |shards| {
      return Some(ChecksumCount), outs;
    }
    var overlap := FindOverlap(shards, rebuild);
    if overlap.Some? {
      return Some(SourceAndTarget(overlap.value)), outs;
    }
    if WrittenBy(shards, g, code, id, frame) {
      WrittenAgree(shards, g, code, id, frame);
    }
    var survivors := Reader.Open(shards, code);
    if survivors.Err? {
      return Some(CannotOpen(survivors.error)), outs;
    }
    var v := survivors.value.view;
    if v.geo.m == 0 {
      if WrittenBy(shards, g, code, id, frame) {
        WrittenView(v, g, id, frame);
      }
      return Some(NoRedundancy), outs;
    }
    var fronts, live := Fronts(v, rebuild, frame);
    var bufs := RebuildStripes(v, fronts, live, frame);
    if WrittenBy(shards, g, code, id, frame) && Count(shards) >= g.k {
      WrittenView(v, g, id, frame);
    }
    if bufs.None? {
      return Some(RebuildError.ShortShard), outs;
    }
    outs := bufs.value;
    if sums.Some? {
      var bad := FirstMismatch(outs, live, sums.value, sha);
      if bad.Some? {
        if WrittenBy(shards, g, code, id, frame) && Recorded(sums.value, sha, g, code, id, frame) && Genuine(v, frame) {
          TracksFiles(v, frame, outs, live);
        }
        return Some(if shards[bad.value].Some? then SourceCorrupt(bad.value) else RebuiltCorrupt(bad.value)), outs;
      }
    }
    if Genuine(v, frame) {
      TracksFiles(v, frame, outs, live);
    }
    err := None;
  }

  /** The present shards are the ones Writer produced for `frame` at `g`, whatever is missing. */
  ghost predicate WrittenBy(shards: seq<Option<bytes>>, g: Geometry, c: Code, id: bytes, frame: bytes) {
    && Writable(g, id) && |frame| == g.frameSize && MDS(c, g.k, g.m) && |shards| == g.Width()
    && forall i :: 0 <= i < |shards| && shards[i].Some? ==> shards[i].value == ShardFile(g, c, id, frame, i)
  }

  lemma WrittenAgree(shards: seq<Option<bytes>>, g: Geometry, c: Code, id: bytes, frame: bytes)
    requires WrittenBy(shards, g, c, id, frame)
    ensures Agree(shards, g, id)
  {
    hide MDS, DecodeShard, Payload, EncodeShard;
    forall i | 0 <= i < |shards| && shards[i].Some?
      ensures DecodeShard(shards[i].value).Ok? && DecodeShard(shards[i].value).value.0 == HeaderOf(g, id, i)
    {
      ShardFrontRoundTrip(HeaderOf(g, id, i), Payload(g, c, frame, i, g.Stripes()));
    }
  }

  /** Opening written shards recovers their geometry and address. */
  lemma WrittenView(v: View, g: Geometry, id: bytes, frame: bytes)
    requires Opened(v) && WrittenBy(v.shards, g, v.code, id, frame)
    ensures v.geo == g && v.id == id && Genuine(v, frame)
  {
    hide MDS, DecodeShard, ShardFile;
    WrittenAgree(v.shards, g, v.code, id, frame);
    var i := SomePresent(v.shards);
    assert HeaderOf(v.geo, v.id, i) == HeaderOf(g, id, i);
  }

  /** Enough written shards read as the frame. */
  lemma WrittenReads(shards: seq<Option<bytes>>, g: Geometry, c: Code, id: bytes, frame: bytes)
    requires WrittenBy(shards, g, c, id, frame) && Count(shards) >= g.k
    ensures ReadsAs(shards, c, frame)
  {
    hide Genuine, Reads;
    var v := WrittenOpens(shards, g, c, id, frame);
    GenuineReads(v, frame);
  }

  lemma WrittenOpens(shards: seq<Option<bytes>>, g: Geometry, c: Code, id: bytes, frame: bytes) returns (v: View)
    requires WrittenBy(shards, g, c, id, frame) && Count(shards) >= g.k
    ensures v.shards == shards && v.geo == g && v.code == c && Genuine(v, frame)
  {
    hide MDS, DecodeShard, ShardFile;
    WrittenAgree(shards, g, c, id, frame);
    var offs := seq(|shards|, i requires 0 <= i < |shards| => if shards[i].Some?
                    then DecodeShard(shards[i].value).value.1 else -1);
    v := View(shards, g, id, offs, c);
  }

  lemma TracksFiles(v: View, frame: bytes, bufs: seq<bytes>, live: seq<bool>)
    requires Genuine(v, frame) && Tracks(v, frame, bufs, live, v.geo.Stripes())
    ensures forall i :: 0 <= i < |live| && live[i] ==> bufs[i] == ShardFile(v.geo, v.code, v.id, frame, i)
  {
    hide MDS, DecodeShard, Payload, EncodeShard, Count;
  }

  method FindOverlap(shards: seq<Option<bytes>>, rebuild: seq<bool>) returns (r: Option<nat>)
    requires |shards| == |rebuild|
    ensures r.Some? <==> SomeOverlap(shards, rebuild)
    ensures r.Some? ==> r.value < |shards| && rebuild[r.value] && shards[r.value].Some?
  {
    for i := 0 to |shards|
      invariant forall j :: 0 <= j < i ==> !(rebuild[j] && shards[j].Some?)
    {
      if rebuild[i] && shards[i].Some? {
        return Some(i);
      }
    }
    r := None;
  }

  /** Every survivor's header bytes, and every target's freshly encoded header. */
  method Fronts(v: View, rebuild: seq<bool>, ghost frame: bytes) returns (fronts: seq<bytes>, live: seq<bool>)
    requires Opened(v) && |rebuild| == |v.shards| && !SomeOverlap(v.shards, rebuild)
    ensures |fronts| == |live| == |v.shards|
    ensures forall i :: 0 <= i < |live| ==> (live[i] <==> v.shards[i].Some? || rebuild[i])
    ensures Genuine(v, frame) ==> Tracks(v, frame, fronts, live, 0)
  {
    hide MDS, Count, DecodeShard, EncodeShard, Payload;
    fronts, live := [], [];
    ghost var genuine := Genuine(v, frame);
    var i := 0;
    while i < |v.shards|
      invariant 0 <= i <= |v.shards| && |fronts| == |live| == i
      invariant forall j :: 0 <= j < i ==> (live[j] <==> v.shards[j].Some? || rebuild[j])
      invariant genuine ==> forall j :: 0 <= j < i && live[j] ==> fronts[j] == EncodeShard(HeaderOf(v.geo, v.id, j))
    {
      var front: bytes := [];
      if v.shards[i].Some? {
        front := v.shards[i].value[..v.offs[i]];
        if genuine {
          FrontBytes(v, frame, i);
        }
      } else if rebuild[i] {
        ViewStorable(v, i);
        front := EncodeShard(HeaderOf(v.geo, v.id, i));
      }
      fronts := fronts + [front];
      live := live + [v.shards[i].Some? || rebuild[i]];
      i := i + 1;
    }
    if genuine {
      NoPayload(v, frame);
    }
  }

  /** What decoded can be encoded again. */
  lemma ViewStorable(v: View, i: nat)
    requires Opened(v) && i < |v.shards|
    ensures Storable(HeaderOf(v.geo, v.id, i))
  {
    hide MDS;
    var j := SomePresent(v.shards);
    assert Storable(HeaderOf(v.geo, v.id, j));
  }

  lemma NoPayload(v: View, frame: bytes)
    requires Genuine(v, frame)
    ensures forall i :: 0 <= i < |v.shards| ==> Payload(v.geo, v.code, frame, i, 0) == []
  {
  }

  lemma FrontBytes(v: View, frame: bytes, i: nat)
    requires Genuine(v, frame) && i < |v.shards| && v.shards[i].Some?
    ensures 0 <= v.offs[i] <= |v.shards[i].value|
    ensures v.shards[i].value[..v.offs[i]] == EncodeShard(HeaderOf(v.geo, v.id, i))
  {
    hide MDS, DecodeShard, Payload, EncodeShard, Count;
    ShardFrontRoundTrip(HeaderOf(v.geo, v.id, i), Payload(v.geo, v.code, frame, i, v.geo.Stripes()));
  }

  /** The first live shard whose bytes disagree with its recorded digest. */
  method FirstMismatch(bufs: seq<bytes>, live: seq<bool>, sums: seq<bytes>, sha: bytes -> bytes)
    returns (r: Option<nat>)
    requires |bufs| == |live| == |sums|
    ensures r.Some? ==> r.value < |bufs| && live[r.value] && sha(bufs[r.value]) != sums[r.value]
    ensures r.None? ==> forall i :: 0 <= i < |bufs| && live[i] && sums[i] != [] ==> sha(bufs[i]) == sums[i]
  {
    for i := 0 to |bufs|
      invariant forall j :: 0 <= j < i && live[j] && sums[j] != [] ==> sha(bufs[j]) == sums[j]
    {
      if live[i] && sums[i] != [] && sha(bufs[i]) != sums[i] {
        return Some(i);
      }
    }
    r := None;
  }

  /** Repair never launders corruption: once Reconstruct returns without error, with a
      collision-free digest recorded for every shard, each rebuilt shard is the one Writer
      produced, even if the survivors it read were not. */
  lemma RebuiltIsWritten(outs: seq<bytes>, rebuild: seq<bool>, sums: seq<bytes>, sha: bytes -> bytes,
                         g: Geometry, c: Code, id: bytes, frame: bytes, i: nat)
    requires TargetsMatch(outs, rebuild, Some(sums), sha) && Injective(sha) &&
      (forall b {:trigger sha(b)} :: sha(b) != [])
    requires Writable(g, id) && |frame| == g.frameSize && MDS(c, g.k, g.m) && Recorded(sums, sha, g, c, id, frame)
    requires i < |rebuild| && rebuild[i]
    ensures outs[i] == ShardFile(g, c, id, frame, i)
  {
    hide MDS, ShardFile;
    assert sha(outs[i]) == sha(ShardFile(g, c, id, frame, i));
  }
}
