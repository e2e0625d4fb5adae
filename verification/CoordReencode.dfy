/** Re-encoding one stored version: probe its shards, fetch k of them piece by piece, encode at
    the new profile, write every new shard, switch the metadata, drop the old. The callbacks of
    each phase come in any order. */
module CoordReencode {
  import opened Bytes
  import opened EcGeometry
  import opened EcStripe
  import opened EcHeader
  import opened EcReader
  import opened EcReconstruct
  import opened EcReencode
  import opened EcRot
  import CoordDurability

  const FetchPiece := 262144

  // ---- fetching in pieces ----

  datatype Piece = Piece(shard: nat, off: nat, len: nat)

  predicate Holds(p: Piece, i: nat, x: nat) { p.shard == i && p.off <= x < p.off + p.len }

  predicate InSome(pieces: seq<Piece>, i: nat, x: nat) { exists p :: 0 <= p < |pieces| && Holds(pieces[p], i, x) }

  /** Every piece lies inside its buffer. */
  predicate Inside(p: Piece, buffers: seq<Option<bytes>>) {
    p.shard < |buffers| && buffers[p.shard].Some? && p.off + p.len <= |buffers[p.shard].value|
  }

  predicate AllInside(pieces: seq<Piece>, buffers: seq<Option<bytes>>) {
    forall p :: 0 <= p < |pieces| ==> Inside(pieces[p], buffers)
  }

  /** The pieces leave no byte of a buffer out. */
  predicate Tiled(pieces: seq<Piece>, buffers: seq<Option<bytes>>) {
    forall i, x :: 0 <= i < |buffers| && buffers[i].Some? && 0 <= x < |buffers[i].value| ==> InSome(pieces, i, x)
  }

  /** Each buffer is the size of the shard it is for. */
  predicate Sized(buffers: seq<Option<bytes>>, homes: seq<Option<bytes>>) {
    && |buffers| == |homes|
    && forall i :: 0 <= i < |buffers| && buffers[i].Some? ==> homes[i].Some? && |buffers[i].value| == |homes[i].value|
  }

  /** A piece's bytes are the shard's. */
  predicate Landed(p: Piece, buffers: seq<Option<bytes>>, homes: seq<Option<bytes>>)
    requires Sized(buffers, homes) && Inside(p, buffers)
  {
    forall x :: p.off <= x < p.off + p.len ==> buffers[p.shard].value[x] == homes[p.shard].value[x]
  }

  function Splice(b: bytes, off: nat, data: bytes): (r: bytes)
    requires off + |data| <= |b|
    ensures |r| == |b| && forall x :: 0 <= x < |b| ==> r[x] == if off <= x < off + |data| then data[x - off] else b[x]
  {
    b[..off] + data + b[off + |data|..]
  }

  /** A piece copied in is right, and spoils no other. */
  lemma PieceCopied(p: Piece, q: Piece, buffers: seq<Option<bytes>>, homes: seq<Option<bytes>>, data: bytes)
    requires Sized(buffers, homes) && Inside(p, buffers) && Inside(q, buffers) && |data| == p.len
    requires data == homes[p.shard].value[p.off..p.off + p.len]
    ensures var more := buffers[p.shard := Some(Splice(buffers[p.shard].value, p.off, data))];
      && Sized(more, homes) && Inside(p, more) && Inside(q, more) && Landed(p, more, homes)
      && (Landed(q, buffers, homes) ==> Landed(q, more, homes))
  {
  }

  /** With every piece in, the buffers are the shards, whatever order they came in. */
  lemma AllLanded(pieces: seq<Piece>, buffers: seq<Option<bytes>>, homes: seq<Option<bytes>>)
    requires Sized(buffers, homes) && AllInside(pieces, buffers) && Tiled(pieces, buffers)
    requires forall p :: 0 <= p < |pieces| ==> Landed(pieces[p], buffers, homes)
    ensures forall i :: 0 <= i < |buffers| && buffers[i].Some? ==> buffers[i] == homes[i]
  {
    forall i | 0 <= i < |buffers| && buffers[i].Some?
      ensures buffers[i] == homes[i]
    {
      forall x | 0 <= x < |buffers[i].value|
        ensures buffers[i].value[x] == homes[i].value[x]
      {
        assert InSome(pieces, i, x);
        var p :| 0 <= p < |pieces| && Holds(pieces[p], i, x);
        assert Landed(pieces[p], buffers, homes);
      }
      assert buffers[i].value == homes[i].value;
    }
  }

  /** The loop that plans the fetches: the first k shards known present, each in pieces. */
  method Plan(lengths: seq<int>, k: nat, ghost homes: seq<Option<bytes>>)
    returns (buffers: seq<Option<bytes>>, pieces: seq<Piece>, got: nat)
    requires |lengths| == |homes| && forall i :: 0 <= i < |lengths| && lengths[i] >= 0 ==>
      homes[i].Some? && lengths[i] == |homes[i].value|
    ensures Sized(buffers, homes) && AllInside(pieces, buffers) && Tiled(pieces, buffers)
    ensures Count(buffers) == got == if Known(lengths) < k then Known(lengths) else k
    ensures AreFirst(buffers, lengths, k)
  {
    hide Tiled, AllInside, Known, Count;
    NoPieces();
    buffers, pieces, got := [], [], 0;
    for i := 0 to |lengths|
      invariant |buffers| == i && Sized(buffers, homes[..i]) && AllInside(pieces, buffers) && Tiled(pieces, buffers)
      invariant Count(buffers) == got == if Known(lengths[..i]) < k then Known(lengths[..i]) else k
      invariant forall j :: 0 <= j < i ==> (buffers[j].Some? <==> Picked(lengths, k, j))
    {
      CountAppend(buffers, None);
      KnownStep(lengths, i);
      if lengths[i] < 0 || got == k {
        NoneJoins(pieces, buffers);
        buffers := buffers + [None];
      } else {
        var l: nat := lengths[i];
        CountAppend(buffers, Some(Zeros(l)));
        got := got + 1;
        var cut := Cuts(i, l);
        PiecesJoin(pieces, cut, buffers, l);
        buffers, pieces := buffers + [Some(Zeros(l))], pieces + cut;
      }
    }
    assert homes[..|lengths|] == homes && lengths[..|lengths|] == lengths;
  }

  /** A shard is fetched if it answered and fewer than k before it did. */
  predicate Picked(lengths: seq<int>, k: nat, i: nat)
    requires i < |lengths|
  {
    lengths[i] >= 0 && Known(lengths[..i]) < k
  }

  /** The buffers are for the first k shards that answered. */
  predicate AreFirst(buffers: seq<Option<bytes>>, lengths: seq<int>, k: nat) {
    |buffers| == |lengths| && forall i :: 0 <= i < |buffers| ==> (buffers[i].Some? <==> Picked(lengths, k, i))
  }

  /** How many shards answered with a length. */
  function Known(lengths: seq<int>): (n: nat) {
    if lengths == [] then 0 else Known(lengths[..|lengths| - 1]) + if lengths[|lengths| - 1] >= 0 then 1 else 0
  }

  /** One shard of length l in pieces. */
  method Cuts(i: nat, l: nat) returns (cut: seq<Piece>)
    ensures forall p :: 0 <= p < |cut| ==> cut[p].shard == i && cut[p].off + cut[p].len <= l
    ensures forall x :: 0 <= x < l ==> InSome(cut, i, x)
  {
    cut := [];
    var o := 0;
    while o < l
      invariant forall p :: 0 <= p < |cut| ==> cut[p].shard == i && cut[p].off + cut[p].len <= l
      invariant forall x :: 0 <= x < o && x < l ==> InSome(cut, i, x)
    {
      var more := cut + [Piece(i, o, if l - o < FetchPiece then l - o else FetchPiece)];
      forall x | 0 <= x < o + FetchPiece && x < l
        ensures InSome(more, i, x)
      {
        if x < o {
          assert InSome(cut, i, x);
          var p :| 0 <= p < |cut| && Holds(cut[p], i, x);
          assert Holds(more[p], i, x);
        } else {
          assert Holds(more[|cut|], i, x);
        }
      }
      cut := more;
      o := o + FetchPiece;
    }
  }

  lemma NoPieces()
    ensures AllInside([], []) && Tiled([], []) && Count<bytes>([]) == 0 && Known([]) == 0
  {
  }

  lemma KnownStep(lengths: seq<int>, i: nat)
    requires i < |lengths|
    ensures Known(lengths[..i + 1]) == Known(lengths[..i]) + if lengths[i] >= 0 then 1 else 0
  {
    assert lengths[..i + 1][..i] == lengths[..i];
  }

  lemma NoneJoins(pieces: seq<Piece>, buffers: seq<Option<bytes>>)
    requires AllInside(pieces, buffers) && Tiled(pieces, buffers)
    ensures AllInside(pieces, buffers + [None]) && Tiled(pieces, buffers + [None])
  {
    forall p | 0 <= p < |pieces|
      ensures Inside(pieces[p], buffers + [None])
    {
      assert Inside(pieces[p], buffers);
    }
  }

  lemma PiecesJoin(pieces: seq<Piece>, cut: seq<Piece>, buffers: seq<Option<bytes>>, l: nat)
    requires AllInside(pieces, buffers) && Tiled(pieces, buffers)
    requires forall p :: 0 <= p < |cut| ==> cut[p].shard == |buffers| && cut[p].off + cut[p].len <= l
    requires forall x :: 0 <= x < l ==> InSome(cut, |buffers|, x)
    ensures AllInside(pieces + cut, buffers + [Some(Zeros(l))]) && Tiled(pieces + cut, buffers + [Some(Zeros(l))])
  {
    var all, more := pieces + cut, buffers + [Some(Zeros(l))];
    forall p | 0 <= p < |all|
      ensures Inside(all[p], more)
    {
      assert p < |pieces| ==> Inside(pieces[p], buffers);
    }
    forall i, x | 0 <= i < |more| && more[i].Some? && 0 <= x < |more[i].value|
      ensures InSome(all, i, x)
    {
      if i < |buffers| {
        assert InSome(pieces, i, x);
        var p :| 0 <= p < |pieces| && Holds(pieces[p], i, x);
        assert Holds(all[p], i, x);
      } else {
        assert InSome(cut, i, x);
        var p :| 0 <= p < |cut| && Holds(cut[p], i, x);
        assert Holds(all[|pieces| + p], i, x);
      }
    }
  }

  // ---- shard sets ----

  function Somes(files: seq<bytes>): (s: seq<Option<bytes>>)
    ensures |s| == |files| && forall i :: 0 <= i < |s| ==> s[i] == Some(files[i])
  {
    seq(|files|, i requires 0 <= i < |files| => Some(files[i]))
  }

  lemma {:induction false} CountSomes(files: seq<bytes>)
    ensures Count(Somes(files)) == |files|
  {
    if files != [] {
      var front := files[..|files| - 1];
      CountSomes(front);
      assert Somes(files) == Somes(front) + [Some(files[|files| - 1])];
      CountAppend(Somes(front), Some(files[|files| - 1]));
    }
  }

  /** Part of a written set is written. */
  lemma PartWritten(part: seq<Option<bytes>>, whole: seq<Option<bytes>>, g: Geometry, c: Code, id: bytes, frame: bytes)
    requires WrittenBy(whole, g, c, id, frame) && |part| == |whole|
    requires forall i :: 0 <= i < |part| && part[i].Some? ==> part[i] == whole[i]
    ensures WrittenBy(part, g, c, id, frame)
  {
    hide MDS, ShardFile;
  }

  // ---- what the source shards determine ----

  /** Some of the homes, k of them. */
  ghost predicate KOf(part: seq<Option<bytes>>, homes: seq<Option<bytes>>, k: nat) {
    && |part| == |homes| && Count(part) == k
    && forall i :: 0 <= i < |part| && part[i].Some? ==> part[i] == homes[i]
  }

  /** The frame that k of the homes read as, whoever wrote them. */
  ghost predicate HeldAt(homes: seq<Option<bytes>>, k: nat, code: Code, held: bytes) {
    exists part: seq<Option<bytes>> :: KOf(part, homes, k) && ReadsAs(part, code, held)
  }

  /** The homes an operation fetches, given who answered. */
  function Selected(homes: seq<Option<bytes>>, lengths: seq<int>, k: nat): (part: seq<Option<bytes>>)
    requires |homes| == |lengths|
    ensures |part| == |homes|
    ensures forall i :: 0 <= i < |part| ==> part[i] == if Picked(lengths, k, i) then homes[i] else None
  {
    seq(|homes|, i requires 0 <= i < |homes| => if Picked(lengths, k, i) then homes[i] else None)
  }

  /** The first k homes that hold a shard. */
  function FirstPresent(homes: seq<Option<bytes>>, k: nat): (part: seq<Option<bytes>>)
    ensures |part| == |homes|
    ensures forall i :: 0 <= i < |part| ==> part[i] == if Count(homes[..i]) < k then homes[i] else None
  {
    seq(|homes|, i requires 0 <= i < |homes| => if Count(homes[..i]) < k then homes[i] else None)
  }

  /** Written homes hold the frame they were written for, whichever k are fetched. */
  lemma WrittenHold(homes: seq<Option<bytes>>, g: Geometry, c: Code, id: bytes, frame: bytes, held: bytes)
    requires WrittenBy(homes, g, c, id, frame) && HeldAt(homes, g.k, c, held)
    ensures held == frame
  {
    hide MDS, ShardFile, ReadsAs, WrittenBy;
    var part: seq<Option<bytes>> :| KOf(part, homes, g.k) && ReadsAs(part, c, held);
    PartWritten(part, homes, g, c, id, frame);
    WrittenReads(part, g, c, id, frame);
    ReadsAsOnce(part, c, held, frame);
  }

  /** Enough shards of a set determine the frame they were written for. */
  lemma ShardsDetermineFrame(s: seq<Option<bytes>>, g: Geometry, c: Code, id: bytes, frame: bytes, other: bytes)
    requires WrittenBy(s, g, c, id, frame) && WrittenBy(s, g, c, id, other) && Count(s) >= g.k
    ensures frame == other
  {
    hide MDS, ShardFile, ReadsAs;
    WrittenReads(s, g, c, id, frame);
    WrittenReads(s, g, c, id, other);
    ReadsAsOnce(s, c, frame, other);
  }

  /** The shards have the digests recorded for the frame. */
  ghost predicate DigestsMatch(s: seq<Option<bytes>>, g: Geometry, c: Code, id: bytes, frame: bytes,
                               sha: bytes -> bytes)
    requires Writable(g, id) && |frame| == g.frameSize && MDS(c, g.k, g.m) && |s| == g.Width()
  {
    forall i :: 0 <= i < |s| && s[i].Some? ==> sha(s[i].value) == sha(ShardFile(g, c, id, frame, i))
  }

  /** Fetched shards with their recorded digests, whatever else the homes hold, keep the frame. */
  lemma MatchingDigestsKeepFrame(part: seq<Option<bytes>>, g: Geometry, c: Code, id: bytes, frame: bytes, held: bytes,
                                 sha: bytes -> bytes)
    requires Writable(g, id) && |frame| == g.frameSize && MDS(c, g.k, g.m) && |part| == g.Width() && Count(part) >= g.k
    requires Injective(sha) && DigestsMatch(part, g, c, id, frame, sha) && ReadsAs(part, c, held)
    ensures held == frame
  {
    hide MDS, ShardFile, ReadsAs, Writable;
    assert WrittenBy(part, g, c, id, frame);
    WrittenReads(part, g, c, id, frame);
    ReadsAsOnce(part, c, held, frame);
  }

  /** Exactly when a re-encode keeps the object: the shards it fetched, whoever wrote them, read as
      the recorded frame. The operation looks at no digest, and whatever they read as is what the
      new shards hold. */
  lemma KeepsFrameExactly(part: seq<Option<bytes>>, code: Code, held: bytes, frame: bytes, files: seq<bytes>, k: nat,
                          m: nat, size: nat, newId: bytes)
    requires ReadsAs(part, code, held) && Encodes(files, Geometry(k, m, size, |held|), code, newId, held)
    ensures Encodes(files, Geometry(k, m, size, |frame|), code, newId, frame) <==> ReadsAs(part, code, frame)
  {
    hide MDS, ShardFile, ReadsAs;
    if ReadsAs(part, code, frame) {
      ReadsAsOnce(part, code, held, frame);
    }
    if Encodes(files, Geometry(k, m, size, |frame|), code, newId, frame) {
      EncodedReads(files, Geometry(k, m, size, |held|), code, newId, held);
      EncodedReads(files, Geometry(k, m, size, |frame|), code, newId, frame);
      ReadsAsOnce(Somes(files), code, held, frame);
    }
  }

  /** A whole set reads as its frame. */
  lemma EncodedReads(files: seq<bytes>, h: Geometry, code: Code, id: bytes, frame: bytes)
    requires Encodes(files, h, code, id, frame)
    ensures WrittenBy(Somes(files), h, code, id, frame) && Count(Somes(files)) == |files| &&
      ReadsAs(Somes(files), code, frame)
  {
    hide MDS, ShardFile, ReadsAs;
    CountSomes(files);
    WrittenReads(Somes(files), h, code, id, frame);
  }

  /** The data shards of a frame with one byte of one of them changed: what is fetched reads as the
      recorded frame exactly when the byte was padding, though its digest differs either way. */
  lemma RottedSourceExactly(v: View, frame: bytes, p: Place, b: byte, sha: bytes -> bytes)
    requires Rottable(v, frame, p) && Rotted(v, frame, p, b) != v && Injective(sha)
    ensures var s := Rotted(v, frame, p, b).shards;
      && (ReadsAs(s, v.code, frame) <==> Padding(v.geo, p))
      && ReadsAs(s, v.code, RottedFrame(v.geo, frame, p, b))
      && |s| == v.geo.Width() && !DigestsMatch(s, v.geo, v.code, v.id, frame, sha)
  {
    hide MDS, ShardFile, ReadsAs, Rotted, Rottable;
    RottedAs(v, frame, p, b);
    DigestDiffers(v, frame, p, b, sha);
  }

  lemma DigestDiffers(v: View, frame: bytes, p: Place, b: byte, sha: bytes -> bytes)
    requires Rottable(v, frame, p) && Rotted(v, frame, p, b) != v && Injective(sha)
    ensures var s := Rotted(v, frame, p, b).shards;
      |s| == v.geo.Width() && !DigestsMatch(s, v.geo, v.code, v.id, frame, sha)
  {
    hide MDS, ShardFile, Count, DecodeShard, InFile;
    PlaceInFile(v, frame, p);
    var s, i := Rotted(v, frame, p, b).shards, p.shard;
    OtherFile(v.shards, i, s[i]);
    assert sha(s[i].value) != sha(v.shards[i].value);
    assert v.shards[i].value == ShardFile(v.geo, v.code, v.id, frame, i);
  }

  lemma OtherFile<T>(s: seq<T>, i: nat, x: T)
    requires i < |s| && s[i := x] != s
    ensures s[i] != x
  {
  }

  // ---- the operation ----

  datatype Phase = Probing | Fetching | Writing | Proposing | Finished(ok: bool)

  /** The shards being re-encoded, whatever they are, and what they are re-encoded to. */
  datatype Job = Job(k: nat, code: Code, homes: seq<Option<bytes>>, newK: int, newM: int, newId: bytes,
                     sliceSize: int) {
    function Target(held: bytes): Geometry { Geometry(newK, newM, sliceSize, |held|) }

    ghost predicate Sane() {
      CorrectLibrary(code) && |homes| > 0 && |newId| == 16 && 0 < sliceSize < TwoTo64 / 2
    }

    /** All the new shards of the frame that the first k homes to answer read as. */
    ghost predicate Whole(lengths: seq<int>, files: seq<bytes>, held: bytes) {
      && |lengths| == |homes| && KOf(Selected(homes, lengths, k), homes, k)
      && ReadsAs(Selected(homes, lengths, k), code, held) && Encodes(files, Target(held), code, newId, held)
    }

    /** The first k homes to answer do not read as a frame. */
    ghost predicate Unreadable(lengths: seq<int>) {
      |lengths| == |homes| && forall f :: !ReadsAs(Selected(homes, lengths, k), code, f)
    }
  }

  ghost predicate ProbeOk(j: Job, lengths: seq<int>, awaiting: set<nat>) {
    && |lengths| == |j.homes| && (forall i :: i in awaiting ==> i < |lengths|)
    && forall i :: 0 <= i < |lengths| && lengths[i] >= 0 ==> j.homes[i].Some? && lengths[i] == |j.homes[i].value|
  }

  ghost predicate FetchOk(j: Job, lengths: seq<int>, buffers: seq<Option<bytes>>, pieces: seq<Piece>, failed: bool,
                          awaiting: set<nat>) {
    && AreFirst(buffers, lengths, j.k)
    && Sized(buffers, j.homes) && AllInside(pieces, buffers) && Tiled(pieces, buffers) && Count(buffers) == j.k
    && (forall p :: p in awaiting ==> p < |pieces|)
    && (!failed ==> forall p :: 0 <= p < |pieces| && p !in awaiting ==> Landed(pieces[p], buffers, j.homes))
  }

  ghost predicate WriteOk(j: Job, lengths: seq<int>, files: seq<bytes>, held: bytes, newHomes: seq<Option<bytes>>,
                          writeErr: bool,
                          awaiting: set<nat>) {
    && j.Whole(lengths, files, held) && |newHomes| == |files| && (forall i :: i in awaiting ==> i < |files|)
    && (!writeErr ==> forall i :: 0 <= i < |files| && i !in awaiting ==> newHomes[i] == Some(files[i]))
  }

  /** The computation between the fetches and the writes. */
  method Recode(buffers: seq<Option<bytes>>, pieces: seq<Piece>, newK: int, newM: int, newId: bytes, sliceSize: int,
                code: Code, ghost j: Job, ghost lengths: seq<int>)
    returns (r: Option<seq<bytes>>, ghost held: bytes)
    requires j.Sane() && FetchOk(j, lengths, buffers, pieces, false, {})
    requires newK == j.newK && newM == j.newM && newId == j.newId && sliceSize == j.sliceSize && code == j.code
    ensures |lengths| == |j.homes| && buffers == Selected(j.homes, lengths, j.k)
    ensures r.Some? <==> ValidParams(newK, newM) && exists f :: ReadsAs(buffers, code, f)
    ensures r.Some? ==> |r.value| > 0 && j.Whole(lengths, r.value, held)
  {
    AllLanded(pieces, buffers, j.homes);
    hide MDS, ShardFile, CorrectLibrary, Tiled, Landed, Count, ReadsAs, Picked;
    assert buffers == Selected(j.homes, lengths, j.k);
    var files, h := Reencode(buffers, newId, newK, newM, sliceSize, code);
    held := h;
    r := if files.Err? then None else Some(files.value);
  }

  class ReencodeOp {
    const oldK: nat
    const newK: int
    const newM: int
    const newId: bytes
    const sliceSize: int
    const code: Code
    ghost const job: Job
    var lengths: seq<int>
    var pending: nat
    var failed: bool
    var buffers: seq<Option<bytes>>
    var pieces: seq<Piece>
    var files: seq<bytes>
    var writesLeft: nat
    var writeErr: bool
    var finished: bool
    var fired: nat
    ghost var phase: Phase
    ghost var awaiting: set<nat>
    ghost var held: bytes
    ghost var dropped: set<nat>

    // What the nodes hold and which shards the metadata names.
    var oldHomes: seq<Option<bytes>>
    var newHomes: seq<Option<bytes>>
    var switched: bool

    ghost predicate Set() {
      && job.Sane() && oldK == job.k && newK == job.newK && newM == job.newM
      && newId == job.newId && sliceSize == job.sliceSize && code == job.code
    }

    /** What holds between any two callbacks. Until the switch the version is exactly as it was;
        from the switch on, every new shard that was not dropped is in place, and they hold what was
        fetched; none is dropped from a switch that was acknowledged. */
    ghost predicate Valid()
      reads this
    {
      && Set()
      && finished == phase.Finished? && fired == (if finished then 1 else 0)
      && (if switched then newHomes == Without(Somes(files), dropped) && job.Whole(lengths, files, held)
          else oldHomes == job.homes)
      && match phase
         case Probing => pending == |awaiting| > 0 && !failed && !writeErr && !switched &&
           ProbeOk(job, lengths, awaiting)
         case Fetching => pending == |awaiting| > 0 && !writeErr && !switched &&
           FetchOk(job, lengths, buffers, pieces, failed, awaiting)
         case Writing => writesLeft == |awaiting| > 0 && !switched &&
           WriteOk(job, lengths, files, held, newHomes, writeErr, awaiting)
         case Proposing => !writeErr && !switched && WriteOk(job, lengths, files, held, newHomes, false, {})
         case Finished(ok) => ok ==> switched && dropped == {}
    }

    constructor (homes: seq<Option<bytes>>, oldK: nat, newK: int, newM: int, newId: bytes, sliceSize: int, code: Code,
                 ghost job: Job)
      requires job.Sane() && job == Job(oldK, code, homes, newK, newM, newId, sliceSize)
      ensures Valid() && phase == Probing && this.job == job && awaiting == Below(|homes|) &&
        lengths == seq(|homes|, _ => -1)
    {
      this.oldK, this.newK, this.newM, this.newId, this.sliceSize, this.code, this.job := oldK, newK, newM, newId,
      sliceSize, code, job;
      lengths := seq(|homes|, _ => -1);
      pending, failed, writesLeft, writeErr, finished, fired := |homes|, false, 0, false, false, 0;
      buffers, pieces, files, held, dropped := [], [], [], [], {};
      oldHomes, newHomes, switched := homes, [], false;
      phase, awaiting := Probing, Below(|job.homes|);
      new;
      hide MDS, ShardFile;
    }

    /** A verify callback: the length of a committed shard, or nothing. */
    method Probed(i: nat, length: Option<nat>)
      requires Valid() && phase == Probing && i in awaiting
      requires length.Some? ==> job.homes[i].Some? && length.value == |job.homes[i].value|
      modifies this
      ensures Valid()
      ensures lengths == if length.Some? then old(lengths)[i := length.value] else old(lengths)
      ensures phase == Probing <==> old(awaiting) != {i}
      ensures phase == Probing ==> awaiting == old(awaiting) - {i}
      ensures phase == Fetching ==> awaiting == Below(|pieces|) && pieces != [] && !failed
      ensures phase == Writing ==> !writeErr && awaiting == Below(|files|) && pieces == []
      ensures (phase == Probing || phase == Fetching || phase == Writing || phase == Finished(false)) && !switched
      ensures phase.Finished? ==> Known(lengths) < oldK || !ValidParams(newK, newM) || job.Unreadable(lengths)
    {
      hide MDS, ReadsAs, HeldAt, Encodes, CorrectLibrary;
      if length.Some? {
        lengths := lengths[i := length.value];
      }
      pending := pending - 1;
      awaiting := awaiting - {i};
      if pending == 0 {
        Fetch();
      }
    }

    method Fetch()
      requires Set() && phase == Probing && ProbeOk(job, lengths, {})
      requires !finished && fired == 0 && !failed && !writeErr && !switched && oldHomes == job.homes
      modifies this
      ensures Valid() && lengths == old(lengths)
      ensures phase == Fetching ==> awaiting == Below(|pieces|) && pieces != [] && !failed
      ensures phase == Writing ==> !writeErr && awaiting == Below(|files|) && pieces == []
      ensures (phase == Fetching || phase == Writing || phase == Finished(false)) && !switched
      ensures phase.Finished? ==> Known(lengths) < oldK || !ValidParams(newK, newM) || job.Unreadable(lengths)
    {
      hide MDS, ReadsAs, HeldAt, Encodes, CorrectLibrary, Tiled, AllInside, Landed, Known, Count, WriteOk,
        ValidParams, Below, KOf, Job.Unreadable;
      ghost var homes := job.homes;
      var got: nat;
      buffers, pieces, got := Plan(lengths, oldK, homes);
      if got < oldK {
        Finish(false);
        return;
      }
      if |pieces| == 0 {
        Encode();
        return;
      }
      pending := |pieces|;
      phase, awaiting := Fetching, Below(|pieces|);
    }

    /** A fetch callback: the piece's bytes, or a failure. */
    method Fetched(p: nat, b: Option<bytes>)
      requires Valid() && phase == Fetching && p in awaiting
      requires b.Some? && |b.value| == pieces[p].len ==>
                 b.value == job.homes[pieces[p].shard].value[pieces[p].off..pieces[p].off + pieces[p].len]
      modifies this
      ensures Valid()
      ensures phase == Fetching <==> old(awaiting) != {p}
      ensures phase == Fetching ==> awaiting == old(awaiting) - {p} && pieces == old(pieces)
      ensures lengths == old(lengths)
      ensures phase == Writing ==> !writeErr && awaiting == Below(|files|)
      ensures (phase == Fetching || phase == Writing || phase == Finished(false)) && !switched
      ensures failed == (old(failed) || b.None? || |b.value| != old(pieces)[p].len)
      ensures phase.Finished? ==> failed || !ValidParams(newK, newM) || job.Unreadable(lengths)
    {
      hide MDS, ReadsAs, HeldAt, Encodes, CorrectLibrary, FetchOk, WriteOk, ProbeOk, ValidParams, Job.Unreadable,
        Below, Splice, Job.Whole, Selected, Without, Somes, Job.Sane, Inside;
      PieceMissing(job, lengths, buffers, pieces, failed, awaiting, p);
      OneLess(awaiting, p);
      var piece := pieces[p];
      if b.None? || |b.value| != piece.len {
        failed := true;
      } else {
        PieceIn(job, lengths, buffers, pieces, failed, awaiting, p, b.value);
        buffers := buffers[piece.shard := Some(Splice(buffers[piece.shard].value, piece.off, b.value))];
      }
      pending := pending - 1;
      awaiting := awaiting - {p};
      if pending == 0 {
        if failed {
          Finish(false);
        } else {
          Encode();
        }
      }
    }

    /** Re-encodes the fetched shards, then streams each new shard to its home. */
    method Encode()
      requires Set() && FetchOk(job, lengths, buffers, pieces, false, {})
      requires !finished && fired == 0 && !writeErr && !switched && oldHomes == job.homes && !phase.Finished?
      modifies this
      ensures Valid() && lengths == old(lengths) && failed == old(failed) && !switched
      ensures phase == if ValidParams(newK, newM) && exists f :: ReadsAs(old(buffers), code, f) then Writing
        else Finished(false)
      ensures phase.Finished? ==> !ValidParams(newK, newM) || job.Unreadable(lengths)
      ensures pieces == old(pieces)
      ensures phase == Writing ==> !writeErr && awaiting == Below(|files|)
    {
      hide MDS, ShardFile, CorrectLibrary, ProbeOk, FetchOk, ReadsAs, KOf, HeldAt, Encodes, ValidParams, Below,
        Job.Whole;
      var r, h := Recode(buffers, pieces, newK, newM, newId, sliceSize, code, job, lengths);
      if r.None? {
        Finish(false);
        return;
      }
      files, held := r.value, h;
      writesLeft := |files|;
      newHomes := seq(|files|, _ => None);
      phase, awaiting := Writing, Below(|files|);
    }

    /** A stream's outcome. Success means the shard is durable; after a failure it may be. Once all
        have ended, a failure among them drops the new shards, as far as the deletes get. */
    method Wrote(i: nat, ok: bool, durable: bool, deleted: set<nat>)
      requires Valid() && phase == Writing && i in awaiting && (ok ==> durable)
      modifies this
      ensures Valid()
      ensures writeErr == (old(writeErr) || !ok)
      ensures phase == if old(awaiting) != {i} then Writing else if writeErr then Finished(false) else Proposing
      ensures phase == Writing ==> awaiting == old(awaiting) - {i}
      ensures files == old(files) && held == old(held) && lengths == old(lengths) && !switched
    {
      hide MDS, ShardFile, ReadsAs, HeldAt, Encodes, CorrectLibrary, KOf, Picked, Selected, Job.Whole;
      OneLess(awaiting, i);
      if durable {
        newHomes := newHomes[i := Some(files[i])];
      }
      if !ok {
        writeErr := true;
      }
      writesLeft := writesLeft - 1;
      awaiting := awaiting - {i};
      if writesLeft == 0 {
        if writeErr {
          newHomes := Without(newHomes, deleted);
          Finish(false);
        } else {
          phase := Proposing;
        }
      }
    }

    /** The answer to the metadata switch, and whatever deletes then get through. A switch that is
        acknowledged has committed; one that is answered with an error may have. Either way the
        error path drops the new shards. */
    method Answered(ok: bool, committed: bool, deleted: set<nat>)
      requires Valid() && phase == Proposing && (ok ==> committed)
      modifies this
      ensures Valid() && phase == Finished(ok) && switched == committed
      ensures newHomes == if ok then Somes(files) else Without(Somes(files), deleted)
      ensures oldHomes == if ok then Without(old(oldHomes), deleted) else old(oldHomes)
      ensures files == old(files) && held == old(held) && lengths == old(lengths)
    {
      hide MDS, ShardFile, CorrectLibrary, ReadsAs, Encodes;
      assert newHomes == Somes(files);
      switched := committed;
      dropped := if ok then {} else deleted;
      if ok {
        oldHomes := Without(oldHomes, deleted);
      } else {
        newHomes := Without(newHomes, deleted);
      }
      assert newHomes == Without(Somes(files), dropped);
      Finish(ok);
    }

    method Finish(ok: bool)
      modifies this`finished, this`fired, this`phase
      ensures finished && fired == (if old(finished) then old(fired) else old(fired) + 1)
      ensures phase == if old(finished) then old(phase) else Finished(ok)
    {
      if finished {
        return;
      }
      finished, fired := true, fired + 1;
      phase := Finished(ok);
    }

    /** Reads at any moment, through the shards the metadata names: before the switch what the old
        homes read as; after it the frame that was fetched, as long as enough of the new shards are
        left, which they all are unless the switch was answered with an error. If the old homes are
        what was written for a frame, it is that frame throughout. */
    method ReadNow(ghost g: Geometry, ghost id: bytes, ghost frame: bytes) returns (out: Option<bytes>)
      requires Valid()
      ensures switched ==> out == if Count(newHomes) >= newK then Some(held) else None
      ensures switched && !(finished && dropped != {}) ==> Count(newHomes) >= newK
      ensures !switched ==>
        (out.Some? <==> exists f :: ReadsAs(job.homes, code, f)) && (out.Some? ==> ReadsAs(job.homes, code, out.value))
      ensures g.k == job.k && WrittenBy(job.homes, g, code, id, frame) && Count(job.homes) >= g.k ==>
        out == if switched && Count(newHomes) < newK then None else Some(frame)
    {
      hide MDS, ShardFile, CorrectLibrary, ProbeOk, FetchOk, WriteOk, ReadsAs, Encodes, KOf, Count;
      if switched {
        PartReads(files, job.Target(held), code, newId, held, newHomes);
        AllReads(files, job.Target(held), code, newId, held, newHomes);
        out := CoordDurability.ReadShards(newHomes, code);
        if out.Some? {
          ReadsAsOnce(newHomes, code, held, out.value);
        }
        if g.k == job.k && WrittenBy(job.homes, g, code, id, frame) {
          assert HeldAt(job.homes, job.k, code, held);
          WrittenHold(job.homes, g, code, id, frame, held);
        }
      } else {
        out := CoordDurability.ReadShards(oldHomes, code);
        if WrittenBy(job.homes, g, code, id, frame) && Count(job.homes) >= g.k {
          WrittenReads(job.homes, g, code, id, frame);
          ReadsAsOnce(job.homes, code, frame, out.value);
        }
      }
    }

    /** How a finished operation ended. */
    ghost function End(): Ending
      requires Valid() && phase.Finished?
      reads this
    {
      Ending(phase.ok, switched, files, held,
             if |lengths| == |job.homes| then Selected(job.homes, lengths, job.k) else [], oldHomes, newHomes)
    }
  }

  /** Some of the shards of a frame read as it exactly when there are enough of them. */
  lemma PartReads(files: seq<bytes>, h: Geometry, code: Code, id: bytes, held: bytes, part: seq<Option<bytes>>)
    requires Encodes(files, h, code, id, held) && |part| == |files|
    requires forall i :: 0 <= i < |part| && part[i].Some? ==> part[i] == Some(files[i])
    ensures Count(part) >= h.k ==> ReadsAs(part, code, held)
    ensures Count(part) < h.k ==> forall f :: !ReadsAs(part, code, f)
  {
    hide MDS, ShardFile, Count;
    assert WrittenBy(part, h, code, id, held);
    if Count(part) >= h.k {
      WrittenReads(part, h, code, id, held);
    } else {
      forall f | ReadsAs(part, code, f)
        ensures false
      {
        TooFewToRead(part, h, code, id, held, f);
      }
    }
  }

  lemma TooFewToRead(part: seq<Option<bytes>>, h: Geometry, code: Code, id: bytes, held: bytes, f: bytes)
    requires WrittenBy(part, h, code, id, held) && ReadsAs(part, code, f)
    ensures Count(part) >= h.k
  {
    hide MDS, ShardFile, StripeReads, DecodeShard, Count;
    var v: View :| v.shards == part && v.code == code && Reads(v, f);
    WrittenView(v, h, id, held);
  }

  /** With none dropped there are enough. */
  lemma AllReads(files: seq<bytes>, h: Geometry, code: Code, id: bytes, held: bytes, part: seq<Option<bytes>>)
    requires Encodes(files, h, code, id, held)
    ensures part == Without(Somes(files), {}) ==> Count(part) >= h.k
  {
    hide MDS, ShardFile;
    CountSomes(files);
    assert Without(Somes(files), {}) == Somes(files);
  }

  /** What is left when an operation has ended: whether it was acknowledged, whether the metadata names
      the new shards, what was fetched and what it read as, and what the homes hold. */
  datatype Ending = Ending(ok: bool, switched: bool, files: seq<bytes>, held: bytes, fetched: seq<Option<bytes>>,
                           oldHomes: seq<Option<bytes>>, newHomes: seq<Option<bytes>>)

  ghost predicate Ended(j: Job, e: Ending) {
    && (e.ok ==> e.switched && e.newHomes == Somes(e.files)) && (!e.switched ==> e.oldHomes == j.homes)
    && (e.switched ==>
          && KOf(e.fetched, j.homes, j.k) && ReadsAs(e.fetched, j.code, e.held)
          && Encodes(e.files, j.Target(e.held), j.code, j.newId, e.held) && |e.newHomes| == |e.files|
          && forall i :: 0 <= i < |e.files| && e.newHomes[i].Some? ==> e.newHomes[i] == Some(e.files[i]))
  }

  /** Every operation that has finished, after any callbacks, ended so. */
  lemma FinishedEnds(op: ReencodeOp)
    requires op.Valid() && op.phase.Finished?
    ensures Ended(op.job, op.End())
  {
    hide MDS, ReadsAs, Encodes, KOf, CorrectLibrary;
    assert Without(Somes(op.files), {}) == Somes(op.files);
  }

  /** What the shards the metadata then names read as: an acknowledged end keeps a frame exactly when
      what was fetched reads as it, and one answered with an error reads while enough shards are left. */
  lemma EndedReads(j: Job, e: Ending, frame: bytes)
    requires Ended(j, e) && e.switched
    ensures ReadsAs(e.newHomes, j.code, frame) <==> Count(e.newHomes) >= j.newK && ReadsAs(e.fetched, j.code, frame)
    ensures e.ok ==> Count(e.newHomes) >= j.newK && ReadsAs(e.newHomes, j.code, e.held)
  {
    hide MDS, ReadsAs, Encodes, KOf, Count;
    PartReads(e.files, j.Target(e.held), j.code, j.newId, e.held, e.newHomes);
    AllReads(e.files, j.Target(e.held), j.code, j.newId, e.held, e.newHomes);
    assert Without(Somes(e.files), {}) == Somes(e.files);
    if ReadsAs(e.fetched, j.code, frame) {
      ReadsAsOnce(e.fetched, j.code, e.held, frame);
    }
    if ReadsAs(e.newHomes, j.code, frame) {
      ReadsAsOnce(e.newHomes, j.code, e.held, frame);
    }
  }

  datatype Event =
    | Probe(shard: nat, length: Option<nat>)
    | Fetch(piece: nat, body: Option<bytes>)
    | Write(shard: nat, ok: bool, durable: bool, deleted: set<nat>)
    | Answer(ok: bool, committed: bool, deleted: set<nat>)

  /** A callback that can come: each comes once, and says what is so. */
  ghost predicate CanCome(op: ReencodeOp, e: Event)
    requires op.Valid()
    reads op
  {
    match e
    case Probe(i, length) =>
      op.phase == Probing && i in op.awaiting &&
      (length.Some? ==> op.job.homes[i].Some? && length.value == |op.job.homes[i].value|)
    case Fetch(p, b) =>
      op.phase == Fetching && p in op.awaiting
      && (b.Some? && |b.value| == op.pieces[p].len ==>
            b.value == op.job.homes[op.pieces[p].shard].value[op.pieces[p].off..op.pieces[p].off + op.pieces[p].len])
    case Write(i, ok, durable, _) => op.phase == Writing && i in op.awaiting && (ok ==> durable)
    case Answer(ok, committed, _) => op.phase == Proposing && (ok ==> committed)
  }

  method Deliver(op: ReencodeOp, e: Event)
    requires op.Valid() && CanCome(op, e)
    modifies op
    ensures op.Valid() && !old(op.finished)
  {
    hide MDS, ShardFile, ReadsAs, HeldAt, Encodes, CorrectLibrary, ProbeOk, FetchOk, WriteOk;
    match e
    case Probe(i, length) => op.Probed(i, length);
    case Fetch(p, b) => op.Fetched(p, b);
    case Write(i, ok, durable, deleted) => op.Wrote(i, ok, durable, deleted);
    case Answer(ok, committed, deleted) => op.Answered(ok, committed, deleted);
  }

  // ---- a whole run ----

  lemma {:induction false} KnownIsCount(lengths: seq<int>, homes: seq<Option<bytes>>)
    requires |lengths| == |homes| && forall i :: 0 <= i < |homes| ==> (lengths[i] >= 0 <==> homes[i].Some?)
    ensures Known(lengths) == Count(homes)
  {
    if homes != [] {
      KnownIsCount(lengths[..|lengths| - 1], homes[..|homes| - 1]);
    }
  }

  function From(i: nat, n: nat): (s: set<nat>)
    ensures forall x: nat :: x in s <==> i <= x < n
  {
    Below(n) - Below(i)
  }

  lemma FromBelow(n: nat)
    ensures From(0, n) == Below(n)
  {
  }

  lemma FromNext(i: nat, n: nat)
    requires i < n
    ensures From(i, n) - {i} == From(i + 1, n) && (From(i, n) == {i} <==> i + 1 == n)
  {
    if i + 1 < n {
      assert i + 1 in From(i, n);
    }
  }

  /** Every shard still there answers the probe. */
  method ProbeAll(op: ReencodeOp, homes: seq<Option<bytes>>)
    requires op.Valid() && op.phase == Probing && op.job.homes == homes && op.awaiting == Below(|homes|)
    requires op.lengths == seq(|homes|, _ => -1) && |homes| > 0
    modifies op
    ensures op.Valid() && (op.phase == Fetching || op.phase == Writing || op.phase == Finished(false)) && !op.switched
    ensures op.phase == Fetching ==> op.awaiting == Below(|op.pieces|) && op.pieces != [] && !op.failed
    ensures op.phase == Writing ==> !op.writeErr && op.awaiting == Below(|op.files|) && op.pieces == []
    ensures op.phase.Finished? ==>
      Count(homes) < op.oldK || !ValidParams(op.newK, op.newM) || op.job.Unreadable(op.lengths)
    ensures |op.lengths| == |homes| && forall j :: 0 <= j < |homes| ==> (op.lengths[j] >= 0 <==> homes[j].Some?)
  {
    hide MDS, ReadsAs, HeldAt, Encodes, CorrectLibrary, ProbeOk, FetchOk, WriteOk, Known, Below, From, ValidParams,
      Job.Unreadable;
    FromBelow(|homes|);
    for i := 0 to |homes|
      invariant op.Valid() && |op.lengths| == |homes|
      invariant forall j :: 0 <= j < i ==> (op.lengths[j] >= 0 <==> homes[j].Some?)
      invariant forall j :: i <= j < |homes| ==> op.lengths[j] == -1
      invariant i < |homes| ==> op.phase == Probing && op.awaiting == From(i, |homes|)
      invariant i == |homes| ==> op.phase == Fetching || op.phase == Writing || op.phase == Finished(false)
      invariant !op.switched
      invariant op.phase == Fetching ==> op.awaiting == Below(|op.pieces|) && op.pieces != [] && !op.failed
      invariant op.phase == Writing ==> !op.writeErr && op.awaiting == Below(|op.files|) && op.pieces == []
      invariant op.phase.Finished? ==>
        Known(op.lengths) < op.oldK || !ValidParams(op.newK, op.newM) || op.job.Unreadable(op.lengths)
    {
      FromNext(i, |homes|);
      op.Probed(i, if homes[i].Some? then Some(|homes[i].value|) else None);
    }
    KnownIsCount(op.lengths, homes);
  }

  lemma PieceOfHome(j: Job, lengths: seq<int>, buffers: seq<Option<bytes>>, pieces: seq<Piece>, awaiting: set<nat>,
                    p: nat)
    requires FetchOk(j, lengths, buffers, pieces, false, awaiting) && p < |pieces|
    ensures pieces[p].shard < |j.homes| && j.homes[pieces[p].shard].Some?
    ensures pieces[p].off + pieces[p].len <= |j.homes[pieces[p].shard].value|
  {
    assert Inside(pieces[p], buffers);
  }

  /** Every fetch brings its piece. */
  method FetchAll(op: ReencodeOp, homes: seq<Option<bytes>>)
    requires op.Valid() && op.phase == Fetching && op.job.homes == homes
    requires op.awaiting == Below(|op.pieces|) && op.pieces != [] && !op.failed
    modifies op
    ensures op.Valid() && (op.phase == Writing || op.phase == Finished(false)) && !op.switched
    ensures op.phase == Writing ==> !op.writeErr && op.awaiting == Below(|op.files|)
    ensures op.phase.Finished? ==> !ValidParams(op.newK, op.newM) || op.job.Unreadable(op.lengths)
    ensures op.lengths == old(op.lengths)
  {
    hide MDS, ReadsAs, HeldAt, Encodes, CorrectLibrary, ProbeOk, FetchOk, WriteOk, Below, From, ValidParams,
      Job.Unreadable;
    var pieces := op.pieces;
    FromBelow(|pieces|);
    for p := 0 to |pieces|
      invariant op.Valid() && !op.failed && op.lengths == old(op.lengths) && !op.switched
      invariant p < |pieces| ==> op.phase == Fetching && op.pieces == pieces && op.awaiting == From(p, |pieces|)
      invariant p == |pieces| ==> op.phase == Writing || op.phase == Finished(false)
      invariant op.phase == Writing ==> !op.writeErr && op.awaiting == Below(|op.files|)
      invariant op.phase.Finished? ==> !ValidParams(op.newK, op.newM) || op.job.Unreadable(op.lengths)
    {
      FromNext(p, |pieces|);
      PieceOfHome(op.job, op.lengths, op.buffers, pieces, op.awaiting, p);
      op.Fetched(p, Some(homes[pieces[p].shard].value[pieces[p].off..pieces[p].off + pieces[p].len]));
    }
  }

  /** Every new shard is written. */
  method WriteAll(op: ReencodeOp)
    requires op.Valid() && op.phase == Writing && op.awaiting == Below(|op.files|) && !op.writeErr
    modifies op
    ensures op.Valid() && op.phase == Proposing && op.files == old(op.files) && op.held == old(op.held)
    ensures op.lengths == old(op.lengths)
  {
    hide MDS, ReadsAs, HeldAt, Encodes, CorrectLibrary, ProbeOk, FetchOk, WriteOk, Below, From;
    var n := |op.files|;
    FromBelow(n);
    for i := 0 to n
      invariant op.Valid() && !op.writeErr && op.files == old(op.files) && op.held == old(op.held)
      invariant op.lengths == old(op.lengths)
      invariant i < n ==> op.phase == Writing && op.awaiting == From(i, n)
      invariant i == n ==> op.phase == Proposing
    {
      FromNext(i, n);
      op.Wrote(i, true, true, {});
    }
  }

  /** When every home with a shard answers, the first k present are fetched. */
  lemma SelectedIsFirst(homes: seq<Option<bytes>>, lengths: seq<int>, k: nat)
    requires |lengths| == |homes| && forall i :: 0 <= i < |homes| ==> (lengths[i] >= 0 <==> homes[i].Some?)
    ensures Selected(homes, lengths, k) == FirstPresent(homes, k) && Known(lengths) == Count(homes)
  {
    hide Known, Count;
    KnownIsCount(lengths, homes);
    forall i | 0 <= i < |homes|
      ensures Selected(homes, lengths, k)[i] == FirstPresent(homes, k)[i]
    {
      KnownIsCount(lengths[..i], homes[..i]);
    }
  }

  lemma EncodesValid(files: seq<bytes>, h: Geometry, code: Code, id: bytes, frame: bytes)
    requires Encodes(files, h, code, id, frame)
    ensures ValidParams(h.k, h.m)
  {
  }

  lemma {:induction false} FewerPresent(part: seq<Option<bytes>>, homes: seq<Option<bytes>>)
    requires |part| == |homes| && forall i :: 0 <= i < |part| && part[i].Some? ==> part[i] == homes[i]
    ensures Count(part) <= Count(homes)
  {
    if homes != [] {
      FewerPresent(part[..|part| - 1], homes[..|homes| - 1]);
    }
  }

  /** What a switch says of the first k shards present. */
  lemma WholeIsFirst(j: Job, lengths: seq<int>, files: seq<bytes>, held: bytes)
    requires j.Whole(lengths, files, held) && |lengths| == |j.homes|
    requires forall i :: 0 <= i < |lengths| ==> (lengths[i] >= 0 <==> j.homes[i].Some?)
    ensures Count(j.homes) >= j.k && ReadsAs(FirstPresent(j.homes, j.k), j.code, held) && ValidParams(j.newK, j.newM)
  {
    hide ReadsAs, Encodes, Count, Known;
    SelectedIsFirst(j.homes, lengths, j.k);
    FewerPresent(Selected(j.homes, lengths, j.k), j.homes);
    EncodesValid(files, j.Target(held), j.code, j.newId, held);
  }

  /** Every callback a success, up to the switch: it is proposed exactly when the profile is valid and
      k shards are present whose first k read as a frame. Shards past the first k make no difference. */
  method RunToSwitch(homes: seq<Option<bytes>>, newK: int, newM: int, newId: bytes, sliceSize: int, code: Code, k: nat)
    returns (op: ReencodeOp)
    requires CorrectLibrary(code) && |homes| > 0 && |newId| == 16 && 0 < sliceSize < TwoTo64 / 2
    ensures fresh(op) && op.Valid() && op.job == Job(k, code, homes, newK, newM, newId, sliceSize) && !op.switched
    ensures op.phase == if op.finished then Finished(false) else Proposing
    ensures !op.finished <==>
      ValidParams(newK, newM) && Count(homes) >= k && exists f :: ReadsAs(FirstPresent(homes, k), code, f)
    ensures !op.finished ==>
      op.job.Whole(op.lengths, op.files, op.held) && ReadsAs(FirstPresent(homes, k), code, op.held)
  {
    hide MDS, ReadsAs, CorrectLibrary, ProbeOk, FetchOk, WriteOk, Count, ValidParams, HeldAt, Encodes, KOf, Known;
    op := new ReencodeOp(homes, k, newK, newM, newId, sliceSize, code,
                         Job(k, code, homes, newK, newM, newId, sliceSize));
    ProbeAll(op, homes);
    SelectedIsFirst(homes, op.lengths, k);
    if !op.finished && op.pieces != [] {
      FetchAll(op, homes);
    }
    if op.finished {
      return;
    }
    WriteAll(op);
    WritesWhole(op.job, op.lengths, op.files, op.held, op.newHomes);
    WholeIsFirst(op.job, op.lengths, op.files, op.held);
  }

  lemma WritesWhole(j: Job, lengths: seq<int>, files: seq<bytes>, held: bytes, newHomes: seq<Option<bytes>>)
    requires WriteOk(j, lengths, files, held, newHomes, false, {})
    ensures j.Whole(lengths, files, held)
  {
    hide ReadsAs, Encodes, KOf;
  }

  /** With the switch acknowledged the operation ends well, and the version holds the frame that was
      fetched. */
  method RunAll(homes: seq<Option<bytes>>, newK: int, newM: int, newId: bytes, sliceSize: int, code: Code, k: nat)
    returns (op: ReencodeOp)
    requires CorrectLibrary(code) && |homes| > 0 && |newId| == 16 && 0 < sliceSize < TwoTo64 / 2
    ensures fresh(op) && op.Valid() && op.job == Job(k, code, homes, newK, newM, newId, sliceSize)
    ensures op.phase == Finished(op.switched)
    ensures op.switched <==>
      ValidParams(newK, newM) && Count(homes) >= k && exists f :: ReadsAs(FirstPresent(homes, k), code, f)
    ensures op.switched ==> ReadsAs(FirstPresent(homes, k), code, op.held)
    ensures op.switched ==>
      Encodes(op.files, op.job.Target(op.held), code, newId, op.held) && op.newHomes == Somes(op.files)
  {
    hide MDS, ReadsAs, CorrectLibrary, ProbeOk, FetchOk, WriteOk, Count, ValidParams, HeldAt, Encodes, KOf;
    op := RunToSwitch(homes, newK, newM, newId, sliceSize, code, k);
    if !op.finished {
      op.Answered(true, true, {});
    }
  }

  /** The switch commits and its answer is lost: the operation reports failure and drops the new
      shards, which are the ones the metadata names. Intact old shards are left, and the version
      does not read. */
  method LostAnswerRun(homes: seq<Option<bytes>>, newK: int, newM: int, newId: bytes, sliceSize: int, code: Code,
                       k: nat,
                       ghost g: Geometry, ghost id: bytes, ghost frame: bytes)
    returns (op: ReencodeOp, out: Option<bytes>)
    requires CorrectLibrary(code) && ValidParams(newK, newM) && |newId| == 16 && 0 < sliceSize < TwoTo64 / 2
    requires WrittenBy(homes, g, code, id, frame) && Count(homes) >= g.k == k && |homes| > 0
    ensures fresh(op) && op.Valid() && op.phase == Finished(false) && op.switched
    ensures op.oldHomes == homes && op.held == frame && out == None
  {
    hide MDS, ReadsAs, CorrectLibrary, ProbeOk, FetchOk, WriteOk, Count, ValidParams, HeldAt, Encodes, KOf, WrittenBy;
    FirstReads(homes, g, code, id, frame);
    op := RunToSwitch(homes, newK, newM, newId, sliceSize, code, k);
    ReadsAsOnce(FirstPresent(homes, k), code, op.held, frame);
    var all := Below(|op.files|);
    op.Answered(false, true, all);
    NoneLeft(op.files, all);
    EncodesValid(op.files, op.job.Target(op.held), code, newId, op.held);
    ProfilePositive(newK, newM);
    out := op.ReadNow(g, id, frame);
  }

  lemma ProfilePositive(k: int, m: int)
    requires ValidParams(k, m)
    ensures k > 0
  {
  }

  lemma NoneLeft(files: seq<bytes>, all: set<nat>)
    requires all == Below(|files|)
    ensures Count(Without(Somes(files), all)) == 0
  {
    hide Count;
    var gone := Without(Somes(files), all);
    NonePast(gone, 0, |gone|);
    assert gone[..|gone|] == gone && gone[..0] == [];
    NoPieces();
  }

  /** The first k of a written set read as its frame. */
  lemma FirstReads(homes: seq<Option<bytes>>, g: Geometry, code: Code, id: bytes, frame: bytes)
    requires WrittenBy(homes, g, code, id, frame) && Count(homes) >= g.k
    ensures ReadsAs(FirstPresent(homes, g.k), code, frame)
  {
    hide MDS, ShardFile, ReadsAs, Count;
    var first := FirstPresent(homes, g.k);
    PartWritten(first, homes, g, code, id, frame);
    FirstCount(homes, g.k, |homes|);
    assert homes[..|homes|] == homes && first[..|homes|] == first;
    WrittenReads(first, g, code, id, frame);
  }

  lemma {:induction false} FirstCount(homes: seq<Option<bytes>>, k: nat, n: nat)
    requires n <= |homes|
    ensures Count(FirstPresent(homes, k)[..n]) == if Count(homes[..n]) < k then Count(homes[..n]) else k
  {
    var first := FirstPresent(homes, k);
    if n > 0 {
      FirstCount(homes, k, n - 1);
      PrefixCount(homes, n);
      PrefixCount(first, n);
    }
  }

  /** One byte of a data shard changed, the other data shards in place, any parity shards present or
      not: the operation still ends well, and the version holds the recorded frame exactly when the
      byte was padding. */
  method RottedRun(homes: seq<Option<bytes>>, newK: int, newM: int, newId: bytes, sliceSize: int, code: Code, k: nat,
                   ghost v: View, ghost frame: bytes, ghost p: Place, ghost b: byte)
    returns (op: ReencodeOp)
    requires CorrectLibrary(code) && ValidParams(newK, newM) && |newId| == 16 && 0 < sliceSize < TwoTo64 / 2
    requires Rottable(v, frame, p) && Rotted(v, frame, p, b) != v && v.code == code
    requires homes == Rotted(v, frame, p, b).shards && k == v.geo.k
    ensures fresh(op) && op.Valid() && op.phase == Finished(true) && op.switched
    ensures op.held == RottedFrame(v.geo, frame, p, b)
    ensures Encodes(op.files, op.job.Target(frame), code, newId, frame) <==> Padding(v.geo, p)
  {
    hide MDS, ReadsAs, CorrectLibrary, ProbeOk, FetchOk, WriteOk, Count, HeldAt, Encodes, KOf, Padding, RottedFrame;
    RottedOpens(v, frame, p, b);
    DataFirst(v, frame, p, b);
    hide Rottable, Rotted;
    op := RunAll(homes, newK, newM, newId, sliceSize, code, k);
    var first := FirstPresent(homes, k);
    ReadsAsOnce(first, code, op.held, RottedFrame(v.geo, frame, p, b));
    KeepsFrameExactly(first, code, op.held, frame, op.files, newK, newM, sliceSize, newId);
  }

  lemma {:induction false} CountFull(s: seq<Option<bytes>>, n: nat)
    requires n <= |s| && forall i :: 0 <= i < n ==> s[i].Some?
    ensures Count(s[..n]) == n
  {
    if n > 0 {
      CountFull(s, n - 1);
      PrefixCount(s, n);
    }
  }

  lemma {:induction false} CountGrows(s: seq<Option<bytes>>, n: nat, i: nat)
    requires n <= i <= |s|
    ensures Count(s[..n]) <= Count(s[..i])
    decreases i
  {
    if n < i {
      CountGrows(s, n, i - 1);
      PrefixCount(s, i);
    }
  }

  /** With every data shard in place, the first k present are the data shards. */
  lemma FirstIsData(s: seq<Option<bytes>>, k: nat)
    requires k <= |s| && forall i :: 0 <= i < k ==> s[i].Some?
    ensures forall i :: 0 <= i < |s| ==> FirstPresent(s, k)[i] == if i < k then s[i] else None
    ensures Count(FirstPresent(s, k)) == k && Count(s) >= k
  {
    hide Count;
    var first := FirstPresent(s, k);
    forall i | 0 <= i < |s|
      ensures first[i] == if i < k then s[i] else None
    {
      if i < k {
        CountFull(s, i);
      } else {
        CountFull(s, k);
        CountGrows(s, k, i);
      }
    }
    CountFull(s, k);
    CountGrows(s, k, |s|);
    assert s[..|s|] == s;
    CountFull(first, k);
    NonePast(first, k, |s|);
    assert first[..|s|] == first;
  }

  lemma {:induction false} NonePast(s: seq<Option<bytes>>, k: nat, n: nat)
    requires k <= n <= |s| && forall i :: k <= i < |s| ==> s[i].None?
    ensures Count(s[..n]) == Count(s[..k])
    decreases n
  {
    if k < n {
      NonePast(s, k, n - 1);
      PrefixCount(s, n);
    }
  }

  /** The data shards of a genuine set, by themselves. */
  lemma DataView(v: View, frame: bytes) returns (d: View)
    requires Genuine(v, frame) && AllDataPresent(v)
    ensures Genuine(d, frame) && AllDataPresent(d) && d.geo == v.geo && d.code == v.code && d.id == v.id
    ensures v.geo.k <= |v.shards| && d.shards == FirstPresent(v.shards, v.geo.k)
    ensures forall i :: 0 <= i < v.geo.k ==> v.shards[i].Some? && d.shards[i] == v.shards[i] && d.offs[i] == v.offs[i]
  {
    hide MDS, DecodeShard, ShardFile, Count;
    var k := v.geo.k;
    assert forall i :: 0 <= i < k ==> v.shards[i].Some?;
    FirstIsData(v.shards, k);
    var part := FirstPresent(v.shards, k);
    assert WrittenBy(v.shards, v.geo, v.code, v.id, frame);
    PartWritten(part, v.shards, v.geo, v.code, v.id, frame);
    d := WrittenOpens(part, v.geo, v.code, v.id, frame);
    WrittenView(d, v.geo, v.id, frame);
  }

  /** Rot in a data shard, seen by fetching the first k present: as if the parity were not there. */
  lemma DataFirst(v: View, frame: bytes, p: Place, b: byte)
    requires Rottable(v, frame, p) && Rotted(v, frame, p, b) != v
    ensures var s := Rotted(v, frame, p, b).shards; var first := FirstPresent(s, v.geo.k);
      && Count(s) >= v.geo.k
      && ReadsAs(first, v.code, RottedFrame(v.geo, frame, p, b)) &&
        (ReadsAs(first, v.code, frame) <==> Padding(v.geo, p))
  {
    hide MDS, DecodeShard, ShardFile, Count, ReadsAs, RottedFrame, Padding, Agree;
    var d := DataView(v, frame);
    SameRot(v, d, frame, p, b);
    RottedAs(d, frame, p, b);
  }

  lemma SameRot(v: View, d: View, frame: bytes, p: Place, b: byte)
    requires Rottable(v, frame, p) && Rotted(v, frame, p, b) != v
    requires Genuine(d, frame) && AllDataPresent(d) && d.geo == v.geo && d.code == v.code
    requires v.geo.k <= |v.shards| && d.shards == FirstPresent(v.shards, v.geo.k)
    requires forall i :: 0 <= i < v.geo.k ==> v.shards[i].Some? && d.shards[i] == v.shards[i] && d.offs[i] == v.offs[i]
    ensures Rottable(d, frame, p) && Rotted(d, frame, p, b) != d
    ensures Rotted(d, frame, p, b).shards == FirstPresent(Rotted(v, frame, p, b).shards, v.geo.k)
    ensures Count(Rotted(v, frame, p, b).shards) >= v.geo.k
  {
    hide MDS, DecodeShard, ShardFile, Count, Agree;
    PlaceInFile(v, frame, p);
    PlaceInFile(d, frame, p);
    var was, now := v.shards, Rotted(v, frame, p, b).shards;
    FirstIsData(was, v.geo.k);
    FirstIsData(now, v.geo.k);
    OtherFile(was, p.shard, now[p.shard]);
    assert Rotted(d, frame, p, b).shards[p.shard] == now[p.shard];
  }

  lemma RottedOpens(v: View, frame: bytes, p: Place, b: byte)
    requires Rottable(v, frame, p)
    ensures |Rotted(v, frame, p, b).shards| > 0
  {
    hide MDS, DecodeShard, ShardFile, Count;
  }

  lemma RottedAs(v: View, frame: bytes, p: Place, b: byte)
    requires Rottable(v, frame, p) && Rotted(v, frame, p, b) != v
    ensures var s := Rotted(v, frame, p, b).shards;
      ReadsAs(s, v.code, RottedFrame(v.geo, frame, p, b)) && (ReadsAs(s, v.code, frame) <==> Padding(v.geo, p))
  {
    hide MDS, ShardFile, StripeReads, DecodeShard, Count;
    var w, held := Rotted(v, frame, p, b), RottedFrame(v.geo, frame, p, b);
    RottedByteExactly(v, frame, p, b);
    ReadsIs(w, held);
    if ReadsAs(w.shards, v.code, frame) {
      ReadsAsOnce(w.shards, v.code, frame, held);
    }
  }

  function Below(n: nat): (s: set<nat>)
    ensures |s| == n && forall i: nat :: i in s <==> i < n
  {
    if n == 0 then {} else Below(n - 1) + {n - 1}
  }

  function Without(homes: seq<Option<bytes>>, deleted: set<nat>): (s: seq<Option<bytes>>)
    ensures |s| == |homes| && forall i :: 0 <= i < |s| ==> s[i] == if i in deleted then None else homes[i]
  {
    seq(|homes|, i requires 0 <= i < |homes| => if i in deleted then None else homes[i])
  }

  lemma OneLess(s: set<nat>, x: nat)
    requires x in s
    ensures |s - {x}| == |s| - 1 && (s == {x} <==> |s| == 1) && (s - {x} == {} <==> s == {x})
  {
    if |s| == 1 {
      assert s - {x} == {};
    }
  }

  /** A piece that did not come fails the fetch and nothing else. */
  lemma PieceMissing(j: Job, lengths: seq<int>, buffers: seq<Option<bytes>>, pieces: seq<Piece>, failed: bool,
                     awaiting: set<nat>, p: nat)
    requires FetchOk(j, lengths, buffers, pieces, failed, awaiting) && p in awaiting
    ensures p < |pieces| && Inside(pieces[p], buffers) && FetchOk(j, lengths, buffers, pieces, true, awaiting - {p})
  {
    hide Tiled, Landed, Count;
  }

  /** One more piece keeps the others. */
  lemma PieceIn(j: Job, lengths: seq<int>, buffers: seq<Option<bytes>>, pieces: seq<Piece>, failed: bool,
                awaiting: set<nat>, p: nat, data: bytes)
    requires FetchOk(j, lengths, buffers, pieces, failed, awaiting) && p in awaiting && |data| == pieces[p].len
    requires data == j.homes[pieces[p].shard].value[pieces[p].off..pieces[p].off + pieces[p].len]
    ensures Inside(pieces[p], buffers)
    ensures FetchOk(j, lengths,
                    buffers[pieces[p].shard := Some(Splice(buffers[pieces[p].shard].value, pieces[p].off, data))],
                    pieces, failed, awaiting - {p})
  {
    var more := buffers[pieces[p].shard := Some(Splice(buffers[pieces[p].shard].value, pieces[p].off, data))];
    forall q | 0 <= q < |pieces|
      ensures Inside(pieces[q], more)
      ensures !failed && q !in awaiting - {p} ==> Landed(pieces[q], more, j.homes)
    {
      PieceCopied(pieces[p], pieces[q], buffers, j.homes, data);
    }
    SamePresence(buffers, more);
  }

  lemma {:induction false} SamePresence(a: seq<Option<bytes>>, b: seq<Option<bytes>>)
    requires |a| == |b| && forall i :: 0 <= i < |a| ==> a[i].Some? == b[i].Some?
    ensures Count(a) == Count(b)
  {
    if a != [] {
      SamePresence(a[..|a| - 1], b[..|b| - 1]);
    }
  }
}
