/** Re-encoding a frame to another profile: read it back through any k of its shards and
    stream it into an encoder at the new parameters. */
module EcReencode {
  import opened Bytes
  import opened EcGeometry
  import opened EcStripe
  import opened EcReader
  import opened EcWriter
  import opened EcReconstruct

  const CopyBuffer := 32768

  datatype ReencodeError = Source(opening: OpenError) | Encoder(encoding: WriterError) | Read(reading: ReadError)

  /** These are the shard files of a frame. */
  ghost predicate Encodes(files: seq<bytes>, h: Geometry, code: Code, id: bytes, frame: bytes) {
    && Writable(h, id) && |frame| == h.frameSize && MDS(code, h.k, h.m) && |files| == h.Width()
    && forall i :: 0 <= i < |files| ==> files[i] == ShardFile(h, code, id, frame, i)
  }

  /** Re-encoding any shards at newK+newM: it succeeds exactly when the profile is valid and they
      read as some frame, and then yields the shard files writing that frame would have. */
  method Reencode(shards: seq<Option<bytes>>, newId: bytes, newK: int, newM: int, sliceSize: int, code: Code)
    returns (r: Result<seq<bytes>, ReencodeError>, ghost held: bytes)
    requires CorrectLibrary(code) && |newId| == 16 && 0 < sliceSize < TwoTo64 / 2
    ensures r.Ok? <==> ValidParams(newK, newM) && exists f :: ReadsAs(shards, code, f)
    ensures r.Ok? ==>
      ReadsAs(shards, code, held) && Encodes(r.value, Geometry(newK, newM, sliceSize, |held|), code, newId, held)
  {
    hide MDS, Count, ShardFile, Opened, Filling, Agree, Reads;
    held := [];
    if exists f :: ReadsAs(shards, code, f) {
      held :| ReadsAs(shards, code, held);
      OpensToRead(shards, code, held);
    }
    var source := Reader.Open(shards, code);
    if source.Err? {
      return Err(Source(source.error)), held;
    }
    var reader := source.value;
    var frameSize := ViewFrameSize(reader.view);
    LibraryAt(code, newK, newM);
    var encoder := Writer.Create(newId, newK, newM, sliceSize, frameSize, if ValidParams(newK, newM) then newK + newM
                                 else 0, code);
    if encoder.Err? {
      return Err(Encoder(encoder.error)), held;
    }
    var w := encoder.value;
    held := HeldBy(reader.view);
    var copied := Copy(reader, w, held);
    if copied.Some? {
      NothingReads(reader.view);
      return Err(copied.value), held;
    }
    ReadsIs(reader.view, held);
    var closing := w.Close();
    match closing
    case Some(e) => r := Err(Encoder(e));
    case None => r := Ok(w.sinks);
  }

  /** A set that reads as a frame opens. */
  lemma OpensToRead(shards: seq<Option<bytes>>, code: Code, frame: bytes)
    requires ReadsAs(shards, code, frame)
    ensures exists g: Geometry, id: bytes :: Agree(shards, g, id) && 1 <= Count(shards) && Count(shards) >= g.k
  {
    hide MDS, StripeReads;
    var v: View :| v.shards == shards && v.code == code && Reads(v, frame);
    assert Agree(shards, v.geo, v.id);
  }

  /** The frame an opened set reads as, if it reads as one. */
  lemma HeldBy(v: View) returns (held: bytes)
    requires Opened(v)
    ensures Readable(v) <==> Reads(v, held)
  {
    hide MDS, Agree, Count, StripeOf;
    held := [];
    if Readable(v) {
      held := EcReader.Stripes(v, v.geo.Stripes());
      ReadableReads(v);
    } else if Reads(v, held) {
      ReadsReadable(v, held);
    }
  }

  lemma ReadsReadable(v: View, frame: bytes)
    requires Reads(v, frame)
    ensures Readable(v)
  {
    hide MDS, Agree, Count, StripeOf;
    forall si: nat | si < v.geo.Stripes()
      ensures StripeOf(v, si).Some?
    {
      assert StripeReads(v, frame, si);
    }
  }

  lemma ReadsIs(v: View, frame: bytes)
    requires Reads(v, frame)
    ensures ReadsAs(v.shards, v.code, frame)
  {
    hide Reads;
  }

  lemma NothingReads(v: View)
    requires Opened(v) && !Readable(v)
    ensures forall f :: !ReadsAs(v.shards, v.code, f)
  {
    hide Opened;
    forall f | ReadsAs(v.shards, v.code, f)
      ensures false
    {
      var w: View :| w.shards == v.shards && w.code == v.code && Reads(w, f);
      OneView(v, w);
      ReadsReadable(v, f);
    }
  }

  lemma LibraryAt(code: Code, k: int, m: int)
    requires CorrectLibrary(code)
    ensures ValidParams(k, m) ==> MDS(code, k, m)
  {
    hide MDS;
  }

  /** The frame size every header agreed on. */
  method ViewFrameSize(v: View) returns (n: int)
    requires Opened(v)
    ensures n == v.geo.frameSize && 0 < n < TwoTo64 / 2
  {
    hide MDS;
    ghost var i := SomePresent(v.shards);
    ViewStorable(v, i);
    n := v.geo.frameSize;
  }

  /** io.Copy from the reader's whole frame into the encoder, one buffer at a time. */
  method Copy(reader: Reader, w: Writer, ghost frame: bytes) returns (err: Option<ReencodeError>)
    requires reader.Valid() && w.Valid() && !w.closed && w.frame == [] && w.geo.frameSize == reader.view.geo.frameSize
    requires Readable(reader.view) <==> Reads(reader.view, frame)
    modifies reader, w
    ensures w.Valid() && !w.closed
    ensures err.None? <==> Reads(reader.view, frame)
    ensures err.None? ==> w.frame == frame && |frame| == w.geo.frameSize
  {
    assert Reads(reader.view, frame) ==> |frame| == reader.view.geo.frameSize;
    hide MDS, Opened, Filling, Ready, Reads, Readable, StripeUnder;
    var pos := 0;
    while pos < reader.view.geo.frameSize
      invariant 0 <= pos <= reader.view.geo.frameSize == w.geo.frameSize
      invariant reader.Valid() && w.Valid() && !w.closed && |w.frame| == pos
      invariant Covered(reader.view, 0, pos)
      invariant Reads(reader.view, frame) ==> w.frame == frame[..pos]
      decreases reader.view.geo.frameSize - pos
    {
      var left := reader.view.geo.frameSize - pos;
      var buf := new byte[if left < CopyBuffer then left else CopyBuffer];
      var n, e := reader.ReadAt(buf, pos, frame);
      if e.Some? {
        return Some(Read(e.value));
      }
      var wrote, we := w.Write(buf[..n]);
      if Reads(reader.view, frame) {
        Adjacent(frame, 0, pos, pos + n);
      }
      pos := pos + n;
    }
    CoveredIsReadable(reader.view);
    assert frame[..pos] == frame;
    err := None;
  }
}
