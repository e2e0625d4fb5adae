/** The stripe arithmetic of an erasure-coded frame: how `frameSize` bytes lay out as
    stripes of `k` slices, the last stripe short. */
module EcGeometry {
  import opened Arith

  /** What Hamster writes: at least one data shard, at most 256 shards, and no parity
      only for a single whole copy. */
  predicate ValidParams(k: int, m: int) {
    1 <= k && 0 <= m && k + m <= 256 && (m == 0 ==> k == 1)
  }

  datatype Geometry = Geometry(k: int, m: int, sliceSize: int, frameSize: int) {

    predicate Valid() {
      ValidParams(k, m) && sliceSize > 0 && frameSize > 0
    }

    function Width(): int { k + m }

    function StripeBytes(): (n: int)
      requires Valid()
      ensures n > 0
    {
      MulPositive(k, sliceSize);
      k * sliceSize
    }

    /** How many stripes carry slices of the full size. */
    function FullStripes(): (n: nat)
      requires Valid()
    {
      frameSize / StripeBytes()
    }

    /** How long the slices of the short stripe at the end are, or 0 if every stripe is full. */
    function LastLen(): (l: nat)
      requires Valid()
    {
      DivMod(frameSize, StripeBytes());
      var rem := frameSize % StripeBytes();
      if rem == 0 then 0
      else
        DivMod(rem - 1, k);
        (rem - 1) / k + 1
    }

    function Stripes(): (n: nat)
      requires Valid()
    {
      FullStripes() + if LastLen() > 0 then 1 else 0
    }

    /** For a stripe: how many bytes each shard holds of it, and from where in the payload. */
    function StripeSlice(si: nat): (lo: (nat, nat))
      requires Valid()
    {
      MulNonNegative(si, sliceSize);
      MulNonNegative(FullStripes(), sliceSize);
      if si < FullStripes() then (sliceSize, si * sliceSize)
      else (LastLen(), FullStripes() * sliceSize)
    }

    /** Where stripe `si` starts in the frame. */
    function StripeStart(si: nat): (n: nat)
      requires Valid()
    {
      MulNonNegative(si, StripeBytes());
      si * StripeBytes()
    }

    /** The bytes stripe `si` occupies across its k data slices, padding included. */
    function PaddedLen(si: nat): (n: nat)
      requires Valid()
    {
      MulNonNegative(k, StripeSlice(si).0);
      k * StripeSlice(si).0
    }

    /** How many frame bytes stripe `si` carries. */
    function StripeData(si: nat): (n: nat)
      requires Valid()
    {
      DivMod(frameSize, StripeBytes());
      if si < FullStripes() then k * sliceSize
      else frameSize - FullStripes() * (k * sliceSize)
    }
  }

  /** `(rem - 1) / k + 1` is the ceiling: the k slices hold the remainder, with less than
      one slice to spare, and never exceed the full slice size. */
  lemma CeilingFits(rem: int, k: int, size: int)
    requires 0 < rem < k * size && k >= 1 && size > 0
    ensures var l := (rem - 1) / k + 1;
      1 <= l <= size && rem <= k * l < rem + k
  {
    var q := (rem - 1) / k;
    DivMod(rem - 1, k);
    assert k * (q + 1) == k * q + k;
    if q >= size {
      LeMul(size, q, k);
      assert false;
    }
  }

  /** Every stripe of the frame: its bytes lie inside the frame, start right after the
      stripe before it, and fit its k slices with less than one byte per slice to spare;
      the stripes together cover the frame exactly. */
  lemma StripesTileFrame(g: Geometry, si: nat)
    requires g.Valid() && si < g.Stripes()
    ensures g.StripeStart(si) + g.StripeData(si)
         == if si == g.Stripes() - 1 then g.frameSize else g.StripeStart(si + 1)
    ensures g.StripeStart(si) + g.StripeData(si) <= g.frameSize
    ensures 0 < g.StripeData(si) <= g.PaddedLen(si) < g.StripeData(si) + g.k
    ensures 1 <= g.StripeSlice(si).0 <= g.sliceSize
    ensures g.StripeSlice(si).1 == si * g.sliceSize
    ensures si < g.Stripes() - 1 ==> g.StripeSlice(si).0 == g.sliceSize
  {
    var sb := g.StripeBytes();
    var full := g.FullStripes();
    var rem := g.frameSize % sb;
    DivMod(g.frameSize, sb);
    if si < full {
      LeMul(si + 1, full, sb);
      assert (si + 1) * sb == si * sb + sb;
    } else {
      CeilingFits(rem, g.k, g.sliceSize);
    }
  }

  /** The stripe holding a frame offset. */
  lemma OffsetInStripe(g: Geometry, off: nat)
    requires g.Valid() && off < g.frameSize
    ensures var si := off / g.StripeBytes();
      0 <= si < g.Stripes() && 0 <= off - g.StripeStart(si) < g.StripeData(si)
  {
    var sb := g.StripeBytes();
    var si := off / sb;
    DivMod(off, sb);
    DivMod(g.frameSize, sb);
    var full := g.FullStripes();
    if si > full {
      LeMul(full + 1, si, sb);
      assert false;
    } else if si == full {
      CeilingFits(g.frameSize % sb, g.k, g.sliceSize);
    }
  }
}
