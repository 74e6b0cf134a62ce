/**
 * The favicon colour picker of the tab strip (controls/strip/color.js).
 *
 * `get` samples every `quality`-th pixel of an RGBA image, keeps the pixels
 * that are mostly opaque and not white, puts each into a bucket of
 * 10x10x10 colour values, and returns the first pixel of the most populated
 * bucket. The canvas that produces the pixel bytes is not modelled: the
 * image is its byte array, four bytes per pixel.
 */
module Color {
  import opened JsValues

  /** One byte of the canvas data array. */
  type Byte = x: int | 0 <= x < 256

  datatype Rgba = Rgba(r: Byte, g: Byte, b: Byte, a: Byte)

  datatype Rgb = Rgb(r: Byte, g: Byte, b: Byte)

  /** A bucket key `floor(r/10)_floor(g/10)_floor(b/10)`, kept as its three
      numbers (the string form is injective on them). */
  datatype Bucket = Bucket(r: int, g: int, b: int)

  /** A bucket: how many pixels fell into it, and those pixels in order. */
  datatype Bin = Bin(count: nat, pixels: seq<Rgb>)

  /** The running state of the loop: the buckets, the best count so far and
      the bucket that reached it. */
  datatype Tally = Tally(buckets: map<Bucket, Bin>, bestCount: nat, best: Option<Bucket>)

  /** Sampling stride used when the caller gives none. */
  const DefaultQuality := 5

  /** The pixel at index `i`: bytes `4*i .. 4*i+3`. */
  function PixelAt(data: seq<Byte>, i: nat): (p: Rgba)
    requires 4 * i + 3 < |data|
    ensures p.r == data[4 * i] && p.a == data[4 * i + 3]
  {
    Rgba(data[4 * i], data[4 * i + 1], data[4 * i + 2], data[4 * i + 3])
  }

  /** Mostly opaque and not white. */
  predicate Counted(p: Rgba) {
    p.a >= 125 && !(p.r > 250 && p.g > 250 && p.b > 250)
  }

  /** All three channels above 250. */
  predicate Whitish(c: Rgb) {
    c.r > 250 && c.g > 250 && c.b > 250
  }

  function BucketOf(p: Rgba): Bucket {
    Bucket(p.r / 10, p.g / 10, p.b / 10)
  }

  function Colour(p: Rgba): Rgb {
    Rgb(p.r, p.g, p.b)
  }

  /** The pixel indices the loop visits from `i` on: `i, i+q, i+2q, …` below `count`. */
  function SamplesFrom(count: nat, q: nat, i: nat): (s: seq<nat>)
    requires q >= 1
    ensures forall j :: 0 <= j < |s| ==> i <= s[j] < count
    decreases count - i
  {
    if i >= count then [] else [i] + SamplesFrom(count, q, i + q)
  }

  function Samples(count: nat, q: nat): seq<nat>
    requires q >= 1
  {
    SamplesFrom(count, q, 0)
  }

  /** The effect of one sampled pixel on the tally. */
  function Step(t: Tally, p: Rgba): Tally {
    if !Counted(p) then t
    else
      var k := BucketOf(p);
      var bin := if k in t.buckets then t.buckets[k] else Bin(0, []);
      var bin' := Bin(bin.count + 1, bin.pixels + [Colour(p)]);
      if bin'.count > t.bestCount then Tally(t.buckets[k := bin'], bin'.count, Some(k))
      else Tally(t.buckets[k := bin'], t.bestCount, t.best)
  }

  predicate InImage(data: seq<Byte>, idxs: seq<nat>) {
    forall j :: 0 <= j < |idxs| ==> 4 * idxs[j] + 3 < |data|
  }

  /** The tally after visiting the pixels at `idxs`, in order. */
  function Run(data: seq<Byte>, idxs: seq<nat>): (t: Tally)
    requires InImage(data, idxs)
    ensures t.bestCount <= |idxs|
    ensures forall k | k in t.buckets ::
      t.buckets[k].count == |t.buckets[k].pixels| <= |idxs| && forall c | c in t.buckets[k].pixels :: !Whitish(c)
  {
    if idxs == [] then Tally(map[], 0, None)
    else Step(Run(data, idxs[..|idxs| - 1]), PixelAt(data, idxs[|idxs| - 1]))
  }

  /** The colours of the counted pixels among `idxs` that fall into bucket `k`, in order. */
  function Members(data: seq<Byte>, idxs: seq<nat>, k: Bucket): seq<Rgb>
    requires InImage(data, idxs)
  {
    if idxs == [] then []
    else
      var p := PixelAt(data, idxs[|idxs| - 1]);
      Members(data, idxs[..|idxs| - 1], k) + if Counted(p) && BucketOf(p) == k then [Colour(p)] else []
  }

  /** Some pixel among `idxs` is counted. */
  predicate AnyCounted(data: seq<Byte>, idxs: seq<nat>)
    requires InImage(data, idxs)
  {
    exists j :: 0 <= j < |idxs| && Counted(PixelAt(data, idxs[j]))
  }

  /** The colour `get` returns; `None` where the source dereferences the
      missing bucket of a `null` key and throws. */
  function Dominant(data: seq<Byte>, count: nat, q: nat): (c: Option<Rgb>)
    requires q >= 1 && |data| == 4 * count
    ensures c.Some? ==> !Whitish(c.value)
  {
    var t := Run(data, Samples(count, q));
    if t.best.Some? && t.best.value in t.buckets && t.buckets[t.best.value].pixels != [] then
      Some(t.buckets[t.best.value].pixels[0])
    else None
  }

  /** The sampled indices are exactly the multiples of `q` below `count`. */
  lemma {:induction false} SampledIndices(count: nat, q: nat, i: nat, x: int)
    requires q >= 1 && i % q == 0
    ensures x in SamplesFrom(count, q, i) <==> i <= x < count && x % q == 0
    decreases count - i
  {
    if i < count {
      assert (i + q) % q == 0 by { ModuloStep(i, q); }
      SampledIndices(count, q, i + q, x);
      assert SamplesFrom(count, q, i) == [i] + SamplesFrom(count, q, i + q);
      if i < x < i + q {
        ModuloGap(i, q, x);
      }
    }
  }

  /** No multiple of `q` lies strictly between two consecutive ones. */
  lemma ModuloGap(i: int, q: int, x: int)
    requires q >= 1 && i % q == 0 && i < x < i + q
    ensures x % q != 0
  {
    var m := i / q;
    assert i == m * q;
    ModOffset(m, q, x - i);
  }

  lemma ModuloStep(i: int, q: int)
    requires q >= 1 && i % q == 0
    ensures (i + q) % q == 0
  {
    var m := i / q;
    assert i + q == (m + 1) * q + 0;
    ModOffset(m + 1, q, 0);
  }

  lemma ModOffset(k: int, q: int, r: int)
    requires q >= 1 && 0 <= r < q
    ensures (k * q + r) % q == r
  {
    var x := k * q + r;
    var d := x / q;
    assert x == d * q + x % q;
    assert (k - d) * q == x % q - r;
    SmallMultiple(k - d, q, x % q - r);
  }

  lemma SmallMultiple(z: int, q: int, v: int)
    requires q >= 1 && z * q == v && -q < v < q
    ensures z == 0
  {
    if z >= 1 {
      MulMonotone(1, z, q);
    } else if z <= -1 {
      MulMonotone(z, -1, q);
    }
  }

  lemma MulMonotone(a: int, b: int, q: int)
    requires a <= b && q >= 1
    ensures a * q <= b * q
  {
    assert b * q - a * q == (b - a) * q;
  }

  /** Every counted pixel is added to exactly one bucket, its own: each
      bucket holds precisely the counted pixels that fall into it, in the
      order they were visited, and its count is their number. */
  lemma {:induction false} BucketsHoldMembers(data: seq<Byte>, idxs: seq<nat>, k: Bucket)
    requires InImage(data, idxs)
    ensures k in Run(data, idxs).buckets <==> Members(data, idxs, k) != []
    ensures k in Run(data, idxs).buckets ==>
      Run(data, idxs).buckets[k] == Bin(|Members(data, idxs, k)|, Members(data, idxs, k))
  {
    if idxs != [] {
      BucketsHoldMembers(data, idxs[..|idxs| - 1], k);
    }
  }

  /** What the loop keeps about its best bucket: it is set exactly when some
      counted pixel was seen, it holds `best_count` pixels, and no bucket
      holds more. */
  ghost predicate BestIsMaximal(t: Tally) {
    (t.best.None? <==> t.bestCount == 0)
    && (t.best.Some? ==> t.best.value in t.buckets && t.buckets[t.best.value].count == t.bestCount)
    && (forall k | k in t.buckets :: t.buckets[k].count <= t.bestCount)
  }

  /** One visit keeps the best bucket maximal, and there is a best bucket
      afterwards exactly when there was one before or the pixel counts. */
  lemma StepKeepsBest(t: Tally, p: Rgba)
    requires BestIsMaximal(t)
    ensures BestIsMaximal(Step(t, p))
    ensures Step(t, p).best.Some? <==> t.best.Some? || Counted(p)
  {
  }

  lemma {:induction false} RunKeepsBest(data: seq<Byte>, idxs: seq<nat>)
    requires InImage(data, idxs)
    ensures BestIsMaximal(Run(data, idxs))
    ensures Run(data, idxs).best.Some? <==> AnyCounted(data, idxs)
  {
    if idxs != [] {
      var n := |idxs| - 1;
      RunKeepsBest(data, idxs[..n]);
      StepKeepsBest(Run(data, idxs[..n]), PixelAt(data, idxs[n]));
      if AnyCounted(data, idxs[..n]) {
        var j :| 0 <= j < n && Counted(PixelAt(data, idxs[..n][j]));
        assert idxs[..n][j] == idxs[j];
      }
      if AnyCounted(data, idxs) && !Counted(PixelAt(data, idxs[n])) {
        var j :| 0 <= j < |idxs| && Counted(PixelAt(data, idxs[j]));
        assert idxs[..n][j] == idxs[j];
      }
    }
  }

  /** Ties go to the bucket that got there first: at the visit that made the
      best bucket reach `best_count`, every other bucket held fewer pixels. */
  lemma {:induction false} BestReachedFirst(data: seq<Byte>, idxs: seq<nat>)
    requires InImage(data, idxs)
    requires Run(data, idxs).best.Some?
    ensures exists m :: 0 < m <= |idxs| && FirstToReach(data, idxs[..m], Run(data, idxs).best.value, Run(data, idxs).bestCount)
  {
    var n := |idxs| - 1;
    var t := Run(data, idxs[..n]);
    assert idxs[..n + 1] == idxs;
    RunKeepsBest(data, idxs[..n]);
    var p := PixelAt(data, idxs[n]);
    var k := BucketOf(p);
    if Counted(p) && (if k in t.buckets then t.buckets[k].count else 0) + 1 > t.bestCount {
      forall b | b != k
        ensures |Members(data, idxs, b)| < t.bestCount + 1
      {
        BucketsHoldMembers(data, idxs[..n], b);
        assert Members(data, idxs, b) == Members(data, idxs[..n], b);
      }
      BucketsHoldMembers(data, idxs, k);
      assert FirstToReach(data, idxs[..n + 1], k, Run(data, idxs).bestCount);
    } else {
      BestReachedFirst(data, idxs[..n]);
      var m :| 0 < m <= n && FirstToReach(data, idxs[..n][..m], t.best.value, t.bestCount);
      assert idxs[..n][..m] == idxs[..m];
    }
  }

  /** After visiting `idxs`, bucket `k` holds `c` pixels and every other bucket fewer. */
  ghost predicate FirstToReach(data: seq<Byte>, idxs: seq<nat>, k: Bucket, c: nat)
    requires InImage(data, idxs)
  {
    |Members(data, idxs, k)| == c && forall b | b != k :: |Members(data, idxs, b)| < c
  }

  /** The result of `get`: the first counted pixel of a bucket that no other
      bucket outnumbers and that reached its size before any other did, or
      `None` exactly when no sampled pixel is counted. */
  lemma DominantIsFirstOfLargest(data: seq<Byte>, count: nat, q: nat)
    requires q >= 1 && |data| == 4 * count
    ensures Dominant(data, count, q).None? <==> !AnyCounted(data, Samples(count, q))
    ensures Dominant(data, count, q).Some? ==>
        exists k :: Members(data, Samples(count, q), k) != [] && Dominant(data, count, q).value == Members(data, Samples(count, q), k)[0]
          && (forall b :: |Members(data, Samples(count, q), b)| <= |Members(data, Samples(count, q), k)|)
          && exists m :: 0 < m <= |Samples(count, q)| && FirstToReach(data, Samples(count, q)[..m], k, |Members(data, Samples(count, q), k)|)
  {
    var s := Samples(count, q);
    var t := Run(data, s);
    RunKeepsBest(data, s);
    if t.best.Some? {
      var k := t.best.value;
      BucketsHoldMembers(data, s, k);
      forall b
        ensures |Members(data, s, b)| <= |Members(data, s, k)|
      {
        BucketsHoldMembers(data, s, b);
      }
      BestReachedFirst(data, s);
    }
  }

  lemma SamplesAdvance(count: nat, q: nat, done: seq<nat>, i: nat)
    requires q >= 1 && i < count && Samples(count, q) == done + SamplesFrom(count, q, i)
    ensures Samples(count, q) == (done + [i]) + SamplesFrom(count, q, i + q)
  {
    assert SamplesFrom(count, q, i) == [i] + SamplesFrom(count, q, i + q);
  }

  /** `get` over the canvas bytes of an image of `count` pixels. */
  method Get(data: seq<Byte>, count: nat, quality: Option<int>) returns (colour: Option<Rgb>)
    requires |data| == 4 * count
    requires quality.Some? ==> quality.value >= 1
    ensures colour == Dominant(data, count, if quality.Some? then quality.value else DefaultQuality)
  {
    var q: nat := if quality.Some? then quality.value else DefaultQuality;
    var buckets: map<Bucket, Bin> := map[];
    var bestCount: nat := 0;
    var best: Option<Bucket> := None;
    var i: nat := 0;
    ghost var done: seq<nat> := [];
    while i < count
      invariant Samples(count, q) == done + SamplesFrom(count, q, i)
      invariant forall j :: 0 <= j < |done| ==> done[j] < count
      invariant Tally(buckets, bestCount, best) == Run(data, done)
      decreases count - i
    {
      SamplesAdvance(count, q, done, i);
      buckets, bestCount, best := Visit(buckets, bestCount, best, PixelAt(data, i));
      assert (done + [i])[..|done|] == done;
      done := done + [i];
      i := i + q;
    }
    assert done == Samples(count, q);
    if best.Some? && best.value in buckets && buckets[best.value].pixels != [] {
      colour := Some(buckets[best.value].pixels[0]);
    } else {
      colour := None;
    }
  }

  /** One turn of the loop of `get`: count the pixel if it is mostly opaque
      and not white, and move the best bucket when its bucket overtakes it. */
  method Visit(buckets: map<Bucket, Bin>, bestCount: nat, best: Option<Bucket>, p: Rgba)
    returns (buckets': map<Bucket, Bin>, bestCount': nat, best': Option<Bucket>)
    ensures Tally(buckets', bestCount', best') == Step(Tally(buckets, bestCount, best), p)
  {
    buckets', bestCount', best' := buckets, bestCount, best;
    if p.a >= 125 && !(p.r > 250 && p.g > 250 && p.b > 250) {
      var key := Bucket(p.r / 10, p.g / 10, p.b / 10);
      var bin := if key in buckets' then buckets'[key] else Bin(0, []);
      buckets' := buckets'[key := Bin(bin.count + 1, bin.pixels + [Rgb(p.r, p.g, p.b)])];
      if buckets'[key].count > bestCount' {
        best' := Some(key);
        bestCount' := buckets'[key].count;
      }
    }
  }
}
