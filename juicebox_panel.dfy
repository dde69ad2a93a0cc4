/**
 * The Juicebox panel's bookkeeping around the live maps: painting the RGBA
 * buffer, the crosshair filter, the tab state machine with its remembered
 * Hi-C and live-map dataset/state pairs, the chromosome list handed to the
 * live-map dataset, and the guards on canvas sizes before a transfer.
 *
 * The Juicebox browser is abstracted to its active (dataset, state) pair and
 * the DOM to the display flags the panel sets.
 */
module Juicebox {
  import opened JsValues
  import LiveContactMap

  const HicMapTab: string := "spacewalk-juicebox-panel-hic-map-tab"
  const LiveMapTab: string := "spacewalk-juicebox-panel-live-map-tab"
  const LiveDistanceMapTab: string := "spacewalk-juicebox-panel-live-distance-map-tab"

  /** A Juicebox dataset, known to the panel only by identity and `datasetType`. */
  datatype Dataset = Dataset(id: nat, datasetType: string)

  /** A Juicebox view state (zoom, pan, chromosome pair), known only by identity. */
  datatype MapState = MapState(id: nat)

  /** The browser's active dataset and state. */
  datatype Browser = Browser(activeDataset: Option<Dataset>, activeState: Option<MapState>)

  predicate IsLiveMap(dataset: Option<Dataset>)
  {
    dataset.Some? && dataset.value.datasetType == LiveContactMap.LiveMapDatasetType
  }

  // ---------------------------------------------------------------------
  // Painting the RGBA buffer

  /** The `{r, g, b}` that `compositeColors` returns. */
  datatype Rgb = Rgb(r: byte, g: byte, b: byte)

  /** Byte `channel` (0 red, 1 green, 2 blue, 3 alpha) of an opaque pixel of colour `c`. */
  function Channel(c: Rgb, channel: nat): byte
  {
    if channel == 0 then c.r else if channel == 1 then c.g else if channel == 2 then c.b else 255
  }

  /**
   * The buffer after painting: for each frequency, four bytes holding its
   * colour composited over the background and an opaque alpha; bytes past
   * `4 * |frequencies|` keep their old values, and writes past the end of the
   * buffer are dropped as typed arrays drop them.
   */
  function Painted<C, B>(buffer: seq<byte>, frequencies: seq<real>, getColor: real -> C,
                         compositeColors: (C, B) -> Rgb, background: B): seq<byte>
  {
    seq(|buffer|, i requires 0 <= i < |buffer| =>
      if i < 4 * |frequencies| then Channel(compositeColors(getColor(frequencies[i / 4]), background), i % 4)
      else buffer[i])
  }

  /**
   * Pixel `k` of a painted buffer is the composite of `getColor(frequencies[k])`
   * over the background in bytes `4k .. 4k+2`, and 255 in byte `4k+3`.
   */
  lemma PaintedPixel<C, B>(buffer: seq<byte>, frequencies: seq<real>, getColor: real -> C,
                           compositeColors: (C, B) -> Rgb, background: B, k: nat)
    requires k < |frequencies| && 4 * k + 3 < |buffer|
    ensures var painted := Painted(buffer, frequencies, getColor, compositeColors, background);
            var c := compositeColors(getColor(frequencies[k]), background);
            painted[4 * k] == c.r && painted[4 * k + 1] == c.g && painted[4 * k + 2] == c.b
            && painted[4 * k + 3] == 255
  {
    assert (4 * k) / 4 == k && (4 * k) % 4 == 0;
    assert (4 * k + 1) / 4 == k && (4 * k + 1) % 4 == 1;
    assert (4 * k + 2) / 4 == k && (4 * k + 2) % 4 == 2;
    assert (4 * k + 3) / 4 == k && (4 * k + 3) % 4 == 3;
  }

  /** Painting keeps the buffer's length and leaves every byte past `4 * |frequencies|` alone. */
  lemma PaintedKeepsTail<C, B>(buffer: seq<byte>, frequencies: seq<real>, getColor: real -> C,
                               compositeColors: (C, B) -> Rgb, background: B)
    ensures |Painted(buffer, frequencies, getColor, compositeColors, background)| == |buffer|
    ensures 4 * |frequencies| <= |buffer| ==>
              Painted(buffer, frequencies, getColor, compositeColors, background)[4 * |frequencies|..]
              == buffer[4 * |frequencies|..]
  {
  }

  /** Painting twice with the same inputs gives the same buffer as painting once. */
  lemma PaintedIdempotent<C, B>(buffer: seq<byte>, frequencies: seq<real>, getColor: real -> C,
                                compositeColors: (C, B) -> Rgb, background: B)
    ensures var once := Painted(buffer, frequencies, getColor, compositeColors, background);
            Painted(once, frequencies, getColor, compositeColors, background) == once
  {
  }

  /** An assignment to a `Uint8ClampedArray` element: ignored past the end. */
  method StoreByte(buffer: array<byte>, i: nat, value: byte)
    modifies buffer
    ensures forall j :: 0 <= j < buffer.Length ==> buffer[j] == if j == i then value else old(buffer[j])
  {
    if i < buffer.Length {
      buffer[i] := value;
    }
  }

  /**
   * `paintContactMapRGBAMatrix`: walk the frequencies, writing four bytes per
   * frequency at an index that advances by four.
   */
  method PaintContactMapRGBAMatrix<C, B>(frequencies: seq<real>, rgbaMatrix: array<byte>, getColor: real -> C,
                                         compositeColors: (C, B) -> Rgb, backgroundRGB: B)
    modifies rgbaMatrix
    ensures rgbaMatrix[..] == Painted(old(rgbaMatrix[..]), frequencies, getColor, compositeColors, backgroundRGB)
  {
    var i := 0;
    var k := 0;
    while k < |frequencies|
      invariant k <= |frequencies| && i == 4 * k
      invariant forall j :: 0 <= j < rgbaMatrix.Length ==>
                  rgbaMatrix[j] == if j < i then Channel(compositeColors(getColor(frequencies[j / 4]), backgroundRGB), j % 4)
                                   else old(rgbaMatrix[j])
    {
      var c := compositeColors(getColor(frequencies[k]), backgroundRGB);
      assert i / 4 == k && i % 4 == 0;
      assert (i + 1) / 4 == k && (i + 1) % 4 == 1;
      assert (i + 2) / 4 == k && (i + 2) % 4 == 2;
      assert (i + 3) / 4 == k && (i + 3) % 4 == 3;
      StoreByte(rgbaMatrix, i, c.r);
      StoreByte(rgbaMatrix, i + 1, c.g);
      StoreByte(rgbaMatrix, i + 2, c.b);
      StoreByte(rgbaMatrix, i + 3, 255);
      i := i + 4;
      k := k + 1;
    }
  }

  // ---------------------------------------------------------------------
  // Crosshairs

  /** The genomic window of the current ensemble. */
  datatype Locus = Locus(genomicStart: JsReal, genomicEnd: JsReal)

  /** What Juicebox hands the custom crosshairs handler. */
  datatype Crosshairs = Crosshairs(xBP: JsReal, yBP: JsReal, startXBP: JsReal, startYBP: JsReal,
                                   endXBP: JsReal, endYBP: JsReal, interpolantX: JsReal, interpolantY: JsReal)

  /** `start > hi || end < lo`: the extent `[start, end]` is rejected against `[lo, hi]`. */
  predicate ExtentRejected(start: JsReal, end: JsReal, lo: JsReal, hi: JsReal)
  {
    LessThan(hi, start) || LessThan(end, lo)
  }

  /** `p < lo || p > hi`: the point `p` is rejected against `[lo, hi]`. */
  predicate PointRejected(p: JsReal, lo: JsReal, hi: JsReal)
  {
    LessThan(p, lo) || LessThan(hi, p)
  }

  /** Every coordinate the handler compares is a number, not NaN. */
  predicate Numeric(locus: Locus, c: Crosshairs)
  {
    && locus.genomicStart.Real? && locus.genomicEnd.Real?
    && c.xBP.Real? && c.yBP.Real?
    && c.startXBP.Real? && c.endXBP.Real? && c.startYBP.Real? && c.endYBP.Real?
  }

  /** The closed intervals `[start, end]` and `[lo, hi]` meet at their ends or overlap. */
  predicate Overlaps(start: real, end: real, lo: real, hi: real)
  {
    start <= hi && lo <= end
  }

  predicate Within(p: real, lo: real, hi: real)
  {
    lo <= p <= hi
  }

  /** For non-empty intervals, `Overlaps` is "there is a common point". */
  lemma OverlapsIsCommonPoint(start: real, end: real, lo: real, hi: real)
    requires start <= end && lo <= hi
    ensures Overlaps(start, end, lo, hi) <==> exists p :: Within(p, start, end) && Within(p, lo, hi)
  {
    if Overlaps(start, end, lo, hi) {
      var p := if start <= lo then lo else start;
      assert Within(p, start, end) && Within(p, lo, hi);
    }
  }

  /**
   * `juiceboxMouseHandler`: the interpolant pair it posts, or `None` when it
   * returns without posting. It posts exactly when no rejection comparison
   * holds; with numbers only, that is when both extents overlap the locus
   * and both points lie in it.
   */
  function JuiceboxMouseHandler(locus: Option<Locus>, c: Crosshairs): (interpolantList: Option<seq<JsReal>>)
    ensures interpolantList.Some? <==>
              && locus.Some?
              && !ExtentRejected(c.startXBP, c.endXBP, locus.value.genomicStart, locus.value.genomicEnd)
              && !ExtentRejected(c.startYBP, c.endYBP, locus.value.genomicStart, locus.value.genomicEnd)
              && !PointRejected(c.xBP, locus.value.genomicStart, locus.value.genomicEnd)
              && !PointRejected(c.yBP, locus.value.genomicStart, locus.value.genomicEnd)
    ensures locus.Some? && Numeric(locus.value, c) ==>
              var lo, hi := locus.value.genomicStart.value, locus.value.genomicEnd.value;
              (interpolantList.Some? <==>
                 && Overlaps(c.startXBP.value, c.endXBP.value, lo, hi)
                 && Overlaps(c.startYBP.value, c.endYBP.value, lo, hi)
                 && Within(c.xBP.value, lo, hi)
                 && Within(c.yBP.value, lo, hi))
    ensures interpolantList.Some? ==> interpolantList.value == [c.interpolantX, c.interpolantY]
  {
    if locus.None? then None
    else
      var genomicStart, genomicEnd := locus.value.genomicStart, locus.value.genomicEnd;
      var trivialRejection := LessThan(genomicEnd, c.startXBP) || LessThan(c.endXBP, genomicStart)
                              || LessThan(genomicEnd, c.startYBP) || LessThan(c.endYBP, genomicStart);
      if trivialRejection then None
      else
        var xRejection := LessThan(c.xBP, genomicStart) || LessThan(genomicEnd, c.xBP);
        var yRejection := LessThan(c.yBP, genomicStart) || LessThan(genomicEnd, c.yBP);
        if xRejection || yRejection then None
        else Some([c.interpolantX, c.interpolantY])
  }

  /**
   * A NaN or `undefined` coordinate, or locus bound, passes every rejection
   * test it takes part in: a pointer whose coordinates are all NaN is posted
   * for any locus, and any pointer is posted for a locus whose bounds are NaN.
   */
  lemma NaNPassesRejection(locus: Locus, c: Crosshairs)
    ensures JuiceboxMouseHandler(Some(locus), c.(xBP := RealNaN, yBP := RealNaN, startXBP := RealNaN,
                                                   endXBP := RealNaN, startYBP := RealNaN, endYBP := RealNaN))
            == Some([c.interpolantX, c.interpolantY])
    ensures JuiceboxMouseHandler(Some(Locus(RealNaN, RealNaN)), c) == Some([c.interpolantX, c.interpolantY])
  {
  }

  // ---------------------------------------------------------------------
  // Chromosome list of the live-map dataset

  /** A chromosome of the IGV genome; `size` may be missing. */
  datatype GenomeChromosome = GenomeChromosome(name: string, size: Option<nat>, bpLength: nat)

  /** A chromosome entry of the live-map dataset configuration. */
  datatype Chromosome = Chromosome(name: string, size: nat, bpLength: nat, index: nat)

  /** `chr.size || chr.bpLength`: the size when it is present and non-zero, the length otherwise. */
  function SizeOf(g: GenomeChromosome): (size: nat)
    ensures g.size.Some? && g.size.value != 0 ==> size == g.size.value
    ensures g.size.None? || g.size.value == 0 ==> size == g.bpLength
  {
    if g.size.Some? && g.size.value != 0 then g.size.value else g.bpLength
  }

  /** The genome's chromosomes in order, each numbered by its position. */
  function LiveMapChromosomes(genome: seq<GenomeChromosome>): (chromosomes: seq<Chromosome>)
    ensures |chromosomes| == |genome|
    ensures forall i :: 0 <= i < |genome| ==>
              && chromosomes[i].name == genome[i].name
              && chromosomes[i].size == chromosomes[i].bpLength == SizeOf(genome[i])
              && chromosomes[i].index == i
  {
    seq(|genome|, i requires 0 <= i < |genome| => Chromosome(genome[i].name, SizeOf(genome[i]), SizeOf(genome[i]), i))
  }

  /** `Array.prototype.findIndex`: the first position satisfying `p`, or -1. */
  function FindIndex<T>(s: seq<T>, p: T -> bool): (k: int)
    ensures -1 <= k < |s|
    ensures k >= 0 ==> p(s[k]) && forall j :: 0 <= j < k ==> !p(s[j])
    ensures k < 0 ==> forall j :: 0 <= j < |s| ==> !p(s[j])
  {
    if s == [] then -1
    else if p(s[0]) then 0
    else
      var k := FindIndex(s[1..], p);
      if k < 0 then -1 else k + 1
  }

  function ToLowerAscii(c: char): char
  {
    if 'A' <= c <= 'Z' then (c as int + 32) as char else c
  }

  /**
   * `name.toLowerCase() === 'all'`. Only ASCII letters lower-case to `a` or
   * `l`, so ASCII case folding decides it exactly.
   */
  function IsAllChromosome(c: Chromosome): (isAll: bool)
    ensures isAll <==>
              && |c.name| == 3
              && (c.name[0] == 'a' || c.name[0] == 'A')
              && (c.name[1] == 'l' || c.name[1] == 'L')
              && (c.name[2] == 'l' || c.name[2] == 'L')
  {
    var lowered := seq(|c.name|, i requires 0 <= i < |c.name| => ToLowerAscii(c.name[i]));
    if |c.name| == 3 then
      assert lowered == [ToLowerAscii(c.name[0]), ToLowerAscii(c.name[1]), ToLowerAscii(c.name[2])];
      lowered == "all"
    else
      assert |lowered| != |"all"|;
      false
  }

  /** A chromosome with its index erased, for comparing lists up to renumbering. */
  function Unindexed(s: seq<Chromosome>): seq<Chromosome>
  {
    seq(|s|, i requires 0 <= i < |s| => s[i].(index := 0))
  }

  /** Every entry renumbered by its position. */
  function Renumbered(s: seq<Chromosome>): seq<Chromosome>
  {
    seq(|s|, j requires 0 <= j < |s| => s[j].(index := j))
  }

  /**
   * The list after the reordering of `loadLiveMapDataset`: when the first
   * "all" chromosome is not already first, it is spliced out, put in front,
   * and every entry is renumbered by its new position; otherwise the list is
   * left as it is.
   */
  function MovedAllToFront(chromosomes: seq<Chromosome>): seq<Chromosome>
  {
    var allIndex := FindIndex(chromosomes, IsAllChromosome);
    if allIndex <= 0 then chromosomes
    else Renumbered([chromosomes[allIndex]] + chromosomes[..allIndex] + chromosomes[allIndex + 1..])
  }

  /**
   * `chromosomes.splice(allIndex, 1)`, `unshift` and the renumbering
   * `forEach` of `loadLiveMapDataset`, step by step on a copy of the list.
   */
  method MoveAllChromosomeToFront(chromosomes: seq<Chromosome>) returns (reordered: seq<Chromosome>)
    ensures reordered == MovedAllToFront(chromosomes)
  {
    reordered := chromosomes;
    var allIndex := FindIndex(reordered, IsAllChromosome);
    if allIndex > 0 {
      var allChr := reordered[allIndex];
      reordered := reordered[..allIndex] + reordered[allIndex + 1..];
      reordered := [allChr] + reordered;
      ghost var moved := reordered;
      var idx := 0;
      while idx < |reordered|
        invariant |reordered| == |moved| && idx <= |reordered|
        invariant forall j :: 0 <= j < idx ==> reordered[j] == moved[j].(index := j)
        invariant forall j :: idx <= j < |reordered| ==> reordered[j] == moved[j]
      {
        reordered := reordered[idx := reordered[idx].(index := idx)];
        idx := idx + 1;
      }
      assert reordered == Renumbered(moved);
    }
  }

  /**
   * Where the reordering puts each chromosome: an "all" found past the front
   * comes first, the others keep their order behind it, and every entry is
   * renumbered by position; a list whose first "all" is already in front, or
   * that has none, is unchanged. Either way the names, sizes and lengths are
   * a permutation of the original ones.
   */
  lemma MovedAllToFrontPlacement(chromosomes: seq<Chromosome>)
    ensures var reordered := MovedAllToFront(chromosomes);
            && |reordered| == |chromosomes|
            && (FindIndex(chromosomes, IsAllChromosome) <= 0 ==> reordered == chromosomes)
            && multiset(Unindexed(reordered)) == multiset(Unindexed(chromosomes))
    ensures var reordered := MovedAllToFront(chromosomes);
            var allIndex := FindIndex(chromosomes, IsAllChromosome);
            allIndex > 0 ==>
              && reordered[0] == chromosomes[allIndex].(index := 0)
              && (forall j :: 1 <= j <= allIndex ==> reordered[j] == chromosomes[j - 1].(index := j))
              && (forall j :: allIndex < j < |chromosomes| ==> reordered[j] == chromosomes[j].(index := j))
              && (forall j :: 0 <= j < |reordered| ==> reordered[j].index == j)
  {
    var allIndex := FindIndex(chromosomes, IsAllChromosome);
    if allIndex > 0 {
      var moved := [chromosomes[allIndex]] + chromosomes[..allIndex] + chromosomes[allIndex + 1..];
      var reordered := Renumbered(moved);
      assert forall j :: 1 <= j <= allIndex ==> moved[j] == chromosomes[j - 1];
      assert forall j :: allIndex < j < |chromosomes| ==> moved[j] == chromosomes[j];
      MovedToFrontIsPermutation(chromosomes, allIndex, reordered);
    }
  }

  lemma MovedToFrontIsPermutation(chromosomes: seq<Chromosome>, allIndex: nat, reordered: seq<Chromosome>)
    requires allIndex < |chromosomes| && |reordered| == |chromosomes|
    requires reordered[0].(index := 0) == chromosomes[allIndex].(index := 0)
    requires forall j :: 1 <= j <= allIndex ==> reordered[j].(index := 0) == chromosomes[j - 1].(index := 0)
    requires forall j :: allIndex < j < |chromosomes| ==> reordered[j].(index := 0) == chromosomes[j].(index := 0)
    ensures multiset(Unindexed(reordered)) == multiset(Unindexed(chromosomes))
  {
    var a := Unindexed(chromosomes);
    var r := Unindexed(reordered);
    assert r == [a[allIndex]] + a[..allIndex] + a[allIndex + 1..];
    assert a == a[..allIndex] + [a[allIndex]] + a[allIndex + 1..];
  }

  /** The live-map dataset's chromosome list and the `chr1`/`chr2` of its initial state. */
  datatype LiveMapConfig = LiveMapConfig(chromosomes: seq<Chromosome>, chr1: nat, chr2: nat)

  /**
   * The chromosome bookkeeping of `loadLiveMapDataset`. `locusChromosome` is
   * the name of the genome's chromosome for the locus (`None` when the
   * genome has none, which makes live maps unsupported). The state's
   * `chr1 = chr2` is the chromosome's position in the reordered list plus one,
   * since Juicebox reserves 0 for the whole genome.
   */
  method LoadLiveMapDataset(locusChromosome: Option<string>, genome: seq<GenomeChromosome>)
    returns (config: Option<LiveMapConfig>)
    ensures config.Some? <==>
              locusChromosome.Some? && exists i :: 0 <= i < |genome| && genome[i].name == locusChromosome.value
    ensures config.Some? ==>
              var chromosomes := config.value.chromosomes;
              && chromosomes == MovedAllToFront(LiveMapChromosomes(genome))
              && |chromosomes| == |genome|
              && (forall j :: 0 <= j < |chromosomes| ==> chromosomes[j].index == j)
              && multiset(Unindexed(chromosomes)) == multiset(Unindexed(LiveMapChromosomes(genome)))
              && (forall j :: 0 <= j < |chromosomes| && IsAllChromosome(chromosomes[j]) ==> IsAllChromosome(chromosomes[0]))
              && config.value.chr1 == config.value.chr2
              && 1 <= config.value.chr1 <= |chromosomes|
              && chromosomes[config.value.chr1 - 1].name == locusChromosome.value
              && (forall j :: 0 <= j < config.value.chr1 - 1 ==> chromosomes[j].name != locusChromosome.value)
  {
    if locusChromosome.None? {
      return None;
    }
    var name := locusChromosome.value;
    var built := LiveMapChromosomes(genome);
    var chromosomes := MoveAllChromosomeToFront(built);
    MovedAllToFrontPlacement(built);
    AllChromosomeLeads(built, chromosomes);
    var chrArrayIndex := FindIndex(chromosomes, (c: Chromosome) => c.name == name);
    SameNames(built, chromosomes, name);
    assert forall i :: 0 <= i < |genome| ==> built[i].name == genome[i].name;
    if chrArrayIndex < 0 {
      return None;
    }
    var chrIndex := chrArrayIndex + 1;
    config := Some(LiveMapConfig(chromosomes, chrIndex, chrIndex));
  }

  /** After the reordering, if any chromosome is "all" then the first one is. */
  lemma AllChromosomeLeads(built: seq<Chromosome>, chromosomes: seq<Chromosome>)
    requires |chromosomes| == |built|
    requires FindIndex(built, IsAllChromosome) <= 0 ==> chromosomes == built
    requires FindIndex(built, IsAllChromosome) > 0 ==>
               chromosomes[0] == built[FindIndex(built, IsAllChromosome)].(index := 0)
    ensures forall j :: 0 <= j < |chromosomes| && IsAllChromosome(chromosomes[j]) ==> IsAllChromosome(chromosomes[0])
  {
    var allIndex := FindIndex(built, IsAllChromosome);
    if allIndex > 0 {
      assert chromosomes[0].name == built[allIndex].name;
    } else if allIndex < 0 {
      assert forall j :: 0 <= j < |chromosomes| ==> !IsAllChromosome(chromosomes[j]);
    }
  }

  /** Reordering keeps the set of names: a name occurs in the list before it exactly when it occurs after. */
  lemma SameNames(built: seq<Chromosome>, chromosomes: seq<Chromosome>, name: string)
    requires multiset(Unindexed(chromosomes)) == multiset(Unindexed(built))
    ensures (exists i :: 0 <= i < |built| && built[i].name == name)
            <==> (exists j :: 0 <= j < |chromosomes| && chromosomes[j].name == name)
  {
    var a, r := Unindexed(built), Unindexed(chromosomes);
    if i :| 0 <= i < |built| && built[i].name == name {
      assert a[i] in multiset(r);
      var j :| 0 <= j < |r| && r[j] == a[i];
      assert chromosomes[j].name == name;
    }
    if j :| 0 <= j < |chromosomes| && chromosomes[j].name == name {
      assert r[j] in multiset(a);
      var i :| 0 <= i < |a| && a[i] == r[j];
      assert built[i].name == name;
    }
  }

  // ---------------------------------------------------------------------
  // Canvases

  /** A canvas's pixel size. */
  datatype Size = Size(width: nat, height: nat)
  {
    predicate HasZeroSide() { width == 0 || height == 0 }
  }

  /**
   * The size `updateLiveMapCanvasSizes` leaves a canvas of size `s` with,
   * for a `width` x `height` viewport.
   */
  function Resized(s: Size, width: nat, height: nat): (r: Size)
    ensures r.HasZeroSide() ==> s.HasZeroSide()
    ensures width != 0 && height != 0 ==> r == Size(width, height)
    ensures width == 0 || height == 0 ==> r == s
  {
    if width == 0 || height == 0 then s else Size(width, height)
  }

  /** The canvas behind a bitmap-renderer context, by its pixel size. */
  class Canvas {
    var width: nat
    var height: nat

    function Dimensions(): Size
      reads this
    {
      Size(width, height)
    }

    constructor (width: nat, height: nat)
      ensures this.width == width && this.height == height
    {
      this.width := width;
      this.height := height;
    }
  }

  /** The two live-map canvases of Juicebox's contact matrix view, either of which may be missing. */
  class ContactMatrixView {
    var ctxLive: Canvas?
    var ctxLiveDistance: Canvas?

    constructor (ctxLive: Canvas?, ctxLiveDistance: Canvas?)
      ensures this.ctxLive == ctxLive && this.ctxLiveDistance == ctxLiveDistance
    {
      this.ctxLive := ctxLive;
      this.ctxLiveDistance := ctxLiveDistance;
    }
  }

  /**
   * `updateLiveMapCanvasSizes`: with a non-empty viewport, every live-map
   * canvas that exists takes the viewport's width and height; a viewport
   * with a zero side changes nothing.
   */
  method UpdateLiveMapCanvasSizes(view: ContactMatrixView, width: nat, height: nat)
    modifies view.ctxLive, view.ctxLiveDistance
    ensures (width == 0 || height == 0) && view.ctxLive != null ==> unchanged(view.ctxLive)
    ensures (width == 0 || height == 0) && view.ctxLiveDistance != null ==> unchanged(view.ctxLiveDistance)
    ensures width != 0 && height != 0 && view.ctxLive != null ==>
              view.ctxLive.width == width && view.ctxLive.height == height
    ensures width != 0 && height != 0 && view.ctxLiveDistance != null ==>
              view.ctxLiveDistance.width == width && view.ctxLiveDistance.height == height
  {
    if width == 0 || height == 0 {
      return;
    }
    if view.ctxLive != null {
      view.ctxLive.width := width;
      view.ctxLive.height := height;
    }
    if view.ctxLiveDistance != null {
      view.ctxLiveDistance.width := width;
      view.ctxLiveDistance.height := height;
    }
  }

  /**
   * A canvas's size at the end of `renderLiveMapWithContactData`: sized to
   * the viewport, then, when the render `retried` because the live canvas
   * still had a zero side, sized again to the retry viewport.
   */
  function RenderedSize(s: Size, retried: bool, viewportWidth: nat, viewportHeight: nat,
                        retryWidth: nat, retryHeight: nat): Size
  {
    var first := Resized(s, viewportWidth, viewportHeight);
    if retried then Resized(first, retryWidth, retryHeight) else first
  }

  /** Where `renderLiveMapWithContactData` stops. */
  datatype RenderOutcome =
      /** no active dataset or state, even after a live-map load was attempted */
    | NoActiveDataset
      /** the frequencies, or the buffer they are painted into, are undefined: painting throws */
    | PaintFailed
    | NoLiveContext
    | InvalidCanvas
      /** the resampling branch is taken: the canvas is not `traceLength` square */
    | ResampledTransfer
    | DirectTransfer
  {
    predicate Transferred() { ResampledTransfer? || DirectTransfer? }
  }

  /**
   * The transfer step of `renderLiveMapWithContactData`, once the buffer is
   * painted: it needs the live canvas, retries the resize once (to the
   * `retry` viewport) when that canvas has a zero side, gives up when it
   * still has one, and transfers directly exactly when the canvas is
   * `liveMapTraceLength` pixels on both sides, resampling otherwise.
   */
  method TransferToLiveCanvas(view: ContactMatrixView, liveMapTraceLength: nat, retryWidth: nat, retryHeight: nat)
    returns (outcome: RenderOutcome)
    modifies view.ctxLive, view.ctxLiveDistance
    ensures outcome == NoLiveContext || outcome == InvalidCanvas || outcome.Transferred()
    ensures outcome == NoLiveContext <==> view.ctxLive == null
    ensures var retried := view.ctxLive != null && old(view.ctxLive.Dimensions()).HasZeroSide();
            && (view.ctxLive != null ==>
                  view.ctxLive.Dimensions()
                  == if retried then Resized(old(view.ctxLive.Dimensions()), retryWidth, retryHeight)
                     else old(view.ctxLive.Dimensions()))
            && (view.ctxLiveDistance != null ==>
                  view.ctxLiveDistance.Dimensions()
                  == if retried then Resized(old(view.ctxLiveDistance.Dimensions()), retryWidth, retryHeight)
                     else old(view.ctxLiveDistance.Dimensions()))
    ensures outcome == InvalidCanvas ==>
              view.ctxLive != null && view.ctxLive.Dimensions().HasZeroSide() && (retryWidth == 0 || retryHeight == 0)
    ensures outcome.Transferred() ==> view.ctxLive != null && view.ctxLive.width > 0 && view.ctxLive.height > 0
    ensures outcome.Transferred() ==>
              (outcome == DirectTransfer <==>
                 view.ctxLive.width == liveMapTraceLength && view.ctxLive.height == liveMapTraceLength)
  {
    var canvas := view.ctxLive;
    if canvas == null {
      return NoLiveContext;
    }
    if canvas.width == 0 || canvas.height == 0 {
      UpdateLiveMapCanvasSizes(view, retryWidth, retryHeight);
      if canvas.width == 0 || canvas.height == 0 {
        return InvalidCanvas;
      }
    }
    if liveMapTraceLength != canvas.width || liveMapTraceLength != canvas.height {
      return ResampledTransfer;
    }
    return DirectTransfer;
  }

  // ---------------------------------------------------------------------
  // The panel

  /** Whether a canvas container is in the viewport and, if so, displayed. */
  datatype Container = Missing | Present(displayed: bool)

  function Display(c: Container, displayed: bool): Container
  {
    if c.Missing? then Missing else Present(displayed)
  }

  /** The display flags `tabAssessment` sets. */
  datatype Dom = Dom(viewportFound: bool,
                     hicContainer: Container, liveContactContainer: Container, liveDistanceContainer: Container,
                     distanceToggleWidget: bool, thresholdWidget: bool, fileChooser: bool)

  predicate IsKnownTab(tabId: string)
  {
    tabId == HicMapTab || tabId == LiveMapTab || tabId == LiveDistanceMapTab
  }

  /** A remembered (dataset, state) pair is re-activated only when both halves are set. */
  predicate IsSet(pair: Browser)
  {
    pair.activeDataset.Some? && pair.activeState.Some?
  }

  /**
   * The display flags after `tabAssessment` of tab `tab`: every container is
   * hidden but the active tab's, and the widgets follow the tab. A missing
   * viewport changes nothing; an unknown tab leaves every container hidden
   * and the widgets as they were.
   */
  function AssessedDom(d: Dom, tab: string): (r: Dom)
    ensures !d.viewportFound ==> r == d
    ensures r.viewportFound == d.viewportFound
    ensures d.viewportFound ==>
              && r.hicContainer == Display(d.hicContainer, tab == HicMapTab)
              && r.liveContactContainer == Display(d.liveContactContainer, tab == LiveMapTab)
              && r.liveDistanceContainer == Display(d.liveDistanceContainer, tab == LiveDistanceMapTab)
    ensures d.viewportFound && IsKnownTab(tab) ==>
              && r.fileChooser == (tab == HicMapTab)
              && r.thresholdWidget == (tab == LiveMapTab)
              && r.distanceToggleWidget == (tab == LiveDistanceMapTab)
    ensures !IsKnownTab(tab) ==>
              r.fileChooser == d.fileChooser && r.thresholdWidget == d.thresholdWidget
              && r.distanceToggleWidget == d.distanceToggleWidget
  {
    if !d.viewportFound then d
    else
      var shown := d.(hicContainer := Display(d.hicContainer, tab == HicMapTab),
                      liveContactContainer := Display(d.liveContactContainer, tab == LiveMapTab),
                      liveDistanceContainer := Display(d.liveDistanceContainer, tab == LiveDistanceMapTab));
      if IsKnownTab(tab) then
        shown.(fileChooser := tab == HicMapTab, thresholdWidget := tab == LiveMapTab,
               distanceToggleWidget := tab == LiveDistanceMapTab)
      else shown
  }

  /**
   * The browser's active pair after `tabAssessment` of tab `tab`, from the
   * display flags `d` it starts from, the remembered Hi-C and live-map pairs
   * and the active pair `b`. The Hi-C tab activates the Hi-C pair, and the
   * live tab the live-map pair, when the tab's container exists and both
   * halves of the pair are set; nothing else changes the pair.
   */
  function AssessedBrowser(d: Dom, tab: string, hicPair: Browser, livePair: Browser, b: Browser): (r: Browser)
    ensures d.viewportFound && tab == HicMapTab && d.hicContainer.Present? && IsSet(hicPair) ==> r == hicPair
    ensures d.viewportFound && tab == LiveMapTab && d.liveContactContainer.Present? && IsSet(livePair) ==> r == livePair
    ensures r != b ==>
              && d.viewportFound
              && ((tab == HicMapTab && d.hicContainer.Present? && IsSet(hicPair) && r == hicPair)
                  || (tab == LiveMapTab && d.liveContactContainer.Present? && IsSet(livePair) && r == livePair))
  {
    if d.viewportFound && tab == HicMapTab && d.hicContainer.Present? && IsSet(hicPair) then hicPair
    else if d.viewportFound && tab == LiveMapTab && d.liveContactContainer.Present? && IsSet(livePair) then livePair
    else b
  }

  /**
   * Assessing the same tab again changes nothing, so the deferred
   * re-assessment `loadSession` schedules, and a `show()` of the tab that is
   * already showing, leave the panel as it is.
   */
  lemma TabAssessmentIdempotent(d: Dom, tab: string, hicPair: Browser, livePair: Browser, b: Browser)
    ensures AssessedDom(AssessedDom(d, tab), tab) == AssessedDom(d, tab)
    ensures AssessedBrowser(AssessedDom(d, tab), tab, hicPair, livePair, AssessedBrowser(d, tab, hicPair, livePair, b))
            == AssessedBrowser(d, tab, hicPair, livePair, b)
  {
  }

  /** A container `initializeLiveMapContexts` creates when the viewport lacks it; a new one is displayed. */
  function Created(c: Container): (r: Container)
    ensures r.Present?
    ensures c.Present? ==> r == c
  {
    if c.Missing? then Present(true) else c
  }

  /**
   * The display flags after `initializeLiveMapContexts`: with a viewport,
   * both live-map containers exist afterwards and nothing else changes;
   * without one, nothing changes.
   */
  function WithLiveContainers(d: Dom): (r: Dom)
    ensures r.viewportFound == d.viewportFound
    ensures d.viewportFound ==> r.liveContactContainer.Present? && r.liveDistanceContainer.Present?
    ensures r.hicContainer == d.hicContainer
    ensures r.fileChooser == d.fileChooser && r.thresholdWidget == d.thresholdWidget
            && r.distanceToggleWidget == d.distanceToggleWidget
    ensures !d.viewportFound ==> r == d
  {
    if !d.viewportFound then d
    else d.(liveContactContainer := Created(d.liveContactContainer),
            liveDistanceContainer := Created(d.liveDistanceContainer))
  }

  /** The tab `configureTabs` shows: the Hi-C tab when a dataset other than a live map is active. */
  function InitialTab(b: Browser): (tab: string)
    ensures tab == HicMapTab <==> b.activeDataset.Some? && !IsLiveMap(b.activeDataset)
    ensures tab == HicMapTab || tab == LiveMapTab
  {
    if b.activeDataset.Some? && !IsLiveMap(b.activeDataset) then HicMapTab else LiveMapTab
  }

  class JuiceboxPanel {
    var hicDataset: Option<Dataset>
    var hicState: Option<MapState>
    var liveMapDataset: Option<Dataset>
    var liveMapState: Option<MapState>
    var browser: Browser
    var dom: Dom

    constructor (browser: Browser, dom: Dom)
      ensures hicDataset == None && hicState == None && liveMapDataset == None && liveMapState == None
      ensures this.browser == browser && this.dom == dom
    {
      hicDataset, hicState := None, None;
      liveMapDataset, liveMapState := None, None;
      this.browser := browser;
      this.dom := dom;
    }

    /**
     * `tabAssessment`: hide the three containers, show the one that belongs
     * to the active tab, activate that tab's remembered dataset/state pair
     * (Hi-C and live-map tabs only, and only when both halves are set), and
     * show only that tab's widget.
     */
    method TabAssessment(activeTabId: string)
      modifies this`dom, this`browser
      ensures dom == AssessedDom(old(dom), activeTabId)
      ensures browser == AssessedBrowser(old(dom), activeTabId, Browser(hicDataset, hicState),
                                         Browser(liveMapDataset, liveMapState), old(browser))
      ensures browser != old(browser) ==>
                && old(dom.viewportFound)
                && ((activeTabId == HicMapTab && old(dom.hicContainer).Present? && hicDataset.Some? && hicState.Some?)
                    || (activeTabId == LiveMapTab && old(dom.liveContactContainer).Present?
                        && liveMapDataset.Some? && liveMapState.Some?))
    {
      if !dom.viewportFound {
        return;
      }
      dom := dom.(hicContainer := Display(dom.hicContainer, false),
                  liveContactContainer := Display(dom.liveContactContainer, false),
                  liveDistanceContainer := Display(dom.liveDistanceContainer, false));
      if activeTabId == HicMapTab {
        if dom.hicContainer.Present? {
          dom := dom.(hicContainer := Present(true));
          if hicDataset.Some? && hicState.Some? {
            browser := Browser(hicDataset, hicState);
          }
        }
        dom := dom.(distanceToggleWidget := false, thresholdWidget := false, fileChooser := true);
      } else if activeTabId == LiveMapTab {
        if dom.liveContactContainer.Present? {
          dom := dom.(liveContactContainer := Present(true));
          if liveMapDataset.Some? && liveMapState.Some? {
            browser := Browser(liveMapDataset, liveMapState);
          }
        }
        dom := dom.(distanceToggleWidget := false, thresholdWidget := true, fileChooser := false);
      } else if activeTabId == LiveDistanceMapTab {
        if dom.liveDistanceContainer.Present? {
          dom := dom.(liveDistanceContainer := Present(true));
        }
        dom := dom.(distanceToggleWidget := true, thresholdWidget := false, fileChooser := false);
      }
    }

    /**
     * The live-map containers `initializeLiveMapContexts` creates inside the
     * viewport when they are missing.
     */
    method InitializeLiveMapContexts()
      modifies this`dom
      ensures dom == WithLiveContainers(old(dom))
    {
      if !dom.viewportFound {
        return;
      }
      if dom.liveContactContainer.Missing? {
        dom := dom.(liveContactContainer := Present(true));
      }
      if dom.liveDistanceContainer.Missing? {
        dom := dom.(liveDistanceContainer := Present(true));
      }
    }

    /**
     * The tab choice of `configureTabs`: show the Hi-C tab when a dataset
     * other than a live map is active, the live-map tab otherwise, and assess
     * the tab shown.
     */
    method ConfigureTabs() returns (tab: string)
      modifies this`dom, this`browser
      ensures tab == InitialTab(old(browser))
      ensures dom == AssessedDom(old(dom), tab)
      ensures browser == AssessedBrowser(old(dom), tab, Browser(hicDataset, hicState),
                                         Browser(liveMapDataset, liveMapState), old(browser))
    {
      if browser.activeDataset.Some? && browser.activeDataset.value.datasetType != LiveContactMap.LiveMapDatasetType {
        tab := HicMapTab;
      } else {
        tab := LiveMapTab;
      }
      TabAssessment(tab);
    }

    /**
     * The pair bookkeeping of `loadSession`. `restored` is the browser's pair
     * once Juicebox has restored the session, `afterLiveMapLoad` its pair once
     * the live-map dataset has been loaded (when an ensemble data source
     * exists). A Hi-C pair is remembered when the session names a Hi-C file
     * and restored a dataset that is not a live map; a live pair when the
     * live-map load left a live map active. The live-map containers are then
     * created, `configureTabs` shows and assesses its tab, and the session
     * ends on the Hi-C tab, with its pair re-activated, exactly when the
     * session names a Hi-C file and a Hi-C pair is remembered, on the live-map
     * tab otherwise. Showing that tab assesses it again.
     */
    method LoadSession(hasHicFile: bool, restored: Browser, datasourceAvailable: bool, afterLiveMapLoad: Browser)
      returns (tab: string)
      modifies this`browser, this`hicDataset, this`hicState, this`liveMapDataset, this`liveMapState, this`dom
      ensures hasHicFile && restored.activeDataset.Some? && !IsLiveMap(restored.activeDataset) ==>
                hicDataset == restored.activeDataset && hicState == restored.activeState
      ensures !(hasHicFile && restored.activeDataset.Some? && !IsLiveMap(restored.activeDataset)) ==>
                hicDataset == old(hicDataset) && hicState == old(hicState)
      ensures datasourceAvailable && IsLiveMap(afterLiveMapLoad.activeDataset) ==>
                liveMapDataset == afterLiveMapLoad.activeDataset && liveMapState == afterLiveMapLoad.activeState
      ensures !(datasourceAvailable && IsLiveMap(afterLiveMapLoad.activeDataset)) ==>
                liveMapDataset == old(liveMapDataset) && liveMapState == old(liveMapState)
      ensures tab == HicMapTab || tab == LiveMapTab
      ensures tab == HicMapTab <==> hasHicFile && hicDataset.Some?
      ensures var hicPair, livePair := Browser(hicDataset, hicState), Browser(liveMapDataset, liveMapState);
              var loaded := if datasourceAvailable then afterLiveMapLoad else restored;
              var initialized := WithLiveContainers(old(dom));
              var configuredTab := InitialTab(loaded);
              var configured := AssessedDom(initialized, configuredTab);
              var configuredBrowser := AssessedBrowser(initialized, configuredTab, hicPair, livePair, loaded);
              && dom == AssessedDom(configured, tab)
              && browser == AssessedBrowser(configured, tab, hicPair, livePair,
                                            if tab == HicMapTab then hicPair else configuredBrowser)
      ensures tab == HicMapTab ==> browser == Browser(hicDataset, hicState)
      ensures tab == LiveMapTab && old(dom.viewportFound) && liveMapDataset.Some? && liveMapState.Some? ==>
                browser == Browser(liveMapDataset, liveMapState)
      ensures old(dom.viewportFound) ==>
                && dom.hicContainer == Display(old(dom.hicContainer), tab == HicMapTab)
                && dom.liveContactContainer == Present(tab == LiveMapTab)
                && dom.liveDistanceContainer == Present(false)
    {
      browser := restored;
      if hasHicFile && browser.activeDataset.Some? && browser.activeDataset.value.datasetType != LiveContactMap.LiveMapDatasetType {
        hicDataset := browser.activeDataset;
        hicState := browser.activeState;
      }
      InitializeLiveMapContexts();
      if datasourceAvailable {
        browser := afterLiveMapLoad;
        if browser.activeDataset.Some? && browser.activeDataset.value.datasetType == LiveContactMap.LiveMapDatasetType {
          liveMapDataset := browser.activeDataset;
          liveMapState := browser.activeState;
        }
      }
      var configuredTab := ConfigureTabs();
      if hasHicFile && hicDataset.Some? {
        browser := Browser(hicDataset, hicState);
        tab := HicMapTab;
      } else {
        tab := LiveMapTab;
      }
      TabAssessment(tab);
    }

    /**
     * The non-drawing steps of `renderLiveMapWithContactData`. A browser
     * whose active dataset is not a live map first loads one
     * (`afterLiveMapLoad`); without an active dataset and state nothing
     * happens. Otherwise the canvases are sized to the viewport, the buffer
     * is painted, and the transfer needs a live canvas with no zero side
     * after one more resize attempt (to the `retry` viewport); it is direct
     * exactly when the canvas is `liveMapTraceLength` pixels on both sides.
     */
    method RenderLiveMapWithContactData<C, B>(view: ContactMatrixView, contactFrequencies: Option<seq<real>>,
                                              rgbaMatrix: array?<byte>, liveMapTraceLength: nat, afterLiveMapLoad: Browser,
                                              viewportWidth: nat, viewportHeight: nat, retryWidth: nat, retryHeight: nat,
                                              getColor: real -> C, compositeColors: (C, B) -> Rgb, background: B)
      returns (outcome: RenderOutcome)
      modifies this`browser, rgbaMatrix, view.ctxLive, view.ctxLiveDistance
      ensures browser == if IsLiveMap(old(browser).activeDataset) then old(browser) else afterLiveMapLoad
      ensures outcome == NoActiveDataset <==> browser.activeDataset.None? || browser.activeState.None?
      ensures outcome != NoActiveDataset ==>
                var retried := outcome != PaintFailed && view.ctxLive != null
                               && Resized(old(view.ctxLive.Dimensions()), viewportWidth, viewportHeight).HasZeroSide();
                && (view.ctxLive != null ==>
                      view.ctxLive.Dimensions()
                      == RenderedSize(old(view.ctxLive.Dimensions()), retried, viewportWidth, viewportHeight, retryWidth, retryHeight))
                && (view.ctxLiveDistance != null ==>
                      view.ctxLiveDistance.Dimensions()
                      == RenderedSize(old(view.ctxLiveDistance.Dimensions()), retried, viewportWidth, viewportHeight, retryWidth, retryHeight))
      ensures outcome == NoActiveDataset ==>
                && (rgbaMatrix != null ==> unchanged(rgbaMatrix))
                && (view.ctxLive != null ==> unchanged(view.ctxLive))
                && (view.ctxLiveDistance != null ==> unchanged(view.ctxLiveDistance))
      ensures outcome != NoActiveDataset ==>
                (outcome == PaintFailed <==>
                   contactFrequencies.None? || (rgbaMatrix == null && |contactFrequencies.value| > 0))
      ensures outcome == PaintFailed && rgbaMatrix != null ==> unchanged(rgbaMatrix)
      ensures outcome != NoActiveDataset && outcome != PaintFailed && rgbaMatrix != null ==>
                rgbaMatrix[..] == Painted(old(rgbaMatrix[..]), contactFrequencies.value, getColor, compositeColors, background)
      ensures outcome == NoLiveContext ==> view.ctxLive == null
      ensures outcome == InvalidCanvas ==> view.ctxLive != null && (view.ctxLive.width == 0 || view.ctxLive.height == 0)
      ensures outcome.Transferred() ==> view.ctxLive != null && view.ctxLive.width > 0 && view.ctxLive.height > 0
      ensures outcome.Transferred() ==>
                (outcome == DirectTransfer <==>
                   view.ctxLive.width == liveMapTraceLength && view.ctxLive.height == liveMapTraceLength)
      ensures outcome.Transferred() && viewportWidth != 0 && viewportHeight != 0 ==>
                view.ctxLive.width == viewportWidth && view.ctxLive.height == viewportHeight
                && (outcome == DirectTransfer <==> viewportWidth == liveMapTraceLength && viewportHeight == liveMapTraceLength)
      ensures outcome == InvalidCanvas ==> retryWidth == 0 || retryHeight == 0
    {
      if !IsLiveMap(browser.activeDataset) {
        browser := afterLiveMapLoad;
      }
      if browser.activeState.None? || browser.activeDataset.None? {
        return NoActiveDataset;
      }
      UpdateLiveMapCanvasSizes(view, viewportWidth, viewportHeight);
      if contactFrequencies.None? || (rgbaMatrix == null && |contactFrequencies.value| > 0) {
        return PaintFailed;
      }
      if rgbaMatrix != null {
        PaintContactMapRGBAMatrix(contactFrequencies.value, rgbaMatrix, getColor, compositeColors, background);
      }
      outcome := TransferToLiveCanvas(view, liveMapTraceLength, retryWidth, retryHeight);
    }
  }
}
