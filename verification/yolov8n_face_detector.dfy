/** `Yolov8nFaceDetector`: the anchor-free head of yolov8-face. Every output
    is a `[1, C, feat_h, feat_w]` tensor laid out channel-major: 64
    distribution-focal-loss (DFL) channels (4 sides x `reg_max` bins), one
    class channel, then 15 keypoint channels (5 points x (x, y, conf)). Cells
    whose class probability passes 0.5 become proposals; the proposals of all
    outputs go through greedy NMS. */
module Yolov8nFaceDetector {
  import opened Faults
  import opened Drawing
  import opened Tensors
  import opened Nms
  import opened DetectionResult
  import opened SkiaSharp
  import opened SkiaSharpImageConvert
  import opened BaseFaceDetector
  import opened OutputLoop

  const NumClass: nat := 1
  const RegMax: nat := 16
  const NumKeypoints: nat := 5
  /** The starting value of the class-logit maximum. */
  const MinLogit: real := -10000.0
  /** A cell becomes a proposal when its class probability exceeds this. */
  const BoxThreshold: real := 0.5
  /** The thresholds `Detect` passes to `NMSBoxes` (its `topK` stays 0). */
  const ScoreThreshold: real := 0.5
  const NmsThreshold: real := 0.5

  type Positive = r: real | r > 0.0 witness 1.0

  // ---------------------------------------------------------------------
  // Activations
  // ---------------------------------------------------------------------

  /** `SigmoidX`: `1 / (1 + e^-x)`, built on an uninterpreted, positive
      `Math.Exp`. */
  function Sigmoid(exp: real -> Positive, x: real): (r: real)
    ensures 0.0 < r < 1.0
    ensures r > 0.5 <==> exp(-x) < 1.0
  {
    1.0 / (1.0 + exp(-x))
  }

  function Sum(s: seq<real>): real
  {
    if |s| == 0 then 0.0 else Sum(s[..|s| - 1]) + s[|s| - 1]
  }

  lemma {:induction false} SumPositive(s: seq<real>)
    requires |s| > 0 && forall k :: 0 <= k < |s| ==> s[k] > 0.0
    ensures Sum(s) > 0.0
    ensures forall k :: 0 <= k < |s| ==> s[k] <= Sum(s)
    decreases |s|
  {
    var init := s[..|s| - 1];
    if |init| > 0 {
      SumPositive(init);
      assert forall k :: 0 <= k < |init| ==> init[k] == s[k];
    }
  }

  /** The exponentials of the first loop of `Softmax`. */
  function Exps(v: seq<real>, exp: real -> Positive): (e: seq<real>)
    ensures |e| == |v| && forall k :: 0 <= k < |e| ==> e[k] > 0.0
  {
    seq(|v|, k requires 0 <= k < |v| => exp(v[k]) as real)
  }

  /** `Softmax`: every exponential divided by their sum (the source does not
      subtract the maximum first). */
  function Softmax(v: seq<real>, exp: real -> Positive): (p: seq<real>)
    requires |v| > 0
    ensures |p| == |v|
    ensures forall k :: 0 <= k < |p| ==> 0.0 < p[k] <= 1.0
  {
    var e := Exps(v, exp);
    SumPositive(e);
    DivByTotal(e, Sum(e));
    seq(|v|, k requires 0 <= k < |v| => e[k] / Sum(e))
  }

  /** Positive parts divided by a total at least as large as each lie in
      `(0, 1]`. */
  lemma DivByTotal(e: seq<real>, total: real)
    requires forall k :: 0 <= k < |e| ==> 0.0 < e[k] <= total
    ensures forall k :: 0 <= k < |e| ==> 0.0 < e[k] / total <= 1.0
  {
    forall k | 0 <= k < |e|
      ensures 0.0 < e[k] / total <= 1.0
    {
      assert e[k] / total * total == e[k];
    }
  }

  lemma {:induction false} SumDiv(a: seq<real>, b: seq<real>, d: real)
    requires d > 0.0 && |a| == |b| && forall k :: 0 <= k < |a| ==> b[k] == a[k] / d
    ensures Sum(b) == Sum(a) / d
    decreases |a|
  {
    if |a| > 0 {
      var n := |a| - 1;
      SumDiv(a[..n], b[..n], d);
      assert Sum(b) == Sum(a[..n]) / d + a[n] / d;
    }
  }

  /** The softmax weights add up to one. */
  lemma SoftmaxSumsToOne(v: seq<real>, exp: real -> Positive)
    requires |v| > 0
    ensures Sum(Softmax(v, exp)) == 1.0
  {
    var e := Exps(v, exp);
    SumPositive(e);
    SumDiv(e, Softmax(v, exp), Sum(e));
  }

  /** `dis += n * dfl_softmax[n]` over the first `m` bins. */
  function Expectation(p: seq<real>, m: nat): real
    requires m <= |p|
  {
    if m == 0 then 0.0 else Expectation(p, m - 1) + (m - 1) as real * p[m - 1]
  }

  /** With non-negative weights, the expectation over `m` bins lies between
      0 and `(m - 1)` times the total weight of those bins. */
  lemma {:induction false} ExpectationBounds(p: seq<real>, m: nat)
    requires m <= |p| && forall k :: 0 <= k < |p| ==> p[k] >= 0.0
    ensures 0.0 <= Expectation(p, m)
    ensures m > 0 ==> Expectation(p, m) <= (m - 1) as real * Sum(p[..m])
    decreases m
  {
    if m > 0 {
      ExpectationBounds(p, m - 1);
      assert p[..m][..m - 1] == p[..m - 1];
      var w := (m - 1) as real;
      assert Sum(p[..m]) == Sum(p[..m - 1]) + p[m - 1];
      if m > 1 {
        SumNonNegative(p[..m - 1]);
        assert Expectation(p, m - 1) <= (w - 1.0) * Sum(p[..m - 1]);
        assert (w - 1.0) * Sum(p[..m - 1]) <= w * Sum(p[..m - 1]);
      }
    }
  }

  lemma {:induction false} SumNonNegative(s: seq<real>)
    requires forall k :: 0 <= k < |s| ==> s[k] >= 0.0
    ensures Sum(s) >= 0.0
    decreases |s|
  {
    if |s| > 0 {
      SumNonNegative(s[..|s| - 1]);
    }
  }

  /** The DFL expectation of a softmax over `reg_max` bins lies in
      `[0, reg_max - 1]`. */
  lemma DflExpectationBounds(v: seq<real>, exp: real -> Positive)
    requires |v| == RegMax
    ensures 0.0 <= Expectation(Softmax(v, exp), RegMax) <= (RegMax - 1) as real
  {
    var p := Softmax(v, exp);
    ExpectationBounds(p, RegMax);
    SoftmaxSumsToOne(v, exp);
    assert p[..RegMax] == p;
  }

  // ---------------------------------------------------------------------
  // Layout
  // ---------------------------------------------------------------------

  /** One output's feature map: `feat_h x feat_w` cells, each `stride` input
      pixels wide. */
  datatype Grid = Grid(featH: nat, featW: nat, stride: int) {
    function Area(): nat { featH * featW }
    /** `clsIndex`: where the class block starts. */
    function ClsIndex(): nat { Area() * RegMax * 4 }
    /** `kpIndex`: where the keypoint block starts. */
    function KpIndex(): nat { Area() * (RegMax * 4 + 1) }
  }

  /** The class block follows the 64 DFL channels, and the keypoint block
      follows the single class channel. */
  lemma BlockOffsets(g: Grid)
    ensures g.ClsIndex() == 64 * g.Area()
    ensures g.KpIndex() == g.ClsIndex() + NumClass * g.Area()
  {
  }

  /** `stride = ceil(InputSize.Height / feat_h)`: the least `s` with
      `InputSize.Height <= s * feat_h`. */
  function Stride(inputHeight: nat, featH: nat): (s: int)
    requires featH > 0
    ensures (s - 1) * featH < inputHeight <= s * featH
  {
    var s := (inputHeight + featH - 1) / featH;
    var m := (inputHeight + featH - 1) % featH;
    assert inputHeight + featH - 1 == s * featH + m;
    assert (s - 1) * featH == s * featH - featH;
    s
  }

  /** The grid of an output of the given shape. With `feat_h = 0` there are
      no cells and the stride is never used. */
  function GridOf(shape: seq<nat>, inputHeight: nat): (g: Grid)
    requires |shape| >= 4
    ensures g.featH == shape[2] && g.featW == shape[3]
    ensures g.featH > 0 ==> g.stride == Stride(inputHeight, g.featH)
  {
    Grid(shape[2], shape[3], if shape[2] > 0 then Stride(inputHeight, shape[2]) else 0)
  }

  /** Channel `channel` of cell `cell`: the flat offset `channel * area + cell`. */
  function ChannelOffset(g: Grid, channel: nat, cell: nat): nat
  {
    channel * g.Area() + cell
  }

  /** `(k * reg_max + n) * area + index`: bin `n` of side `k`. */
  function DflOffset(g: Grid, k: nat, n: nat, cell: nat): nat
  {
    ChannelOffset(g, k * RegMax + n, cell)
  }

  /** `clsIndex + k * area + index`: the logit of class `k`. */
  function ClsOffset(g: Grid, k: nat, cell: nat): nat
  {
    g.ClsIndex() + ChannelOffset(g, k, cell)
  }

  /** `kpIndex + (3k + axis) * area + index`: coordinate `axis` (0 for x, 1
      for y) of keypoint `k`. */
  function KpOffset(g: Grid, k: nat, axis: nat, cell: nat): nat
  {
    g.KpIndex() + ChannelOffset(g, 3 * k + axis, cell)
  }

  lemma MulMono(a: nat, b: nat, w: nat)
    requires a <= b
    ensures a * w <= b * w
  {
    assert b * w - a * w == (b - a) * w;
  }

  /** Channel `c` of a cell lies in the `c`-th block of `area` floats. */
  lemma ChannelInBlock(g: Grid, channel: nat, cell: nat, blocks: nat)
    requires cell < g.Area() && channel < blocks
    ensures channel * g.Area() <= ChannelOffset(g, channel, cell) < blocks * g.Area()
  {
    assert (channel + 1) * g.Area() == channel * g.Area() + g.Area();
    MulMono(channel + 1, blocks, g.Area());
  }

  /** Different channels or cells never share a slot. */
  lemma ChannelOffsetInjective(g: Grid, c1: nat, cell1: nat, c2: nat, cell2: nat)
    requires cell1 < g.Area() && cell2 < g.Area()
    requires ChannelOffset(g, c1, cell1) == ChannelOffset(g, c2, cell2)
    ensures c1 == c2 && cell1 == cell2
  {
    RowMajor(g.Area(), cell1, c1);
    RowMajor(g.Area(), cell2, c2);
  }

  /** Every DFL read stays below the class block. */
  lemma DflInRange(g: Grid, cell: nat)
    requires cell < g.Area()
    ensures forall k: nat, n: nat :: k < 4 && n < RegMax ==> DflOffset(g, k, n, cell) < g.ClsIndex()
  {
    forall k: nat, n: nat | k < 4 && n < RegMax ensures DflOffset(g, k, n, cell) < g.ClsIndex() {
      ChannelInBlock(g, k * RegMax + n, cell, 64);
    }
  }

  /** Every keypoint read of a cell is at most its last one, the y of the
      fifth point. */
  lemma KpReadsBounded(g: Grid, cell: nat)
    requires cell < g.Area()
    ensures forall k: nat, axis: nat :: k < NumKeypoints && axis < 2 ==>
      g.KpIndex() <= KpOffset(g, k, axis, cell) <= KpOffset(g, NumKeypoints - 1, 1, cell)
  {
    forall k: nat, axis: nat | k < NumKeypoints && axis < 2
      ensures KpOffset(g, k, axis, cell) <= KpOffset(g, NumKeypoints - 1, 1, cell)
    {
      MulMono(3 * k + axis, 3 * (NumKeypoints - 1) + 1, g.Area());
    }
  }

  // ---------------------------------------------------------------------
  // One cell
  // ---------------------------------------------------------------------

  /** What one `GenerateProposal` call reads: the output's buffer and grid,
      `Math.Exp`, the bitmap's size and the bitmap-to-input ratios. */
  datatype Frame = Frame(
    data: seq<real>,
    grid: Grid,
    exp: real -> Positive,
    imgH: int,
    imgW: int,
    ratioH: real,
    ratioW: real)

  /** Both `Slice` calls succeed: the keypoint block (and so the class block
      before it) starts inside the buffer. */
  predicate SlicesFit(f: Frame)
  {
    f.grid.KpIndex() <= |f.data|
  }

  /** `max_conf` after the scan over the first `n` classes, starting at -10000. */
  function MaxClassLogit(f: Frame, cell: nat, n: nat): (m: real)
    requires SlicesFit(f) && cell < f.grid.Area() && n <= NumClass
    ensures m >= MinLogit
    ensures forall k: nat :: k < n ==> m >= f.data[ClsOffset(f.grid, k, cell)]
    ensures m == MinLogit || exists k: nat :: k < n && m == f.data[ClsOffset(f.grid, k, cell)]
  {
    if n == 0 then MinLogit
    else
      var m := MaxClassLogit(f, cell, n - 1);
      ChannelInBlock(f.grid, n - 1, cell, NumClass);
      var conf := f.data[ClsOffset(f.grid, n - 1, cell)];
      if conf > m then conf else m
  }

  /** The cell's class probability. */
  function BoxProb(f: Frame, cell: nat): real
    requires SlicesFit(f) && cell < f.grid.Area()
  {
    Sigmoid(f.exp, MaxClassLogit(f, cell, NumClass))
  }

  /** `box_prob > 0.5`: the cell becomes a proposal. */
  predicate Firing(f: Frame, cell: nat)
    requires SlicesFit(f) && cell < f.grid.Area()
  {
    BoxProb(f, cell) > BoxThreshold
  }

  /** The 16 logits of side `k` (left, top, right, bottom). */
  function DflLogits(f: Frame, cell: nat, k: nat): (v: seq<real>)
    requires SlicesFit(f) && cell < f.grid.Area() && k < 4
    ensures |v| == RegMax
  {
    DflInRange(f.grid, cell);
    seq(RegMax, n requires 0 <= n < RegMax => f.data[DflOffset(f.grid, k, n, cell)])
  }

  /** `pred_ltrb[k]`: the expected bin of side `k`, times the stride. */
  function Distance(f: Frame, cell: nat, k: nat): real
    requires SlicesFit(f) && cell < f.grid.Area() && k < 4
  {
    Expectation(Softmax(DflLogits(f, cell, k), f.exp), RegMax) * f.grid.stride as real
  }

  /** With a non-negative stride every side distance lies in
      `[0, (reg_max - 1) * stride]`. */
  lemma DistanceBounds(f: Frame, cell: nat, k: nat)
    requires SlicesFit(f) && cell < f.grid.Area() && k < 4 && f.grid.stride >= 0
    ensures 0.0 <= Distance(f, cell, k) <= (RegMax - 1) as real * f.grid.stride as real
  {
    var e := Expectation(Softmax(DflLogits(f, cell, k), f.exp), RegMax);
    DflExpectationBounds(DflLogits(f, cell, k), f.exp);
    ScaleBounds(e, (RegMax - 1) as real, f.grid.stride as real);
  }

  lemma ScaleBounds(a: real, b: real, c: real)
    requires 0.0 <= a <= b && c >= 0.0
    ensures 0.0 <= a * c <= b * c
  {
    assert b * c - a * c == (b - a) * c;
  }

  lemma AreaPositive(g: Grid, cell: nat)
    requires cell < g.Area()
    ensures g.featW > 0 && cell / g.featW < g.featH
  {
    if cell / g.featW >= g.featH {
      MulMono(g.featH, cell / g.featW, g.featW);
      assert false;
    }
  }

  /** `Math.Max(v, 0f)`, then the `(int)` cast: never negative. */
  lemma TruncClampLow(v: real)
    ensures Trunc(MaxReal(v, 0.0)) >= 0
  {
  }

  /** For `0 <= lo <= hi <= limit`, `(int)lo + (int)(hi - lo) <= limit`: a
      clamped box never extends past the clamp. */
  lemma TruncSpan(lo: real, hi: real, limit: int)
    requires 0.0 <= lo <= hi <= limit as real
    ensures Trunc(lo) + Trunc(hi - lo) <= limit
  {
    assert Trunc(lo) as real <= lo && Trunc(hi - lo) as real <= hi - lo;
    assert (Trunc(lo) + Trunc(hi - lo)) as real <= limit as real;
  }

  /** `(int)lo` and `(int)(hi - lo)` of a clamped edge pair: the start is
      never negative, and a positive length never runs past `limit`. */
  lemma ClampedEdges(lo: real, hi: real, limit: int)
    requires lo >= 0.0 && hi <= limit as real
    ensures Trunc(lo) >= 0
    ensures Trunc(hi - lo) <= 0 || Trunc(lo) + Trunc(hi - lo) <= limit
  {
    if hi >= lo {
      TruncSpan(lo, hi, limit);
    }
  }

  /** The box of a firing cell: the cell centre `((j + 0.5) * stride,
      (i + 0.5) * stride)` minus the left and top distances and plus the right
      and bottom ones, scaled to the bitmap, clamped to
      `[0, imgw - 1] x [0, imgh - 1]`, and truncated. */
  function CellBox(f: Frame, cell: nat): (b: Rectangle)
    requires SlicesFit(f) && cell < f.grid.Area()
    ensures b.x >= 0 && b.y >= 0
    ensures b.width <= 0 || b.x + b.width <= f.imgW - 1
    ensures b.height <= 0 || b.y + b.height <= f.imgH - 1
  {
    AreaPositive(f.grid, cell);
    var i, j := cell / f.grid.featW, cell % f.grid.featW;
    var stride := f.grid.stride as real;
    var cx := (j as real + 0.5) * stride;
    var cy := (i as real + 0.5) * stride;
    var xmin := MaxReal((cx - Distance(f, cell, 0)) * f.ratioW, 0.0);
    var ymin := MaxReal((cy - Distance(f, cell, 1)) * f.ratioH, 0.0);
    var xmax := MinReal((cx + Distance(f, cell, 2)) * f.ratioW, (f.imgW - 1) as real);
    var ymax := MinReal((cy + Distance(f, cell, 3)) * f.ratioH, (f.imgH - 1) as real);
    ClampedEdges(xmin, xmax, f.imgW - 1);
    ClampedEdges(ymin, ymax, f.imgH - 1);
    Rectangle(Trunc(xmin), Trunc(ymin), Trunc(xmax - xmin), Trunc(ymax - ymin))
  }

  /** All ten keypoint reads of the cell are inside the buffer (the last
      one, the fifth point's y, decides). */
  predicate KeypointsInRange(f: Frame, cell: nat)
  {
    KpOffset(f.grid, NumKeypoints - 1, 1, cell) < |f.data|
  }

  /** The five landmarks: `((kp_x * 2 + j) * stride) * ratiow` and
      `((kp_y * 2 + i) * stride) * ratioh`, truncated. */
  function CellLandmarks(f: Frame, cell: nat): (pts: seq<Point>)
    requires SlicesFit(f) && cell < f.grid.Area() && KeypointsInRange(f, cell)
    ensures |pts| == NumKeypoints
  {
    AreaPositive(f.grid, cell);
    KpReadsBounded(f.grid, cell);
    var i, j := cell / f.grid.featW, cell % f.grid.featW;
    var stride := f.grid.stride as real;
    seq(NumKeypoints, k requires 0 <= k < NumKeypoints =>
      Point(Trunc(((f.data[KpOffset(f.grid, k, 0, cell)] * 2.0 + j as real) * stride) * f.ratioW),
            Trunc(((f.data[KpOffset(f.grid, k, 1, cell)] * 2.0 + i as real) * stride) * f.ratioH)))
  }

  /** What a firing cell appends: one box, one confidence, one landmark list. */
  datatype Proposal = Proposal(box: Rectangle, confidence: real, landmarks: seq<Point>)

  function CellProposal(f: Frame, cell: nat): (p: Proposal)
    requires SlicesFit(f) && cell < f.grid.Area() && KeypointsInRange(f, cell)
  {
    Proposal(CellBox(f, cell), BoxProb(f, cell), CellLandmarks(f, cell))
  }

  // ---------------------------------------------------------------------
  // The proposal lists
  // ---------------------------------------------------------------------

  /** The three lists `Detect` hands to every `GenerateProposal` call. */
  datatype Proposals = Proposals(boxes: seq<Rectangle>, confidences: seq<real>, landmarks: seq<seq<Point>>) {
    /** The lists describe the same proposals, entry by entry. */
    predicate Parallel()
    {
      |boxes| == |confidences| == |landmarks|
    }

    function Add(p: Proposal): Proposals
    {
      Proposals(boxes + [p.box], confidences + [p.confidence], landmarks + [p.landmarks])
    }
  }

  const NoProposals := Proposals([], [], [])

  /** What a scan asks about each of the first `area` cells: does it fire,
      do its keypoint reads stay inside the buffer, and what does it append.
      The scan itself does not depend on how these are computed. */
  datatype CellTests = CellTests(area: nat, fires: nat -> bool, fits: nat -> bool, decode: nat -> Proposal)

  /** The firing cells among the first `n`, in row-major order. */
  function FiringCells(t: CellTests, n: nat): (cells: seq<nat>)
  {
    if n == 0 then []
    else FiringCells(t, n - 1) + (if t.fires(n - 1) then [n - 1] else [])
  }

  /** Exactly the firing cells below `n` are listed, each once, in
      increasing order. */
  lemma {:induction false} FiringCellsExact(t: CellTests, n: nat)
    ensures forall k :: 0 <= k < |FiringCells(t, n)| ==> FiringCells(t, n)[k] < n && t.fires(FiringCells(t, n)[k])
    ensures forall k, l :: 0 <= k < l < |FiringCells(t, n)| ==> FiringCells(t, n)[k] < FiringCells(t, n)[l]
    ensures forall c: nat :: c < n && t.fires(c) ==> c in FiringCells(t, n)
  {
    if n > 0 {
      FiringCellsExact(t, n - 1);
    }
  }

  /** Some firing cell among the first `n` reads a keypoint past the end. */
  predicate KeypointFault(t: CellTests, n: nat)
  {
    exists c: nat :: c < n && t.fires(c) && !t.fits(c)
  }

  /** The proposals of `cells`, in order. */
  function Decode(t: CellTests, cells: seq<nat>): (ps: seq<Proposal>)
  {
    seq(|cells|, k requires 0 <= k < |cells| => t.decode(cells[k]))
  }

  /** `acc` with the proposals `ps` appended in order. */
  function Appended(acc: Proposals, ps: seq<Proposal>): (r: Proposals)
    ensures |r.boxes| == |acc.boxes| + |ps|
    ensures |r.confidences| == |acc.confidences| + |ps|
    ensures |r.landmarks| == |acc.landmarks| + |ps|
    decreases |ps|
  {
    if |ps| == 0 then acc else Appended(acc, ps[..|ps| - 1]).Add(ps[|ps| - 1])
  }

  /** Appending keeps the entries already there, so parallel lists stay
      parallel. */
  lemma {:induction false} AppendedKeepsPrefix(acc: Proposals, ps: seq<Proposal>)
    ensures var r := Appended(acc, ps);
      && (acc.Parallel() ==> r.Parallel())
      && r.boxes[..|acc.boxes|] == acc.boxes
      && r.confidences[..|acc.confidences|] == acc.confidences
      && r.landmarks[..|acc.landmarks|] == acc.landmarks
    decreases |ps|
  {
    if |ps| > 0 {
      var n := |ps| - 1;
      AppendedKeepsPrefix(acc, ps[..n]);
      var prev := Appended(acc, ps[..n]);
      var r := Appended(acc, ps);
      assert r.boxes[..|acc.boxes|] == prev.boxes[..|acc.boxes|];
      assert r.confidences[..|acc.confidences|] == prev.confidences[..|acc.confidences|];
      assert r.landmarks[..|acc.landmarks|] == prev.landmarks[..|acc.landmarks|];
    }
  }

  /** Each proposal appends exactly one entry to each list: entry
      `|acc| + k` of each list is the box, confidence or landmarks of the
      `k`-th proposal. */
  lemma {:induction false} AppendedEntries(acc: Proposals, ps: seq<Proposal>)
    ensures forall k :: 0 <= k < |ps| ==>
      && Appended(acc, ps).boxes[|acc.boxes| + k] == ps[k].box
      && Appended(acc, ps).confidences[|acc.confidences| + k] == ps[k].confidence
      && Appended(acc, ps).landmarks[|acc.landmarks| + k] == ps[k].landmarks
    decreases |ps|
  {
    if |ps| > 0 {
      var n := |ps| - 1;
      AppendedEntries(acc, ps[..n]);
      assert forall k :: 0 <= k < n ==> ps[..n][k] == ps[k];
    }
  }

  lemma AppendedSnoc(acc: Proposals, ps: seq<Proposal>, p: Proposal)
    ensures Appended(acc, ps + [p]) == Appended(acc, ps).Add(p)
  {
    assert (ps + [p])[..|ps|] == ps;
  }

  /** The outcome of scanning every cell: the first firing cell whose
      keypoints run past the end throws; otherwise the proposals of every
      firing cell are appended in row-major order. */
  function ScanOf(acc: Proposals, t: CellTests): (r: Result<Proposals>)
    ensures r.Err? <==> KeypointFault(t, t.area)
  {
    if KeypointFault(t, t.area) then Err(IndexOutOfRange)
    else Ok(Appended(acc, Decode(t, FiringCells(t, t.area))))
  }

  /** After the first `n` cells, the lists hold exactly the proposals of
      the firing ones, and none of them has faulted. */
  predicate Scanned(t: CellTests, acc: Proposals, n: nat, cells: seq<nat>, props: Proposals)
  {
    && n <= t.area && cells == FiringCells(t, n) && !KeypointFault(t, n)
    && props == Appended(acc, Decode(t, cells))
  }

  lemma ScanStarts(t: CellTests, acc: Proposals)
    ensures Scanned(t, acc, 0, [], acc)
  {
    assert Decode(t, []) == [];
  }

  /** Visiting cell `n` lists it exactly when it fires, and faults exactly
      when it fires with its keypoints out of range. */
  lemma VisitCell(t: CellTests, n: nat)
    ensures FiringCells(t, n + 1) == FiringCells(t, n) + (if t.fires(n) then [n] else [])
    ensures !KeypointFault(t, n) && (t.fires(n) ==> t.fits(n)) ==> !KeypointFault(t, n + 1)
  {
  }

  lemma DecodeSnoc(t: CellTests, cells: seq<nat>, n: nat)
    ensures Decode(t, cells + [n]) == Decode(t, cells) + [t.decode(n)]
  {
  }

  /** A cell that does not fire changes nothing. */
  lemma ScanSkips(t: CellTests, acc: Proposals, n: nat, cells: seq<nat>, props: Proposals)
    requires Scanned(t, acc, n, cells, props) && n < t.area && !t.fires(n)
    ensures Scanned(t, acc, n + 1, cells, props)
  {
    VisitCell(t, n);
  }

  /** A firing cell with its keypoints in range appends its proposal. */
  lemma ScanAppends(t: CellTests, acc: Proposals, n: nat, cells: seq<nat>, props: Proposals)
    requires Scanned(t, acc, n, cells, props) && n < t.area
    requires t.fires(n) && t.fits(n)
    ensures Scanned(t, acc, n + 1, cells + [n], props.Add(t.decode(n)))
  {
    VisitCell(t, n);
    DecodeSnoc(t, cells, n);
    AppendedSnoc(acc, Decode(t, cells), t.decode(n));
  }

  /** A firing cell whose keypoints run past the end faults the scan. */
  lemma ScanFaults(t: CellTests, n: nat)
    requires n < t.area && t.fires(n) && !t.fits(n)
    ensures KeypointFault(t, t.area)
  {
  }

  /** The inner loop of `GenerateProposal`: visits the `width` cells of the
      row that starts at cell `start` and appends the proposal of every
      firing one. */
  method ScanRow(t: CellTests, start: nat, width: nat, acc: Proposals, props0: Proposals, ghost cells0: seq<nat>)
    returns (r: Result<Proposals>, ghost cells: seq<nat>)
    requires start + width <= t.area
    requires Scanned(t, acc, start, cells0, props0)
    ensures r.Err? ==> r.fault == IndexOutOfRange && KeypointFault(t, t.area)
    ensures r.Ok? ==> Scanned(t, acc, start + width, cells, r.value)
  {
    var props := props0;
    cells := cells0;
    for j := 0 to width
      invariant Scanned(t, acc, start + j, cells, props)
    {
      var index := start + j;
      if t.fires(index) {
        if !t.fits(index) {
          ScanFaults(t, index);
          return Err(IndexOutOfRange), cells;
        }
        ScanAppends(t, acc, index, cells, props);
        props := props.Add(t.decode(index));
        cells := cells + [index];
      } else {
        ScanSkips(t, acc, index, cells, props);
      }
    }
    return Ok(props), cells;
  }

  /** The outer loop of `GenerateProposal`: visits the `height` rows of a
      grid of `height * width` cells in order. */
  method ScanCells(t: CellTests, height: nat, width: nat, acc: Proposals) returns (r: Result<Proposals>)
    requires t.area == height * width
    ensures r == ScanOf(acc, t)
  {
    var props := acc;
    ghost var cells: seq<nat> := [];
    ScanStarts(t, acc);
    for i := 0 to height
      invariant Scanned(t, acc, i * width, cells, props)
    {
      MulMono(i + 1, height, width);
      assert (i + 1) * width == i * width + width;
      var row;
      row, cells := ScanRow(t, i * width, width, acc, props, cells);
      if row.Err? {
        return row;
      }
      props := row.value;
    }
    return Ok(props);
  }

  /** The per-cell tests of a frame: `box_prob > 0.5`, the fifth keypoint's
      y inside the buffer, and the cell's proposal. */
  function TestsOf(f: Frame): (t: CellTests)
    requires SlicesFit(f)
  {
    CellTests(f.grid.Area(),
              (c: nat) => SlicesFit(f) && c < f.grid.Area() && Firing(f, c),
              (c: nat) => KeypointsInRange(f, c),
              (c: nat) => if SlicesFit(f) && c < f.grid.Area() && KeypointsInRange(f, c) then CellProposal(f, c)
                   else Proposal(Rectangle(0, 0, 0, 0), 0.0, []))
  }

  /** The outcome `GenerateProposal` must produce: a shape of rank below 4
      makes `shape[2]`/`shape[3]` throw; a keypoint block past the end makes
      `Slice` throw; otherwise the scan decides. */
  function ProposalsOf(acc: Proposals, output: Tensor, inputHeight: nat, imgH: int, imgW: int,
                       ratioH: real, ratioW: real, exp: real -> Positive): (r: Result<Proposals>)
    ensures |output.shape| < 4 ==> r == Err(IndexOutOfRange)
  {
    if |output.shape| < 4 then Err(IndexOutOfRange)
    else
      var f := Frame(output.data, GridOf(output.shape, inputHeight), exp, imgH, imgW, ratioH, ratioW);
      if !SlicesFit(f) then Err(SliceOutOfRange) else ScanOf(acc, TestsOf(f))
  }

  /** `GenerateProposal`: reads the grid from the output's shape, checks
      that the keypoint block fits, and scans the cells row by row. */
  method GenerateProposal(acc: Proposals, output: Tensor, inputHeight: nat, imgH: int, imgW: int,
                          ratioH: real, ratioW: real, exp: real -> Positive) returns (r: Result<Proposals>)
    ensures r == ProposalsOf(acc, output, inputHeight, imgH, imgW, ratioH, ratioW, exp)
  {
    if |output.shape| < 4 {
      return Err(IndexOutOfRange);
    }
    var f := Frame(output.data, GridOf(output.shape, inputHeight), exp, imgH, imgW, ratioH, ratioW);
    if f.grid.KpIndex() > |output.data| {
      return Err(SliceOutOfRange);
    }
    r := ScanCells(TestsOf(f), f.grid.featH, f.grid.featW, acc);
  }

  // ---------------------------------------------------------------------
  // What the proposals promise
  // ---------------------------------------------------------------------

  /** A proposal as `GenerateProposal` can emit it on a bitmap of
      `imgW x imgH`: more than even odds, a box whose corner is inside the
      bitmap and whose positive sides stop at its last row and column, and
      five landmarks. */
  predicate Plausible(p: Proposal, imgW: int, imgH: int)
  {
    && p.confidence > BoxThreshold
    && p.box.x >= 0 && p.box.y >= 0
    && (p.box.width <= 0 || p.box.x + p.box.width <= imgW - 1)
    && (p.box.height <= 0 || p.box.y + p.box.height <= imgH - 1)
    && |p.landmarks| == NumKeypoints
  }

  /** Entry `k` of the three lists, as one proposal. */
  function Entry(ps: Proposals, k: nat): Proposal
    requires ps.Parallel() && k < |ps.boxes|
  {
    Proposal(ps.boxes[k], ps.confidences[k], ps.landmarks[k])
  }

  /** Parallel lists whose every entry is plausible. */
  predicate Valid(ps: Proposals, imgW: int, imgH: int)
  {
    ps.Parallel() && forall k: nat :: k < |ps.boxes| ==> Plausible(Entry(ps, k), imgW, imgH)
  }

  /** The proposal of a firing cell is plausible. */
  lemma CellProposalPlausible(f: Frame, cell: nat)
    requires SlicesFit(f) && cell < f.grid.Area() && KeypointsInRange(f, cell) && Firing(f, cell)
    ensures Plausible(CellProposal(f, cell), f.imgW, f.imgH)
  {
  }

  /** Without a fault, a firing cell's keypoints are in range. */
  lemma NoFaultFits(t: CellTests, n: nat, c: nat)
    requires !KeypointFault(t, n) && c < n && t.fires(c)
    ensures t.fits(c)
  {
  }

  /** A firing cell of a frame without a fault decodes to a plausible
      proposal. */
  lemma FiringCellPlausible(f: Frame, c: nat)
    requires SlicesFit(f) && c < f.grid.Area()
    requires TestsOf(f).fires(c) && !KeypointFault(TestsOf(f), f.grid.Area())
    ensures Plausible(TestsOf(f).decode(c), f.imgW, f.imgH)
  {
    var t := TestsOf(f);
    NoFaultFits(t, t.area, c);
    CellProposalPlausible(f, c);
  }

  /** Without a fault, every decoded proposal is plausible. */
  lemma DecodedPlausible(f: Frame)
    requires SlicesFit(f)
    ensures var t := TestsOf(f);
      !KeypointFault(t, t.area) ==>
        forall k :: 0 <= k < |FiringCells(t, t.area)| ==>
          Plausible(Decode(t, FiringCells(t, t.area))[k], f.imgW, f.imgH)
  {
    var t := TestsOf(f);
    var cells := FiringCells(t, t.area);
    FiringCellsExact(t, t.area);
    if !KeypointFault(t, t.area) {
      forall k | 0 <= k < |cells|
        ensures Plausible(Decode(t, cells)[k], f.imgW, f.imgH)
      {
        assert cells[k] < t.area && t.fires(cells[k]);
        FiringCellPlausible(f, cells[k]);
      }
    }
  }

  /** Appending plausible proposals to valid lists keeps them valid. */
  lemma AppendedValid(acc: Proposals, ps: seq<Proposal>, imgW: int, imgH: int)
    requires Valid(acc, imgW, imgH)
    requires forall k :: 0 <= k < |ps| ==> Plausible(ps[k], imgW, imgH)
    ensures Valid(Appended(acc, ps), imgW, imgH)
  {
    var r := Appended(acc, ps);
    AppendedKeepsPrefix(acc, ps);
    AppendedEntries(acc, ps);
    forall k: nat | k < |r.boxes|
      ensures Plausible(Entry(r, k), imgW, imgH)
    {
      if k < |acc.boxes| {
        assert r.boxes[k] == r.boxes[..|acc.boxes|][k];
        assert r.confidences[k] == r.confidences[..|acc.confidences|][k];
        assert r.landmarks[k] == r.landmarks[..|acc.landmarks|][k];
        assert Entry(r, k) == Entry(acc, k);
      } else {
        var i := k - |acc.boxes|;
        assert Entry(r, k) == ps[i];
      }
    }
  }

  /** A successful `GenerateProposal` keeps the entries already collected and
      appends only plausible ones, one per firing cell. */
  lemma ProposalsOfValid(acc: Proposals, output: Tensor, inputHeight: nat, imgH: int, imgW: int,
                         ratioH: real, ratioW: real, exp: real -> Positive)
    requires Valid(acc, imgW, imgH)
    ensures var r := ProposalsOf(acc, output, inputHeight, imgH, imgW, ratioH, ratioW, exp);
      r.Ok? ==> && Valid(r.value, imgW, imgH)
                && r.value.boxes[..|acc.boxes|] == acc.boxes
                && r.value.confidences[..|acc.confidences|] == acc.confidences
                && r.value.landmarks[..|acc.landmarks|] == acc.landmarks
  {
    var r := ProposalsOf(acc, output, inputHeight, imgH, imgW, ratioH, ratioW, exp);
    if r.Ok? {
      var f := Frame(output.data, GridOf(output.shape, inputHeight), exp, imgH, imgW, ratioH, ratioW);
      var t := TestsOf(f);
      var ps := Decode(t, FiringCells(t, t.area));
      DecodedPlausible(f);
      AppendedValid(acc, ps, imgW, imgH);
      AppendedKeepsPrefix(acc, ps);
    }
  }

  /** Lists that fill in exactly the right way: the head of a
      `[1, 80, feat_h, feat_w]` output holds every channel `GenerateProposal`
      reads, so a full output never faults. */
  lemma FullOutputDecodes(acc: Proposals, output: Tensor, inputHeight: nat, imgH: int, imgW: int,
                          ratioH: real, ratioW: real, exp: real -> Positive)
    requires |output.shape| >= 4
    requires |output.data| >= (RegMax * 4 + NumClass + 3 * NumKeypoints) * (output.shape[2] * output.shape[3])
    ensures ProposalsOf(acc, output, inputHeight, imgH, imgW, ratioH, ratioW, exp).Ok?
  {
    var f := Frame(output.data, GridOf(output.shape, inputHeight), exp, imgH, imgW, ratioH, ratioW);
    var a := f.grid.Area();
    assert f.grid.KpIndex() == 65 * a;
    var t := TestsOf(f);
    forall c: nat | c < a
      ensures KeypointsInRange(f, c)
    {
      assert KpOffset(f.grid, NumKeypoints - 1, 1, c) == 78 * a + c;
    }
  }

  // ---------------------------------------------------------------------
  // Init and ToTensor
  // ---------------------------------------------------------------------

  /** The YOLO `Init`: the base class's device checks, then an input that is
      square with side `Shape[1]` of the (NHWC) input tensor. */
  function YoloInit(devices: Option<seq<string>>, device: DeviceType, created: Option<seq<nat>>): (r: Result<Initialized>)
    ensures SelectDevice(devices, device).Err? ==> r == Err(SelectDevice(devices, device).fault)
    ensures SelectDevice(devices, device).Ok? && created.None? ==> r == Err(InferRequestFailed)
    ensures r.Ok? <==> SelectDevice(devices, device).Ok? && created.Some? && |created.value| >= 2
    ensures SelectDevice(devices, device).Ok? && created.Some? && |created.value| < 2 ==> r == Err(IndexOutOfRange)
    ensures r.Ok? ==> r.value.request == InferRequest(created.value, false, 0)
    ensures r.Ok? ==> r.value.inputSize.width == r.value.inputSize.height == created.value[1]
  {
    match SelectDevice(devices, device)
    case Err(f) => Err(f)
    case Ok(_) =>
      if created.None? then Err(InferRequestFailed)
      else if |created.value| < 2 then Err(IndexOutOfRange)
      else Ok(Initialized(InferRequest(created.value, false, 0), Size(created.value[1], created.value[1])))
  }

  /** Where both succeed, the YOLO `Init` and the base one create the same
      request and read the same height; the YOLO one uses it as the width too,
      so the two sizes agree exactly when the input is square. */
  lemma YoloInitAgreesWithBase(devices: Option<seq<string>>, device: DeviceType, created: Option<seq<nat>>)
    ensures var base := Init(devices, device, created);
      var yolo := YoloInit(devices, device, created);
      && (base.Ok? ==> yolo.Ok?)
      && (base.Ok? ==> yolo.value.request == base.value.request)
      && (base.Ok? ==> yolo.value.inputSize.height == base.value.inputSize.height)
      && (base.Ok? ==> (yolo.value.inputSize == base.value.inputSize <==> created.value[1] == created.value[2]))
  {
  }

  /** The YOLO `ToTensor`: the BGR float buffer of the resized bitmap, or
      `null` (`Ok(None)`) when there is no bitmap or the resize failed.
      `Tensor.FromArray` itself is foreign. */
  method YoloToTensor(bitmap: Option<Bitmap>, d: Detector, ops: SkiaOps) returns (r: Result<Option<seq<real>>>)
    ensures Resized(bitmap, d, ops).None? ==> r == Ok(None)
    ensures Resized(bitmap, d, ops).Some? ==>
      match InColorType(Resized(bitmap, d, ops).value, Bgra8888, ops)
      case Err(f) => r == Err(f)
      case Ok(b) => r.Ok? && r.value.Some? && r.value.value == ConvertToFloatArray(b)
  {
    var resized := Resized(bitmap, d, ops);
    if resized.None? {
      return Ok(None);
    }
    var converted := To24BGRFloatArray(resized, ops);
    if converted.Err? {
      return Err(converted.fault);
    }
    r := Ok(Some(converted.value.data));
  }

  /** Every value the YOLO tensor carries is a channel scaled into `[0, 1]`,
      three per pixel of the resized bitmap. */
  lemma YoloTensorInUnitRange(bitmap: Option<Bitmap>, d: Detector, ops: SkiaOps, r: Result<Option<seq<real>>>)
    requires Resized(bitmap, d, ops).Some?
    requires var b := InColorType(Resized(bitmap, d, ops).value, Bgra8888, ops);
      b.Ok? && r == Ok(Some(ConvertToFloatArray(b.value)))
    ensures var b := InColorType(Resized(bitmap, d, ops).value, Bgra8888, ops).value;
      && |r.value.value| == b.width * b.height * 3
      && forall k :: 0 <= k < |r.value.value| ==> 0.0 <= r.value.value[k] <= 1.0
  {
  }

  // ---------------------------------------------------------------------
  // Detect
  // ---------------------------------------------------------------------

  /** What every `GenerateProposal` call of one `Detect` shares: the input
      height, the bitmap's size, the bitmap-to-input ratios and `Math.Exp`. */
  datatype View = View(inputHeight: nat, imgH: int, imgW: int, ratioH: real, ratioW: real, exp: real -> Positive)

  /** One output's decoding, as a function of the lists so far. */
  type Step = (Proposals, Tensor) -> Result<Proposals>

  /** The `GenerateProposal` call of a view. */
  function StepOf(v: View): (step: Step)
  {
    (acc: Proposals, output: Tensor) => ProposalsOf(acc, output, v.inputHeight, v.imgH, v.imgW, v.ratioH, v.ratioW, v.exp)
  }

  /** Collected lists are parallel and every entry is plausible. */
  lemma {:induction false} CollectValid(outputs: seq<Tensor>, v: View)
    ensures Collect(outputs, NoProposals, StepOf(v)).result.Ok? ==> Valid(Collect(outputs, NoProposals, StepOf(v)).result.value, v.imgW, v.imgH)
    decreases |outputs|
  {
    if |outputs| > 0 {
      var n := |outputs| - 1;
      CollectValid(outputs[..n], v);
      var prev := Collect(outputs[..n], NoProposals, StepOf(v));
      if prev.result.Ok? {
        ProposalsOfValid(prev.result.value, outputs[n], v.inputHeight, v.imgH, v.imgW, v.ratioH, v.ratioW, v.exp);
      }
    } else {
      assert Valid(NoProposals, v.imgW, v.imgH);
    }
  }

  /** The loop over the outputs, releasing each one after it is decoded. */
  method CollectProposals(outputs: seq<Tensor>, v: View) returns (r: Result<Proposals>, released: seq<nat>)
    ensures r == Collect(outputs, NoProposals, StepOf(v)).result
    ensures |released| == Collect(outputs, NoProposals, StepOf(v)).released && ReleasedInOrder(released)
  {
    ghost var step := StepOf(v);
    var props := NoProposals;
    released := [];
    for k := 0 to |outputs|
      invariant Collect(outputs[..k], NoProposals, step) == Collected(Ok(props), k)
      invariant |released| == k && ReleasedInOrder(released)
    {
      assert outputs[..k + 1][..k] == outputs[..k];
      var next := GenerateProposal(props, outputs[k], v.inputHeight, v.imgH, v.imgW, v.ratioH, v.ratioW, v.exp);
      assert next == step(props, outputs[k]);
      released := released + [k];
      if next.Err? {
        CollectAfterFault(outputs, NoProposals, step, k + 1);
        return next, released;
      }
      props := next.value;
    }
    assert outputs[..|outputs|] == outputs;
    r := Ok(props);
  }

  /** The detection `Detect` builds from entry `idx` of the lists. */
  function DetectionOf(ps: Proposals, idx: nat): (d: Detection)
    requires ps.Parallel() && idx < |ps.boxes|
  {
    var b := ps.boxes[idx];
    NewDetection(0, ps.confidences[idx], b.x as real, b.y as real, b.width as real, b.height as real,
                 Some(ps.landmarks[idx]))
  }

  /** The detection of a plausible entry: class 0, more than even odds, a
      corner inside the bitmap and the entry's five landmarks. */
  lemma DetectionOfPlausible(ps: Proposals, idx: nat, imgW: int, imgH: int)
    requires Valid(ps, imgW, imgH) && idx < |ps.boxes|
    ensures var d := DetectionOf(ps, idx);
      && d.classId == 0 && d.confidence == ps.confidences[idx] > BoxThreshold
      && d.x >= 0.0 && d.y >= 0.0
      && d.points == Some(ps.landmarks[idx]) && |d.points.value| == NumKeypoints
  {
    assert Plausible(Entry(ps, idx), imgW, imgH);
  }

  /** The view of one `Detect` call: the ratios `bitmap.Width / InputSize.Width`
      and `bitmap.Height / InputSize.Height`. */
  function ViewOf(bitmap: Bitmap, d: Detector, exp: real -> Positive): View
    requires d.inputSize.width > 0 && d.inputSize.height > 0
  {
    View(d.inputSize.height, bitmap.height, bitmap.width,
         bitmap.height as real / d.inputSize.height as real,
         bitmap.width as real / d.inputSize.width as real, exp)
  }

  /** The `for` loop that turns the selected indices into detections. */
  method BuildResults(lists: Proposals, selected: seq<nat>) returns (results: seq<Detection>)
    requires lists.Parallel() && InRange(selected, |lists.boxes|)
    ensures |results| == |selected|
    ensures forall k :: 0 <= k < |selected| ==> results[k] == DetectionOf(lists, selected[k])
  {
    results := [];
    for i := 0 to |selected|
      invariant |results| == i
      invariant forall k :: 0 <= k < i ==> results[k] == DetectionOf(lists, selected[k])
    {
      results := results + [DetectionOf(lists, selected[i])];
    }
  }

  /** Detections of valid lists, taken in non-increasing confidence order,
      are class 0 faces with more than even odds and five landmarks, listed
      by non-increasing confidence. */
  lemma ResultsPlausible(lists: Proposals, selected: seq<nat>, results: seq<Detection>, imgW: int, imgH: int)
    requires Valid(lists, imgW, imgH) && InRange(selected, |lists.boxes|)
    requires NonIncreasing(selected, lists.confidences)
    requires |results| == |selected|
    requires forall k :: 0 <= k < |selected| ==> results[k] == DetectionOf(lists, selected[k])
    ensures forall k :: 0 <= k < |results| ==>
      && results[k].classId == 0 && results[k].confidence > BoxThreshold
      && results[k].x >= 0.0 && results[k].y >= 0.0
      && results[k].points.Some? && |results[k].points.value| == NumKeypoints
    ensures forall k, l :: 0 <= k < l < |results| ==> results[k].confidence >= results[l].confidence
  {
    forall k | 0 <= k < |results|
      ensures results[k].classId == 0 && results[k].confidence > BoxThreshold
      ensures results[k].x >= 0.0 && results[k].y >= 0.0
      ensures results[k].points.Some? && |results[k].points.value| == NumKeypoints
    {
      DetectionOfPlausible(lists, selected[k], imgW, imgH);
    }
  }

  /** The tail of `Detect`: NMS over all proposals with score and overlap
      thresholds 0.5 and no `topK`, then one detection per selected entry, in
      the order NMS returns them. */
  method SelectDetections(lists: Proposals, imgW: int, imgH: int) returns (results: seq<Detection>, ghost indices: seq<nat>)
    requires Valid(lists, imgW, imgH)
    ensures InRange(indices, |lists.boxes|) && Distinct(indices)
    ensures NoSuppressedPair(OverlapTest(lists.boxes, NmsThreshold), indices)
    ensures Covers(OverlapTest(lists.boxes, NmsThreshold), indices,
                   AboveThreshold(lists.confidences, ScoreThreshold, |lists.confidences|), lists.confidences)
    ensures |results| == |indices| && forall k :: 0 <= k < |indices| ==> results[k] == DetectionOf(lists, indices[k])
    ensures forall k :: 0 <= k < |results| ==>
      && results[k].classId == 0 && results[k].confidence > BoxThreshold
      && results[k].x >= 0.0 && results[k].y >= 0.0
      && results[k].points.Some? && |results[k].points.value| == NumKeypoints
    ensures forall k, l :: 0 <= k < l < |results| ==> results[k].confidence >= results[l].confidence
  {
    var selected, rects;
    ghost var order, full;
    selected, rects, order, full := NMSBoxes(lists.boxes, lists.confidences, ScoreThreshold, NmsThreshold, 0);
    indices := selected;
    NMSBoxesGuarantees(lists.boxes, lists.confidences, ScoreThreshold, NmsThreshold, 0, order, selected);
    results := BuildResults(lists, selected);
    ResultsPlausible(lists, selected, results, imgW, imgH);
  }

  /** A bitmap and a request are present and the resized bitmap copies into
      Bgra8888, so the YOLO tensor exists and the outputs are read. */
  predicate TensorReady(bitmap: Option<Bitmap>, d: Detector, ops: SkiaOps)
  {
    && bitmap.Some? && d.request.Some? && Resized(bitmap, d, ops).Some?
    && InColorType(Resized(bitmap, d, ops).value, Bgra8888, ops).Ok?
  }

  /** `Detect`. Running the request is foreign: `outputs` are the tensors it
      produces. A missing bitmap or request yields no detections and touches
      no output; a tensor that cannot be made is refused before any output
      exists. Otherwise every output is decoded and released in order, NMS
      selects among all proposals, and each selected entry becomes one
      detection. */
  method Detect(bitmap: Option<Bitmap>, d: Detector, ops: SkiaOps, outputs: seq<Tensor>, exp: real -> Positive)
    returns (r: Result<seq<Detection>>, released: seq<nat>, ghost props: Proposals, ghost indices: seq<nat>)
    requires d.inputSize.width > 0 && d.inputSize.height > 0
    ensures bitmap.None? || d.request.None? ==> r == Ok([]) && released == []
    ensures bitmap.Some? && d.request.Some? && Resized(bitmap, d, ops).None? ==>
      r == Err(TensorConversionFailed) && released == []
    ensures bitmap.Some? && d.request.Some? && Resized(bitmap, d, ops).Some?
            && InColorType(Resized(bitmap, d, ops).value, Bgra8888, ops).Err? ==>
      r == Err(InColorType(Resized(bitmap, d, ops).value, Bgra8888, ops).fault) && released == []
    ensures !TensorReady(bitmap, d, ops) ==> released == []
    ensures ReleasedInOrder(released) && |released| <= |outputs|
    ensures r.Ok? && TensorReady(bitmap, d, ops) ==> |released| == |outputs|
    ensures TensorReady(bitmap, d, ops) ==>
      var c := Collect(outputs, NoProposals, StepOf(ViewOf(bitmap.value, d, exp)));
      |released| == c.released && (r.Err? <==> c.result.Err?) && (r.Err? ==> r == Err(c.result.fault))
    ensures r.Ok? ==> forall k :: 0 <= k < |r.value| ==>
      && r.value[k].classId == 0 && r.value[k].confidence > BoxThreshold
      && r.value[k].x >= 0.0 && r.value[k].y >= 0.0
      && r.value[k].points.Some? && |r.value[k].points.value| == NumKeypoints
    ensures r.Ok? ==> forall k, l :: 0 <= k < l < |r.value| ==> r.value[k].confidence >= r.value[l].confidence
    ensures r.Ok? && TensorReady(bitmap, d, ops) ==>
      && props == Collect(outputs, NoProposals, StepOf(ViewOf(bitmap.value, d, exp))).result.value && props.Parallel()
      && InRange(indices, |props.boxes|) && Distinct(indices)
      && NoSuppressedPair(OverlapTest(props.boxes, NmsThreshold), indices)
      && Covers(OverlapTest(props.boxes, NmsThreshold), indices,
                AboveThreshold(props.confidences, ScoreThreshold, |props.confidences|), props.confidences)
      && |r.value| == |indices|
      && forall k :: 0 <= k < |indices| ==> r.value[k] == DetectionOf(props, indices[k])
  {
    props, indices := NoProposals, [];
    released := [];
    if bitmap.None? || d.request.None? {
      return Ok([]), released, props, indices;
    }
    var tensor := YoloToTensor(bitmap, d, ops);
    var admission := Admit(bitmap, d, tensor);
    if admission.Refuse? {
      return Err(admission.fault), released, props, indices;
    }
    var v := ViewOf(bitmap.value, d, exp);
    var collected;
    collected, released := CollectProposals(outputs, v);
    if collected.Err? {
      return Err(collected.fault), released, props, indices;
    }
    var lists := collected.value;
    props := lists;
    CollectValid(outputs, v);
    var results;
    results, indices := SelectDetections(lists, v.imgW, v.imgH);
    r := Ok(results);
  }
}
