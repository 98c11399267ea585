/** The feature field as values: luminance conversion, the four feature channels computed
    by 3x3 stencils on interior cells, the bounded frame history and the box blur. The
    imperative PsiField in module Engine is proved to compute exactly these functions. */
module Features {
  import opened Grid

  /** One channel of an RGBA pixel as the canvas delivers it. */
  newtype byte = b: int | 0 <= b < 256

  /** Longest frame history kept (maxHistory). */
  const MAX_HISTORY: nat := 5

  /** A read-only snapshot of every buffer of the field, as the scouts see it during a tick. */
  datatype FieldView = FieldView(
    current: seq<real>,
    previous: seq<real>,
    edgeMap: seq<real>,
    motionMap: seq<real>,
    colorMap: seq<real>,
    textureMap: seq<real>,
    attractorField: seq<real>)
  {
    /** All layers share the same N x N dimensions. */
    predicate Wf() {
      |current| == CELLS && |previous| == CELLS && |edgeMap| == CELLS && |motionMap| == CELLS &&
      |colorMap| == CELLS && |textureMap| == CELLS && |attractorField| == CELLS
    }
  }

  ghost predicate UnitValues(a: seq<real>) {
    forall i :: 0 <= i < |a| ==> 0.0 <= a[i] <= 1.0
  }

  ghost predicate NonNegative(a: seq<real>) {
    forall i :: 0 <= i < |a| ==> 0.0 <= a[i]
  }

  /** Luminance and the motion, colour and texture channels lie in [0, 1]; edges are >= 0. */
  ghost predicate InRange(v: FieldView) {
    v.Wf() && UnitValues(v.current) && UnitValues(v.previous) && UnitValues(v.motionMap) &&
    UnitValues(v.colorMap) && UnitValues(v.textureMap) && NonNegative(v.edgeMap)
  }

  /** What a square root must give: a non-negative value for a non-negative argument. */
  ghost predicate RootNonNegative(root: real -> real) {
    forall v :: 0.0 <= v ==> 0.0 <= root(v)
  }

  /** Weighted luminance of one pixel with channels normalised by 255. */
  function Luminance(r: byte, g: byte, b: byte): (l: real)
    ensures 0.0 <= l <= 1.0
    ensures r == g == b ==> l == r as real / 255.0
  {
    0.299 * (r as real / 255.0) + 0.587 * (g as real / 255.0) + 0.114 * (b as real / 255.0)
  }

  /** The luminance of every cell of an RGBA raster (four bytes per cell, alpha ignored). */
  function Frame(image: seq<byte>): (f: seq<real>)
    requires |image| == 4 * CELLS
    ensures |f| == CELLS && UnitValues(f)
  {
    seq(CELLS, i requires 0 <= i < CELLS => Luminance(image[4 * i], image[4 * i + 1], image[4 * i + 2]))
  }

  /** The nine cells of a window named by their offsets from the centre. */
  lemma WindowEntries(a: seq<real>, i: int)
    requires |a| == CELLS && Interior(i)
    ensures var w := Window(a, i);
      w[0] == a[i - SIZE - 1] && w[1] == a[i - SIZE] && w[2] == a[i - SIZE + 1] &&
      w[3] == a[i - 1] && w[4] == a[i] && w[5] == a[i + 1] &&
      w[6] == a[i + SIZE - 1] && w[7] == a[i + SIZE] && w[8] == a[i + SIZE + 1]
  {
  }

  /** Horizontal Sobel response at an interior cell. */
  function SobelX(a: seq<real>, i: int): real
    requires |a| == CELLS && Interior(i)
  {
    -a[i - SIZE - 1] + a[i - SIZE + 1]
    + -2.0 * a[i - 1] + 2.0 * a[i + 1]
    + -a[i + SIZE - 1] + a[i + SIZE + 1]
  }

  /** Vertical Sobel response at an interior cell. */
  function SobelY(a: seq<real>, i: int): real
    requires |a| == CELLS && Interior(i)
  {
    -a[i - SIZE - 1] - 2.0 * a[i - SIZE] - a[i - SIZE + 1]
    + a[i + SIZE - 1] + 2.0 * a[i + SIZE] + a[i + SIZE + 1]
  }

  /** Squared Sobel gradient magnitude: never negative, and zero on a uniform neighbourhood. */
  function SobelMagnitudeSq(a: seq<real>, i: int): (m: real)
    requires |a| == CELLS && Interior(i)
    ensures m >= 0.0
    ensures (forall k :: 0 <= k < 9 ==> Window(a, i)[k] == a[i]) ==> m == 0.0
  {
    var gx, gy := SobelX(a, i), SobelY(a, i);
    assert gx * gx >= 0.0 && gy * gy >= 0.0;
    WindowEntries(a, i);
    gx * gx + gy * gy
  }

  /** Edge value written to an interior cell; `root` stands for Math.sqrt. */
  function EdgeCell(a: seq<real>, i: int, root: real -> real): real
    requires |a| == CELLS && Interior(i)
  {
    root(SobelMagnitudeSq(a, i))
  }

  /** Squared differences of the 3x3 neighbourhood from the centre value, over the 9 cells
      visited. The centre value is used, not the neighbourhood mean. */
  function TextureCell(a: seq<real>, i: int): (t: real)
    requires |a| == CELLS && Interior(i)
    ensures t >= 0.0
  {
    SumSqDevNonNegative(Window(a, i), a[i]);
    SumSqDev(Window(a, i), a[i]) / 9.0
  }

  /** The 3x3 mean of an interior cell. */
  function SmoothCell(a: seq<real>, i: int): real
    requires |a| == CELLS && Interior(i)
  {
    Sum(Window(a, i)) / 9.0
  }

  /** computeFeatureMaps as a function of the field: interior cells get the Sobel edge, the
      colour copy and the texture; motion |current - previous| only once the history holds
      two frames; every border cell keeps its value. */
  function FeatureMaps(v: FieldView, historyLength: int, root: real -> real): (w: FieldView)
    requires v.Wf()
    ensures w.Wf()
    ensures w.current == v.current && w.previous == v.previous && w.attractorField == v.attractorField
    ensures historyLength < 2 ==> w.motionMap == v.motionMap
  {
    v.(edgeMap := seq(CELLS, i requires 0 <= i < CELLS =>
         if Interior(i) then EdgeCell(v.current, i, root) else v.edgeMap[i]),
       motionMap := if historyLength >= 2 then
           seq(CELLS, i requires 0 <= i < CELLS =>
             if Interior(i) then Abs(v.current[i] - v.previous[i]) else v.motionMap[i])
         else v.motionMap,
       colorMap := seq(CELLS, i requires 0 <= i < CELLS =>
         if Interior(i) then v.current[i] else v.colorMap[i]),
       textureMap := seq(CELLS, i requires 0 <= i < CELLS =>
         if Interior(i) then TextureCell(v.current, i) else v.textureMap[i]))
  }

  /** updateFromImage as a function of the field: the old luminance becomes `previous`, the
      luminance of the raster becomes `current`, then the feature maps are recomputed. */
  function Ingest(v: FieldView, image: seq<byte>, historyLength: int, root: real -> real): (w: FieldView)
    requires v.Wf() && |image| == 4 * CELLS
    ensures w.Wf()
    ensures w.current == Frame(image) && w.previous == v.current && w.attractorField == v.attractorField
  {
    FeatureMaps(v.(previous := v.current, current := Frame(image)), historyLength, root)
  }

  /** The last m elements of s (all of s when it is shorter). */
  function LastN<T>(s: seq<T>, m: nat): (r: seq<T>)
    ensures |r| == if |s| < m then |s| else m
    ensures r == s[|s| - |r|..]
  {
    if |s| < m then s else s[|s| - m..]
  }

  /** A buffer of CELLS zeros, as a fresh Float32Array holds. */
  function Zeros(): (z: seq<real>)
    ensures |z| == CELLS && forall i :: 0 <= i < CELLS ==> z[i] == 0.0
  {
    seq(CELLS, _ => 0.0)
  }

  /** smoothField as a function: the 3x3 mean on interior cells, 0 on the border. */
  function Smoothed(a: seq<real>): (r: seq<real>)
    requires |a| == CELLS
    ensures |r| == CELLS
    ensures forall i :: 0 <= i < CELLS && !Interior(i) ==> r[i] == 0.0
  {
    seq(CELLS, i requires 0 <= i < CELLS => if Interior(i) then SmoothCell(a, i) else 0.0)
  }

  // ---------------------------------------------------------------------------------------
  // Properties of the feature maps

  /** Every border cell of the four feature channels keeps its value. */
  lemma BorderUnchanged(v: FieldView, historyLength: int, root: real -> real, i: int)
    requires v.Wf() && 0 <= i < CELLS && !Interior(i)
    ensures FeatureMaps(v, historyLength, root).edgeMap[i] == v.edgeMap[i]
    ensures FeatureMaps(v, historyLength, root).motionMap[i] == v.motionMap[i]
    ensures FeatureMaps(v, historyLength, root).colorMap[i] == v.colorMap[i]
    ensures FeatureMaps(v, historyLength, root).textureMap[i] == v.textureMap[i]
  {
  }

  /** What every interior cell of the four channels holds: the Sobel edge, the motion
      (once two frames are in the history), the luminance itself and the texture. */
  lemma InteriorCell(v: FieldView, historyLength: int, root: real -> real, i: int)
    requires v.Wf() && Interior(i)
    ensures FeatureMaps(v, historyLength, root).edgeMap[i] == EdgeCell(v.current, i, root)
    ensures FeatureMaps(v, historyLength, root).motionMap[i] ==
      if historyLength >= 2 then Abs(v.current[i] - v.previous[i]) else v.motionMap[i]
    ensures FeatureMaps(v, historyLength, root).colorMap[i] == v.current[i]
    ensures FeatureMaps(v, historyLength, root).textureMap[i] == TextureCell(v.current, i)
  {
  }

  /** `t` on the first n cells and `b` on the rest: a buffer that a row-major pass has
      brought from `b` to `t` up to cell n. */
  ghost function Filled(t: seq<real>, b: seq<real>, n: int): (r: seq<real>)
    requires |t| == |b| && 0 <= n <= |t|
    ensures |r| == |t|
  {
    t[..n] + b[n..]
  }

  lemma FilledStep(t: seq<real>, b: seq<real>, n: int)
    requires |t| == |b| && 0 <= n < |t|
    ensures Filled(t, b, n + 1) == Filled(t, b, n)[n := t[n]]
  {
    var r := Filled(t, b, n)[n := t[n]];
    assert forall k :: 0 <= k < |t| ==> Filled(t, b, n + 1)[k] == r[k];
  }

  lemma FilledSkip(t: seq<real>, b: seq<real>, n: int)
    requires |t| == |b| && 0 <= n < |t| && t[n] == b[n]
    ensures Filled(t, b, n + 1) == Filled(t, b, n)
  {
    assert forall k :: 0 <= k < |t| ==> Filled(t, b, n + 1)[k] == Filled(t, b, n)[k];
  }

  /** The pass over cell n, a border cell, changes no channel. */
  lemma SkipBorder(v: FieldView, historyLength: int, root: real -> real, n: int)
    requires v.Wf() && 0 <= n < CELLS && !Interior(n)
    ensures var w := FeatureMaps(v, historyLength, root);
      Filled(w.edgeMap, v.edgeMap, n + 1) == Filled(w.edgeMap, v.edgeMap, n) &&
      Filled(w.motionMap, v.motionMap, n + 1) == Filled(w.motionMap, v.motionMap, n) &&
      Filled(w.colorMap, v.colorMap, n + 1) == Filled(w.colorMap, v.colorMap, n) &&
      Filled(w.textureMap, v.textureMap, n + 1) == Filled(w.textureMap, v.textureMap, n)
  {
    var w := FeatureMaps(v, historyLength, root);
    BorderUnchanged(v, historyLength, root, n);
    FilledSkip(w.edgeMap, v.edgeMap, n);
    FilledSkip(w.motionMap, v.motionMap, n);
    FilledSkip(w.colorMap, v.colorMap, n);
    FilledSkip(w.textureMap, v.textureMap, n);
  }

  /** The pass over the interior cell n writes that cell's value in every channel (motion
      only from two frames on). */
  lemma FillInterior(v: FieldView, historyLength: int, root: real -> real, n: int)
    requires v.Wf() && Interior(n)
    ensures var w := FeatureMaps(v, historyLength, root);
      Filled(w.edgeMap, v.edgeMap, n + 1) == Filled(w.edgeMap, v.edgeMap, n)[n := EdgeCell(v.current, n, root)] &&
      Filled(w.motionMap, v.motionMap, n + 1) ==
        (if historyLength >= 2 then Filled(w.motionMap, v.motionMap, n)[n := Abs(v.current[n] - v.previous[n])]
         else Filled(w.motionMap, v.motionMap, n)) &&
      Filled(w.colorMap, v.colorMap, n + 1) == Filled(w.colorMap, v.colorMap, n)[n := v.current[n]] &&
      Filled(w.textureMap, v.textureMap, n + 1) ==
        Filled(w.textureMap, v.textureMap, n)[n := TextureCell(v.current, n)]
  {
    var w := FeatureMaps(v, historyLength, root);
    InteriorCell(v, historyLength, root, n);
    FilledStep(w.edgeMap, v.edgeMap, n);
    if historyLength >= 2 {
      FilledStep(w.motionMap, v.motionMap, n);
    } else {
      FilledSkip(w.motionMap, v.motionMap, n);
    }
    FilledStep(w.colorMap, v.colorMap, n);
    FilledStep(w.textureMap, v.textureMap, n);
  }

  /** Nothing in the first row changes, so a pass starting at row 1 starts from v. */
  lemma FirstRowUnchanged(v: FieldView, historyLength: int, root: real -> real)
    requires v.Wf()
    ensures var w := FeatureMaps(v, historyLength, root);
      Filled(w.edgeMap, v.edgeMap, SIZE) == v.edgeMap &&
      Filled(w.motionMap, v.motionMap, SIZE) == v.motionMap &&
      Filled(w.colorMap, v.colorMap, SIZE) == v.colorMap &&
      Filled(w.textureMap, v.textureMap, SIZE) == v.textureMap
  {
    var w := FeatureMaps(v, historyLength, root);
    forall k | 0 <= k < SIZE
      ensures w.edgeMap[k] == v.edgeMap[k] && w.motionMap[k] == v.motionMap[k]
      ensures w.colorMap[k] == v.colorMap[k] && w.textureMap[k] == v.textureMap[k]
    {
      BorderUnchanged(v, historyLength, root, k);
    }
    assert Filled(w.edgeMap, v.edgeMap, SIZE) == v.edgeMap;
    assert Filled(w.motionMap, v.motionMap, SIZE) == v.motionMap;
    assert Filled(w.colorMap, v.colorMap, SIZE) == v.colorMap;
    assert Filled(w.textureMap, v.textureMap, SIZE) == v.textureMap;
  }

  /** Nothing in the last row changes, so a pass that ends before it has produced w. */
  lemma LastRowUnchanged(v: FieldView, historyLength: int, root: real -> real)
    requires v.Wf()
    ensures var w := FeatureMaps(v, historyLength, root);
      Filled(w.edgeMap, v.edgeMap, (SIZE - 1) * SIZE) == w.edgeMap &&
      Filled(w.motionMap, v.motionMap, (SIZE - 1) * SIZE) == w.motionMap &&
      Filled(w.colorMap, v.colorMap, (SIZE - 1) * SIZE) == w.colorMap &&
      Filled(w.textureMap, v.textureMap, (SIZE - 1) * SIZE) == w.textureMap
  {
    var w := FeatureMaps(v, historyLength, root);
    var n := (SIZE - 1) * SIZE;
    forall k | n <= k < CELLS
      ensures w.edgeMap[k] == v.edgeMap[k] && w.motionMap[k] == v.motionMap[k]
      ensures w.colorMap[k] == v.colorMap[k] && w.textureMap[k] == v.textureMap[k]
    {
      BorderUnchanged(v, historyLength, root, k);
    }
    assert Filled(w.edgeMap, v.edgeMap, n) == w.edgeMap;
    assert Filled(w.motionMap, v.motionMap, n) == w.motionMap;
    assert Filled(w.colorMap, v.colorMap, n) == w.colorMap;
    assert Filled(w.textureMap, v.textureMap, n) == w.textureMap;
  }

  /** The blur of smoothField fills a zero buffer; its first row stays zero ... */
  lemma BlurFirstRow(a: seq<real>)
    requires |a| == CELLS
    ensures Filled(Smoothed(a), Zeros(), SIZE) == Zeros()
  {
    assert forall k :: 0 <= k < CELLS ==> Filled(Smoothed(a), Zeros(), SIZE)[k] == Zeros()[k];
  }

  /** ... and so does its last row, so the pass over rows 1 .. SIZE - 2 leaves the blur. */
  lemma BlurLastRow(a: seq<real>)
    requires |a| == CELLS
    ensures Filled(Smoothed(a), Zeros(), (SIZE - 1) * SIZE) == Smoothed(a)
  {
    var n := (SIZE - 1) * SIZE;
    assert forall k :: 0 <= k < CELLS ==> Filled(Smoothed(a), Zeros(), n)[k] == Smoothed(a)[k];
  }

  /** Before two frames have been seen, the motion channel is untouched; afterwards every
      interior cell holds |current - previous|. */
  lemma MotionNeedsTwoFrames(v: FieldView, historyLength: int, root: real -> real)
    requires v.Wf()
    ensures historyLength < 2 ==> FeatureMaps(v, historyLength, root).motionMap == v.motionMap
    ensures historyLength >= 2 ==> forall i :: Interior(i) ==>
      FeatureMaps(v, historyLength, root).motionMap[i] == Abs(v.current[i] - v.previous[i])
  {
  }

  /** Feeding the same frame twice, with history lengths h1 and then h2 >= 2 (on a fresh field
      1 and 2; later 2 and 3, ..., 5 and 5): the interior motion of the second ingest is all
      zero, and the rest of the motion channel is left as it was. */
  lemma RepeatedFrameHasNoMotion(v: FieldView, image: seq<byte>, h1: int, h2: int, root: real -> real)
    requires v.Wf() && |image| == 4 * CELLS && h2 >= 2
    ensures var w := Ingest(Ingest(v, image, h1, root), image, h2, root);
      forall i :: 0 <= i < CELLS ==>
        w.motionMap[i] == if Interior(i) then 0.0 else v.motionMap[i]
  {
    var once := Ingest(v, image, h1, root);
    assert once.current == Frame(image);
    var twice := Ingest(once, image, h2, root);
    assert twice.previous == Frame(image) && twice.current == Frame(image);
  }

  /** A uniform 3x3 neighbourhood has zero texture and zero Sobel edge magnitude. */
  lemma UniformNeighbourhoodIsFlat(a: seq<real>, i: int)
    requires |a| == CELLS && Interior(i)
    requires forall k :: 0 <= k < 9 ==> Window(a, i)[k] == a[i]
    ensures TextureCell(a, i) == 0.0 && SobelMagnitudeSq(a, i) == 0.0
  {
    SumSqDevOfConstant(Window(a, i), a[i]);
  }

  /** The texture of luminance values in [0, 1] is itself in [0, 1]. */
  lemma TextureOfUnitValues(a: seq<real>, i: int)
    requires |a| == CELLS && Interior(i) && UnitValues(a)
    ensures 0.0 <= TextureCell(a, i) <= 1.0
  {
    var w := Window(a, i);
    assert forall k :: 0 <= k < 9 ==> 0.0 <= w[k] <= 1.0;
    SumSqDevAtMostLength(w, a[i]);
  }

  /** Recomputing the feature maps keeps every channel in range, given a non-negative root. */
  lemma FeatureMapsKeepRange(v: FieldView, historyLength: int, root: real -> real)
    requires InRange(v) && RootNonNegative(root)
    ensures InRange(FeatureMaps(v, historyLength, root))
  {
    var w := FeatureMaps(v, historyLength, root);
    forall i | 0 <= i < CELLS
      ensures 0.0 <= w.textureMap[i] <= 1.0 && 0.0 <= w.motionMap[i] <= 1.0 && 0.0 <= w.edgeMap[i]
    {
      if Interior(i) {
        TextureOfUnitValues(v.current, i);
      }
    }
  }

  /** Ingesting a raster keeps every channel in range, given a non-negative root. */
  lemma IngestKeepsRange(v: FieldView, image: seq<byte>, historyLength: int, root: real -> real)
    requires InRange(v) && |image| == 4 * CELLS && RootNonNegative(root)
    ensures InRange(Ingest(v, image, historyLength, root))
  {
    FeatureMapsKeepRange(v.(previous := v.current, current := Frame(image)), historyLength, root);
  }

  // ---------------------------------------------------------------------------------------
  // Properties of the bounded history

  /** Pushing onto a window of the last m frames and keeping the last m again is the same as
      keeping the last m of the whole push sequence: the oldest frame is dropped first. */
  lemma PushKeepsLatest<T>(s: seq<T>, x: T, m: nat)
    ensures LastN(LastN(s, m) + [x], m) == LastN(s + [x], m)
  {
    if m == 0 {
    } else if |s| < m {
      assert LastN(s, m) == s;
    } else {
      var w := s[|s| - m..];
      assert LastN(s, m) == w;
      assert |w + [x]| == m + 1;
      assert LastN(w + [x], m) == (w + [x])[1..];
      assert (w + [x])[1..] == s[|s| - m + 1..] + [x];
      assert LastN(s + [x], m) == (s + [x])[|s| + 1 - m..];
      assert (s + [x])[|s| + 1 - m..] == s[|s| - m + 1..] + [x];
    }
  }

  /** The history after a series of frames (starting from empty): each frame is pushed and
      the oldest entry shifted out once there are more than MAX_HISTORY. */
  function HistoryAfter<T>(frames: seq<T>): (h: seq<T>)
    ensures |h| <= MAX_HISTORY
  {
    if frames == [] then []
    else
      var pushed := HistoryAfter(frames[..|frames| - 1]) + [frames[|frames| - 1]];
      if |pushed| > MAX_HISTORY then pushed[1..] else pushed
  }

  /** ... which is exactly the last MAX_HISTORY frames, oldest first. */
  lemma {:induction false} HistoryIsLatestFrames<T>(frames: seq<T>)
    ensures HistoryAfter(frames) == LastN(frames, MAX_HISTORY)
  {
    if frames != [] {
      var init, last := frames[..|frames| - 1], frames[|frames| - 1];
      HistoryIsLatestFrames(init);
      var pushed := HistoryAfter(init) + [last];
      assert |pushed| <= MAX_HISTORY + 1;
      assert HistoryAfter(frames) == LastN(pushed, MAX_HISTORY);
      PushKeepsLatest(init, last, MAX_HISTORY);
      assert init + [last] == frames;
    }
  }

  // ---------------------------------------------------------------------------------------
  // Properties of the box blur

  /** Smoothing a field whose values lie in [lo, hi], with lo <= 0 <= hi, stays in [lo, hi]. */
  lemma SmoothedBetween(a: seq<real>, lo: real, hi: real)
    requires |a| == CELLS && lo <= 0.0 <= hi
    requires forall i :: 0 <= i < CELLS ==> lo <= a[i] <= hi
    ensures forall i :: 0 <= i < CELLS ==> lo <= Smoothed(a)[i] <= hi
  {
    forall i | Interior(i) ensures lo <= SmoothCell(a, i) <= hi {
      var w := Window(a, i);
      assert forall k :: 0 <= k < 9 ==> lo <= w[k] <= hi;
      SumBetween(w, lo, hi);
    }
  }

  /** Smoothing a constant field c gives c on the interior and 0 on the border. */
  lemma SmoothedConstant(a: seq<real>, c: real)
    requires |a| == CELLS && forall i :: 0 <= i < CELLS ==> a[i] == c
    ensures forall i :: 0 <= i < CELLS ==> Smoothed(a)[i] == if Interior(i) then c else 0.0
  {
    forall i | Interior(i) ensures SmoothCell(a, i) == c {
      var w := Window(a, i);
      assert forall k :: 0 <= k < 9 ==> w[k] == c;
      SumOfConstant(w, c);
    }
  }
}
