/** The simulation engine as the program runs it: the PsiField whose flat buffers are
    updated in place, the Scout agents whose fields are updated in place, and the loops that
    create and reset the population. Every method is proved to compute the corresponding
    function of modules Features and Minimodel. */
module Engine {
  import opened Grid
  import opened Features
  import opened Minimodel

  /** The field as freshly constructed: every buffer zero. */
  function Blank(): (b: FieldView)
    ensures b.Wf() && InRange(b)
  {
    FieldView(Zeros(), Zeros(), Zeros(), Zeros(), Zeros(), Zeros(), Zeros())
  }

  /** The 3x3 neighbourhood sum of smoothField, read from the buffer in loop order. */
  method WindowSum(field: array<real>, x: int, y: int) returns (sum: real, count: int)
    requires field.Length == CELLS && 1 <= x <= SIZE - 2 && 1 <= y <= SIZE - 2
    ensures Interior(Index(x, y))
    ensures count == 9 && sum == Sum(Window(field[..], Index(x, y)))
    ensures sum / count as real == SmoothCell(field[..], Index(x, y))
  {
    InteriorIndex(x, y);
    ghost var w := Window(field[..], Index(x, y));
    sum, count := 0.0, 0;
    var dy := -1;
    while dy <= 1
      invariant -1 <= dy <= 2 && count == 3 * (dy + 1)
      invariant sum == Sum(w[..count])
    {
      var dx := -1;
      while dx <= 1
        invariant -1 <= dx <= 2 && count == 3 * (dy + 1) + (dx + 1)
        invariant sum == Sum(w[..count])
      {
        var nidx := (y + dy) * SIZE + (x + dx);
        WindowEntry(field[..], Index(x, y), dy, dx);
        assert nidx == Index(x, y) + dy * SIZE + dx && w[count] == field[nidx];
        PrefixStep(w, count, 0.0);
        sum := sum + field[nidx];
        count := count + 1;
        dx := dx + 1;
      }
      dy := dy + 1;
    }
    assert w[..count] == w;
  }

  /** The Sobel step of computeFeatureMaps: `root` (Math.sqrt) of gx * gx + gy * gy. */
  method SobelEdge(current: array<real>, x: int, y: int, root: real -> real) returns (edge: real)
    requires current.Length == CELLS && 1 <= x <= SIZE - 2 && 1 <= y <= SIZE - 2
    ensures Interior(Index(x, y))
    ensures edge == EdgeCell(current[..], Index(x, y), root)
  {
    InteriorIndex(x, y);
    var idx := y * SIZE + x;
    var gx := -current[idx - SIZE - 1] + current[idx - SIZE + 1]
              + -2.0 * current[idx - 1] + 2.0 * current[idx + 1]
              + -current[idx + SIZE - 1] + current[idx + SIZE + 1];
    var gy := -current[idx - SIZE - 1] - 2.0 * current[idx - SIZE] - current[idx - SIZE + 1]
              + current[idx + SIZE - 1] + 2.0 * current[idx + SIZE] + current[idx + SIZE + 1];
    assert gx == SobelX(current[..], idx) && gy == SobelY(current[..], idx);
    assert SobelMagnitudeSq(current[..], idx) == gx * gx + gy * gy;
    edge := root(gx * gx + gy * gy);
  }

  /** The texture loop of computeFeatureMaps: squared differences from the centre value over
      the neighbours whose flat index is inside the buffer (all nine, for an interior cell). */
  method TextureSum(current: array<real>, x: int, y: int) returns (variance: real, count: int)
    requires current.Length == CELLS && 1 <= x <= SIZE - 2 && 1 <= y <= SIZE - 2
    ensures Interior(Index(x, y))
    ensures count == 9 && variance == SumSqDev(Window(current[..], Index(x, y)), current[Index(x, y)])
    ensures variance / count as real == TextureCell(current[..], Index(x, y))
  {
    InteriorIndex(x, y);
    ghost var w := Window(current[..], Index(x, y));
    variance, count := 0.0, 0;
    var mean := current[y * SIZE + x];
    var dy := -1;
    while dy <= 1
      invariant -1 <= dy <= 2 && count == 3 * (dy + 1)
      invariant variance == SumSqDev(w[..count], mean)
    {
      var dx := -1;
      while dx <= 1
        invariant -1 <= dx <= 2 && count == 3 * (dy + 1) + (dx + 1)
        invariant variance == SumSqDev(w[..count], mean)
      {
        var nidx := (y + dy) * SIZE + (x + dx);
        WindowEntry(current[..], Index(x, y), dy, dx);
        if nidx >= 0 && nidx < current.Length {
          assert nidx == Index(x, y) + dy * SIZE + dx && w[count] == current[nidx];
          PrefixStep(w, count, mean);
          variance := variance + Sq(current[nidx] - mean);
          count := count + 1;
        }
        dx := dx + 1;
      }
      dy := dy + 1;
    }
    assert w[..count] == w;
  }

  /** The shared "retina": parallel flat buffers of CELLS cells and the recent frames. */
  class PsiField {
    const width: int
    const height: int
    const maxHistory: nat
    const current: array<real>
    const previous: array<real>
    const edgeMap: array<real>
    const motionMap: array<real>
    const colorMap: array<real>
    const textureMap: array<real>
    const attractorField: array<real>
    var history: seq<seq<real>>

    /** Every buffer has CELLS cells and is a separate array; the history is bounded. */
    ghost predicate Valid()
      reads this
    {
      width == SIZE && height == SIZE && maxHistory == MAX_HISTORY &&
      current.Length == CELLS && previous.Length == CELLS && edgeMap.Length == CELLS &&
      motionMap.Length == CELLS && colorMap.Length == CELLS && textureMap.Length == CELLS &&
      attractorField.Length == CELLS &&
      current != previous && current != edgeMap && current != motionMap && current != colorMap &&
      current != textureMap && current != attractorField &&
      previous != edgeMap && previous != motionMap && previous != colorMap &&
      previous != textureMap && previous != attractorField &&
      edgeMap != motionMap && edgeMap != colorMap && edgeMap != textureMap && edgeMap != attractorField &&
      motionMap != colorMap && motionMap != textureMap && motionMap != attractorField &&
      colorMap != textureMap && colorMap != attractorField &&
      textureMap != attractorField &&
      |history| <= maxHistory
    }

    /** The contents of every buffer. */
    function View(): (v: FieldView)
      reads this, current, previous, edgeMap, motionMap, colorMap, textureMap, attractorField
      ensures Valid() ==> v.Wf()
    {
      FieldView(current[..], previous[..], edgeMap[..], motionMap[..], colorMap[..],
                textureMap[..], attractorField[..])
    }

    constructor ()
      ensures Valid() && View() == Blank() && history == []
      ensures fresh(current) && fresh(previous) && fresh(edgeMap) && fresh(motionMap)
      ensures fresh(colorMap) && fresh(textureMap) && fresh(attractorField)
    {
      width, height, maxHistory := SIZE, SIZE, MAX_HISTORY;
      current := new real[CELLS](_ => 0.0);
      previous := new real[CELLS](_ => 0.0);
      history := [];
      edgeMap := new real[CELLS](_ => 0.0);
      motionMap := new real[CELLS](_ => 0.0);
      colorMap := new real[CELLS](_ => 0.0);
      textureMap := new real[CELLS](_ => 0.0);
      attractorField := new real[CELLS](_ => 0.0);
      new;
      assert current[..] == Zeros() && previous[..] == Zeros() && edgeMap[..] == Zeros();
      assert motionMap[..] == Zeros() && colorMap[..] == Zeros() && textureMap[..] == Zeros();
      assert attractorField[..] == Zeros();
    }

    /** Takes in one RGBA raster: `previous` gets the old luminance, `current` the new one,
        the frame joins the bounded history and the feature maps are recomputed. `root`
        stands for Math.sqrt. */
    method UpdateFromImage(image: seq<byte>, root: real -> real)
      requires Valid() && |image| == 4 * CELLS
      modifies this, current, previous, edgeMap, motionMap, colorMap, textureMap
      ensures Valid()
      ensures history == LastN(old(history) + [Frame(image)], MAX_HISTORY)
      ensures View() == Ingest(old(View()), image, |history|, root)
    {
      ghost var v0 := View();
      forall i | 0 <= i < CELLS {
        previous[i] := current[i];
      }
      var i := 0;
      while i < current.Length
        invariant 0 <= i <= CELLS
        invariant forall k :: 0 <= k < i ==> current[k] == Frame(image)[k]
        modifies current
      {
        current[i] := Luminance(image[i * 4], image[i * 4 + 1], image[i * 4 + 2]);
        i := i + 1;
      }
      assert current[..] == Frame(image);
      assert previous[..] == v0.current;
      history := history + [current[..]];
      if |history| > maxHistory {
        history := history[1..];
      }
      assert View() == v0.(previous := v0.current, current := Frame(image));
      ComputeFeatureMaps(root);
    }

    /** The four feature channels, after the row-major pass over `v`, hold their value in
        FeatureMaps(v, ...) on cells before n and their value in `v` from n on. */
    ghost predicate FilledTo(v: FieldView, root: real -> real, n: int)
      requires Valid() && v.Wf() && 0 <= n <= CELLS
      reads this, edgeMap, motionMap, colorMap, textureMap
    {
      var w := FeatureMaps(v, |history|, root);
      edgeMap[..] == Filled(w.edgeMap, v.edgeMap, n) &&
      motionMap[..] == Filled(w.motionMap, v.motionMap, n) &&
      colorMap[..] == Filled(w.colorMap, v.colorMap, n) &&
      textureMap[..] == Filled(w.textureMap, v.textureMap, n)
    }

    /** One pass over the interior cells, row by row, writing the Sobel edge, the motion
        (once two frames are in the history), the colour copy and the texture. */
    method ComputeFeatureMaps(root: real -> real)
      requires Valid()
      modifies edgeMap, motionMap, colorMap, textureMap
      ensures View() == FeatureMaps(old(View()), |history|, root)
    {
      ghost var v0 := View();
      FirstRowUnchanged(v0, |history|, root);
      var y := 1;
      while y < height - 1
        invariant 1 <= y <= SIZE - 1
        invariant current[..] == v0.current && previous[..] == v0.previous
        invariant FilledTo(v0, root, y * SIZE)
      {
        ComputeRow(y, root, v0);
        y := y + 1;
      }
      LastRowUnchanged(v0, |history|, root);
    }

    /** The inner loop of computeFeatureMaps: the pass moves over row y. */
    method ComputeRow(y: int, root: real -> real, ghost v0: FieldView)
      requires Valid() && 1 <= y <= SIZE - 2
      requires v0.Wf() && current[..] == v0.current && previous[..] == v0.previous
      requires FilledTo(v0, root, y * SIZE)
      modifies edgeMap, motionMap, colorMap, textureMap
      ensures FilledTo(v0, root, (y + 1) * SIZE)
    {
      RowEnds(y);
      SkipBorder(v0, |history|, root, y * SIZE);
      var x := 1;
      while x < width - 1
        invariant 1 <= x <= SIZE - 1
        invariant current[..] == v0.current && previous[..] == v0.previous
        invariant FilledTo(v0, root, y * SIZE + x)
      {
        ComputeCell(x, y, root, v0);
        x := x + 1;
      }
      SkipBorder(v0, |history|, root, y * SIZE + SIZE - 1);
    }

    /** The body of the feature loop for the interior cell (x, y): the pass moves over it. */
    method ComputeCell(x: int, y: int, root: real -> real, ghost v0: FieldView)
      requires Valid() && 1 <= x <= SIZE - 2 && 1 <= y <= SIZE - 2
      requires v0.Wf() && current[..] == v0.current && previous[..] == v0.previous
      requires FilledTo(v0, root, y * SIZE + x)
      modifies edgeMap, motionMap, colorMap, textureMap
      ensures FilledTo(v0, root, y * SIZE + x + 1)
    {
      var idx := y * width + x;
      InteriorIndex(x, y);
      assert idx == Index(x, y);
      var edge := SobelEdge(current, x, y, root);
      var variance, count := TextureSum(current, x, y);
      StoreCell(idx, edge, variance / count as real, root, v0);
    }

    /** The writes of the feature loop at the interior cell idx, given its edge and texture. */
    method StoreCell(idx: int, edge: real, texture: real, root: real -> real, ghost v0: FieldView)
      requires Valid() && Interior(idx)
      requires v0.Wf() && current[..] == v0.current && previous[..] == v0.previous
      requires edge == EdgeCell(v0.current, idx, root) && texture == TextureCell(v0.current, idx)
      requires FilledTo(v0, root, idx)
      modifies edgeMap, motionMap, colorMap, textureMap
      ensures FilledTo(v0, root, idx + 1)
    {
      FillInterior(v0, |history|, root, idx);
      edgeMap[idx] := edge;
      if |history| >= 2 {
        var motion := Abs(current[idx] - previous[idx]);
        assert motion == Abs(v0.current[idx] - v0.previous[idx]);
        motionMap[idx] := motion;
      }
      colorMap[idx] := current[idx];
      textureMap[idx] := texture;
    }

    /** Rebuilds the attractor field: cleared, then activation * 0.1 added at the floored
        cell of every scout on the grid, then smoothed. */
    method UpdateAttractorField(scouts: seq<Scout>)
      requires Valid()
      modifies attractorField
      ensures attractorField[..] == Smoothed(Density(States(scouts)))
    {
      DepositScouts(attractorField, scouts);
      SmoothField(attractorField);
    }

    /** 3x3 box blur through a fresh zeroed buffer: interior cells get the mean of their
        neighbourhood, border cells end up 0. */
    method SmoothField(field: array<real>)
      requires Valid() && field.Length == CELLS
      modifies field
      ensures field[..] == Smoothed(old(field[..]))
    {
      var temp := new real[field.Length](_ => 0.0);
      assert temp[..] == Zeros();
      BlurRows(field, temp);
      forall i | 0 <= i < CELLS {
        field[i] := temp[i];
      }
      assert field[..] == temp[..];
    }
  }

  /** The clearing and deposit loops of updateAttractorField. */
  method DepositScouts(field: array<real>, scouts: seq<Scout>)
    requires field.Length == CELLS
    modifies field
    ensures field[..] == Density(States(scouts))
  {
    forall i | 0 <= i < CELLS {
      field[i] := 0.0;
    }
    assert field[..] == Density([]);
    var k := 0;
    while k < |scouts|
      invariant 0 <= k <= |scouts|
      invariant field[..] == Density(States(scouts[..k]))
    {
      var scout := scouts[k];
      var x := scout.x.Floor;
      var y := scout.y.Floor;
      assert States(scouts[..k + 1]) == States(scouts[..k]) + [scout.State()];
      DensityAppend(States(scouts[..k]), scout.State());
      if x >= 0 && x < SIZE && y >= 0 && y < SIZE {
        var idx := y * SIZE + x;
        var deposit := field[idx] + scout.activation * 0.1;
        field[idx] := deposit;
      }
      k := k + 1;
    }
    assert scouts[..k] == scouts;
  }

  /** The loops of smoothField: rows 1 .. SIZE - 2 of the zeroed `temp` receive the blur. */
  method BlurRows(field: array<real>, temp: array<real>)
    requires field.Length == CELLS && temp.Length == CELLS && field != temp
    requires temp[..] == Zeros()
    modifies temp
    ensures temp[..] == Smoothed(field[..])
  {
    ghost var target := Smoothed(field[..]);
    BlurFirstRow(field[..]);
    var y := 1;
    while y < SIZE - 1
      invariant 1 <= y <= SIZE - 1
      invariant temp[..] == Filled(target, Zeros(), y * SIZE)
    {
      BlurRow(field, temp, y);
      y := y + 1;
    }
    BlurLastRow(field[..]);
  }

  /** The inner loop of smoothField: the blur moves over row y of `temp`. */
  method BlurRow(field: array<real>, temp: array<real>, y: int)
    requires field.Length == CELLS && temp.Length == CELLS && field != temp && 1 <= y <= SIZE - 2
    requires temp[..] == Filled(Smoothed(field[..]), Zeros(), y * SIZE)
    modifies temp
    ensures temp[..] == Filled(Smoothed(field[..]), Zeros(), (y + 1) * SIZE)
  {
    ghost var target := Smoothed(field[..]);
    RowEnds(y);
    FilledSkip(target, Zeros(), y * SIZE);
    var x := 1;
    while x < SIZE - 1
      invariant 1 <= x <= SIZE - 1
      invariant temp[..] == Filled(target, Zeros(), y * SIZE + x)
    {
      var idx := y * SIZE + x;
      InteriorIndex(x, y);
      assert idx == Index(x, y);
      var sum, count := WindowSum(field, x, y);
      FilledStep(target, Zeros(), idx);
      temp[idx] := sum / count as real;
      x := x + 1;
    }
    FilledSkip(target, Zeros(), y * SIZE + SIZE - 1);
  }

  /** The states of a sequence of scouts. */
  function States(scouts: seq<Scout>): (r: seq<ScoutState>)
    reads scouts
    ensures |r| == |scouts| && forall k :: 0 <= k < |scouts| ==> r[k] == scouts[k].State()
  {
    seq(|scouts|, k reads scouts requires 0 <= k < |scouts| => scouts[k].State())
  }

  /** One scout ("minimodel") with a fixed type, sensitivity and threshold. */
  class Scout {
    const kind: ScoutType
    const sensitivity: real
    const threshold: real
    var x: real
    var y: real
    var vx: real
    var vy: real
    var activation: real
    var age: int
    var energy: real

    function State(): ScoutState
      reads this
    {
      ScoutState(kind, x, y, vx, vy, activation, age, energy, sensitivity, threshold)
    }

    /** new Scout(type), with the constructor's Math.random() draws passed in `d`. */
    constructor (kind: ScoutType, d: Draw)
      ensures State() == Spawn(kind, d)
    {
      this.kind := kind;
      x := d.x * SIZE as real;
      y := d.y * SIZE as real;
      vx, vy := 0.0, 0.0;
      activation := 0.0;
      age := 0;
      energy := d.energy * 0.5 + 0.5;
      sensitivity := d.sensitivity * 0.5 + 0.5;
      threshold := d.threshold * 0.3 + 0.1;
    }

    /** The force before noise: zero unless the activation exceeds the threshold, then the
        gradient of the scout's channel times 5 x activation plus the cluster force. */
    method Drift(v: FieldView, activation: real) returns (fx: real, fy: real)
      requires v.Wf() && State().OnGrid()
      ensures Vec(fx, fy) == Drive(kind, threshold, x, y, v, activation)
    {
      fx, fy := 0.0, 0.0;
      if activation > threshold {
        var gradient := Gradient(kind, v, x.Floor, y.Floor);
        fx := gradient.x * activation * 5.0;
        fy := gradient.y * activation * 5.0;
        var clusterForce := ClusterForce(v, x, y);
        fx := fx + clusterForce.x;
        fy := fy + clusterForce.y;
      }
    }

    /** One update against the field; `rx`, `ry` are the Math.random() draws of the noise. */
    method Update(field: PsiField, rx: real, ry: real)
      requires field.Valid()
      modifies this
      ensures State() == Step(old(State()), field.View(), rx, ry)
    {
      var cx := x.Floor;
      var cy := y.Floor;
      if cx < 0 || cx >= field.width || cy < 0 || cy >= field.height {
        age := age + 1;
        return;
      }
      Move(field.View(), rx, ry);
    }

    /** The update of a scout on the grid: the stimulus, the activation, the forces, the
        velocity, the clamped position and the energy. The new values are computed in the
        source's order and stored together at the end. */
    method Move(v: FieldView, rx: real, ry: real)
      requires v.Wf() && State().OnGrid()
      modifies this
      ensures State() == Step(old(State()), v, rx, ry)
    {
      ghost var s0 := State();
      var stimulus := Stimulus(kind, v, x.Floor, y.Floor);
      var a := activation * 0.9 + stimulus * sensitivity * 0.1;
      var fx, fy := Drift(v, a);
      fx := fx + (rx - 0.5) * 1.0;
      fy := fy + (ry - 0.5) * 1.0;
      var nvx := vx * 0.8 + fx * 0.1;
      var nvy := vy * 0.8 + fy * 0.1;
      var nx := Max(5.0, Min(SIZE as real - 5.0, x + nvx));
      var ny := Max(5.0, Min(SIZE as real - 5.0, y + nvy));
      var e := energy * 0.99 + a * 0.01;
      StepFromParts(s0, v, rx, ry, a, nvx, nvy, nx, ny, e);
      age, activation, vx, vy, x, y, energy := age + 1, a, nvx, nvy, nx, ny, e;
    }
  }

  ghost predicate Distinct(scouts: seq<Scout>) {
    forall j, k :: 0 <= j < k < |scouts| ==> scouts[j] != scouts[k]
  }

  /** The population set-up: SCOUTS_PER_TYPE new scouts of each type, type by type in tag
      order; `draws` holds the random draws of each scout in creation order. */
  method InitPopulation(draws: seq<Draw>) returns (scouts: seq<Scout>)
    requires |draws| == TYPE_COUNT * SCOUTS_PER_TYPE
    ensures |scouts| == |draws| && Distinct(scouts)
    ensures forall k :: 0 <= k < |scouts| ==> fresh(scouts[k])
    ensures forall k :: 0 <= k < |scouts| ==>
      scouts[k].State() == Spawn(Layout(TYPE_COUNT, SCOUTS_PER_TYPE)[k], draws[k])
  {
    scouts := [];
    for t := 0 to TYPE_COUNT
      invariant |scouts| == t * SCOUTS_PER_TYPE && Distinct(scouts)
      invariant forall k :: 0 <= k < |scouts| ==> fresh(scouts[k])
      invariant forall k :: 0 <= k < |scouts| ==>
        scouts[k].State() == Spawn(Layout(t, SCOUTS_PER_TYPE)[k], draws[k])
    {
      ghost var before := scouts;
      scouts := AddType(scouts, t, draws);
      assert forall k :: 0 <= k < |before| ==> scouts[k] == before[k];
    }
  }

  /** The body of the set-up loop for type t: SCOUTS_PER_TYPE scouts of that type join. */
  method AddType(scouts: seq<Scout>, t: int, draws: seq<Draw>) returns (more: seq<Scout>)
    requires 0 <= t < TYPE_COUNT && |draws| == TYPE_COUNT * SCOUTS_PER_TYPE
    requires |scouts| == t * SCOUTS_PER_TYPE && Distinct(scouts)
    requires forall k :: 0 <= k < |scouts| ==>
      scouts[k].State() == Spawn(Layout(t, SCOUTS_PER_TYPE)[k], draws[k])
    ensures |more| == (t + 1) * SCOUTS_PER_TYPE && Distinct(more) && more[..|scouts|] == scouts
    ensures forall k :: |scouts| <= k < |more| ==> fresh(more[k])
    ensures forall k :: 0 <= k < |more| ==>
      more[k].State() == Spawn(Layout(t + 1, SCOUTS_PER_TYPE)[k], draws[k])
  {
    var start := |scouts|;
    assert start + SCOUTS_PER_TYPE == (t + 1) * SCOUTS_PER_TYPE <= |draws|;
    var batch := SpawnBatch(TypeAt(t), draws[start..start + SCOUTS_PER_TYPE]);
    ghost var layout := Layout(t + 1, SCOUTS_PER_TYPE);
    assert layout == Layout(t, SCOUTS_PER_TYPE) + Repeat(TypeAt(t), SCOUTS_PER_TYPE);
    more := scouts + batch;
    forall k | 0 <= k < |more|
      ensures more[k].State() == Spawn(layout[k], draws[k])
    {
      if k < start {
        assert more[k] == scouts[k] && layout[k] == Layout(t, SCOUTS_PER_TYPE)[k];
      } else {
        assert more[k] == batch[k - start] && layout[k] == TypeAt(t);
      }
    }
  }

  /** The inner loop of the set-up: new Scout(kind) once per draw. */
  method SpawnBatch(kind: ScoutType, ds: seq<Draw>) returns (batch: seq<Scout>)
    ensures |batch| == |ds| && Distinct(batch)
    ensures forall k :: 0 <= k < |batch| ==> fresh(batch[k])
    ensures forall k :: 0 <= k < |batch| ==> batch[k].State() == Spawn(kind, ds[k])
  {
    batch := [];
    for i := 0 to |ds|
      invariant |batch| == i && Distinct(batch)
      invariant forall k :: 0 <= k < i ==> fresh(batch[k])
      invariant forall k :: 0 <= k < i ==> batch[k].State() == Spawn(kind, ds[k])
    {
      var scout := new Scout(kind, ds[i]);
      batch := batch + [scout];
    }
  }

  /** resetSystem: every scout gets a new position and energy from its draws, velocity and
      activation are cleared; type, sensitivity, threshold and age are kept. */
  method ResetSystem(scouts: seq<Scout>, draws: seq<ResetDraw>)
    requires |draws| == |scouts| && Distinct(scouts)
    modifies scouts
    ensures forall k :: 0 <= k < |scouts| ==> scouts[k].State() == Respawn(old(scouts[k].State()), draws[k])
  {
    for k := 0 to |scouts|
      invariant forall j :: 0 <= j < k ==> scouts[j].State() == Respawn(old(scouts[j].State()), draws[j])
      invariant forall j :: k <= j < |scouts| ==> scouts[j].State() == old(scouts[j].State())
    {
      var scout := scouts[k];
      scout.x := draws[k].x * SIZE as real;
      scout.y := draws[k].y * SIZE as real;
      scout.vx := 0.0;
      scout.vy := 0.0;
      scout.activation := 0.0;
      scout.energy := draws[k].energy * 0.5 + 0.5;
    }
  }
}
