/** A scout ("minimodel") as a value: its twelve types, the stimulus, gradient and cluster
    helpers it reads the field through, one update step, its creation and reset from random
    draws, the attractor density the population deposits, and the population layout. The
    Scout class in module Engine is proved to perform exactly Step. */
module Minimodel {
  import opened Grid
  import opened Features

  /** The twelve scout types, in the order of their numeric tags 0..11. */
  datatype ScoutType =
    | EdgeVertical | EdgeHorizontal | EdgeDiagonal1 | EdgeDiagonal2
    | MotionUp | MotionDown | MotionLeft | MotionRight
    | ColorBright | ColorDark
    | TextureHigh | TextureLow
  {
    predicate IsEdge() {
      EdgeVertical? || EdgeHorizontal? || EdgeDiagonal1? || EdgeDiagonal2?
    }

    predicate IsMotion() {
      MotionUp? || MotionDown? || MotionLeft? || MotionRight?
    }
  }

  /** ATTRACTOR_TYPES */
  const TYPE_COUNT: int := 12

  /** MAX_SCOUTS */
  const MAX_SCOUTS: int := 8000

  /** Scouts created per type: floor(MAX_SCOUTS / TYPE_COUNT). */
  const SCOUTS_PER_TYPE: int := MAX_SCOUTS / TYPE_COUNT

  /** Distance kept from the edge of the field by the boundary clamp. */
  const MARGIN: real := 5.0

  /** The type with numeric tag k. */
  function TypeAt(k: int): ScoutType
    requires 0 <= k < TYPE_COUNT
  {
    [EdgeVertical, EdgeHorizontal, EdgeDiagonal1, EdgeDiagonal2,
     MotionUp, MotionDown, MotionLeft, MotionRight,
     ColorBright, ColorDark, TextureHigh, TextureLow][k]
  }

  /** The numeric tag of a type; TypeAt inverts it. */
  function Tag(t: ScoutType): (k: int)
    ensures 0 <= k < TYPE_COUNT && TypeAt(k) == t
  {
    match t
    case EdgeVertical => 0
    case EdgeHorizontal => 1
    case EdgeDiagonal1 => 2
    case EdgeDiagonal2 => 3
    case MotionUp => 4
    case MotionDown => 5
    case MotionLeft => 6
    case MotionRight => 7
    case ColorBright => 8
    case ColorDark => 9
    case TextureHigh => 10
    case TextureLow => 11
  }

  lemma TagOfTypeAt(k: int)
    requires 0 <= k < TYPE_COUNT
    ensures Tag(TypeAt(k)) == k
  {
  }

  datatype Vec = Vec(x: real, y: real)

  /** Every field of a scout that the simulation reads or writes (clusterId is never used). */
  datatype ScoutState = ScoutState(
    kind: ScoutType,
    x: real, y: real,
    vx: real, vy: real,
    activation: real,
    age: int,
    energy: real,
    sensitivity: real,
    threshold: real)
  {
    /** The floored position is a cell of the field. */
    predicate OnGrid() {
      InGrid(x.Floor, y.Floor)
    }

    /** The position lies within the clamped band [MARGIN, SIZE - MARGIN]. */
    predicate InBand() {
      MARGIN <= x <= SIZE as real - MARGIN && MARGIN <= y <= SIZE as real - MARGIN
    }
  }

  /** Math.max(5, Math.min(FIELD_SIZE - 5, v)). */
  function Clamp(v: real): (r: real)
    ensures MARGIN <= r <= SIZE as real - MARGIN
    ensures MARGIN <= v <= SIZE as real - MARGIN ==> r == v
  {
    Max(MARGIN, Min(SIZE as real - MARGIN, v))
  }

  lemma BandIsOnGrid(s: ScoutState)
    requires s.InBand()
    ensures s.OnGrid()
  {
  }

  // ---------------------------------------------------------------------------------------
  // Stimulus helpers

  /** Horizontal-neighbour difference of the luminance; 0 in the first and last column. */
  function VerticalEdge(v: FieldView, x: int, y: int): (e: real)
    requires v.Wf() && InGrid(x, y)
    ensures e >= 0.0
    ensures x <= 0 || x >= SIZE - 1 ==> e == 0.0
    ensures UnitValues(v.current) ==> e <= 1.0
  {
    if x <= 0 || x >= SIZE - 1 then 0.0
    else Abs(v.current[Index(x, y) - 1] - v.current[Index(x, y) + 1])
  }

  /** Vertical-neighbour difference of the luminance; 0 in the first and last row. */
  function HorizontalEdge(v: FieldView, x: int, y: int): (e: real)
    requires v.Wf() && InGrid(x, y)
    ensures e >= 0.0
    ensures y <= 0 || y >= SIZE - 1 ==> e == 0.0
    ensures UnitValues(v.current) ==> e <= 1.0
  {
    if y <= 0 || y >= SIZE - 1 then 0.0
    else Abs(v.current[Index(x, y) - SIZE] - v.current[Index(x, y) + SIZE])
  }

  /** Difference along the main diagonal; 0 on every border cell. */
  function DiagonalEdge1(v: FieldView, x: int, y: int): (e: real)
    requires v.Wf() && InGrid(x, y)
    ensures e >= 0.0
    ensures !Interior(Index(x, y)) ==> e == 0.0
    ensures UnitValues(v.current) ==> e <= 1.0
  {
    if x <= 0 || x >= SIZE - 1 || y <= 0 || y >= SIZE - 1 then 0.0
    else Abs(v.current[Index(x, y) - SIZE - 1] - v.current[Index(x, y) + SIZE + 1])
  }

  /** Difference along the anti-diagonal; 0 on every border cell. */
  function DiagonalEdge2(v: FieldView, x: int, y: int): (e: real)
    requires v.Wf() && InGrid(x, y)
    ensures e >= 0.0
    ensures !Interior(Index(x, y)) ==> e == 0.0
    ensures UnitValues(v.current) ==> e <= 1.0
  {
    if x <= 0 || x >= SIZE - 1 || y <= 0 || y >= SIZE - 1 then 0.0
    else Abs(v.current[Index(x, y) - SIZE + 1] - v.current[Index(x, y) + SIZE - 1])
  }

  /** The stimulus a scout of type `kind` reads at cell (x, y): the twelve-way switch. On a
      field in range every stimulus lies in [0, 1]. */
  function Stimulus(kind: ScoutType, v: FieldView, x: int, y: int): (r: real)
    requires v.Wf() && InGrid(x, y)
    ensures InRange(v) ==> 0.0 <= r <= 1.0
  {
    var i := Index(x, y);
    assert InRange(v) ==> 0.0 <= v.motionMap[i] <= 1.0 && 0.0 <= v.colorMap[i] <= 1.0 && 0.0 <= v.textureMap[i] <= 1.0;
    match kind
    case EdgeVertical => VerticalEdge(v, x, y)
    case EdgeHorizontal => HorizontalEdge(v, x, y)
    case EdgeDiagonal1 => DiagonalEdge1(v, x, y)
    case EdgeDiagonal2 => DiagonalEdge2(v, x, y)
    case MotionUp => v.motionMap[i]
    case MotionDown => v.motionMap[i]
    case MotionLeft => v.motionMap[i]
    case MotionRight => v.motionMap[i]
    case ColorBright => v.colorMap[i]
    case ColorDark => 1.0 - v.colorMap[i]
    case TextureHigh => v.textureMap[i]
    case TextureLow => Max(0.0, 0.5 - v.textureMap[i])
  }

  /** The channel whose gradient a type follows: edges, motion, or (all others) colour. */
  function Channel(kind: ScoutType, v: FieldView): (c: seq<real>)
    requires v.Wf()
    ensures |c| == CELLS
    ensures c == v.edgeMap || c == v.motionMap || c == v.colorMap
    ensures kind.IsEdge() ==> c == v.edgeMap
    ensures kind.IsMotion() ==> c == v.motionMap
  {
    if kind.IsEdge() then v.edgeMap
    else if kind.IsMotion() then v.motionMap
    else v.colorMap
  }

  /** Central differences of the type's channel; a component stays 0 on its own border. */
  function Gradient(kind: ScoutType, v: FieldView, x: int, y: int): (g: Vec)
    requires v.Wf() && InGrid(x, y)
    ensures x == 0 || x == SIZE - 1 ==> g.x == 0.0
    ensures y == 0 || y == SIZE - 1 ==> g.y == 0.0
  {
    var c := Channel(kind, v);
    var gx := if 0 < x < SIZE - 1 then c[y * SIZE + x + 1] - c[y * SIZE + x - 1] else 0.0;
    var gy := if 0 < y < SIZE - 1 then c[(y + 1) * SIZE + x] - c[(y - 1) * SIZE + x] else 0.0;
    Vec(gx, gy)
  }

  /** Pull towards denser attractor field, from the scout's own (unrounded) position; (0, 0)
      unless the floored position is strictly inside the field. */
  function ClusterForce(v: FieldView, px: real, py: real): (f: Vec)
    requires v.Wf()
    ensures !(0 < px.Floor < SIZE - 1 && 0 < py.Floor < SIZE - 1) ==> f == Vec(0.0, 0.0)
  {
    var x, y := px.Floor, py.Floor;
    if 0 < x < SIZE - 1 && 0 < y < SIZE - 1 then
      var i := y * SIZE + x;
      var a := v.attractorField;
      Vec((a[i + 1] - a[i - 1]) * 2.0, (a[i + SIZE] - a[i - SIZE]) * 2.0)
    else Vec(0.0, 0.0)
  }

  // ---------------------------------------------------------------------------------------
  // One update step

  /** The force before noise: gradient times activation times 5 plus the cluster force when
      the activation exceeds the threshold, nothing otherwise. */
  function Drive(kind: ScoutType, threshold: real, px: real, py: real, v: FieldView, activation: real): (f: Vec)
    requires v.Wf() && InGrid(px.Floor, py.Floor)
    ensures activation <= threshold ==> f == Vec(0.0, 0.0)
    ensures px.Floor == 0 || px.Floor == SIZE - 1 ==> f.x == 0.0
    ensures py.Floor == 0 || py.Floor == SIZE - 1 ==> f.y == 0.0
  {
    if activation > threshold then
      var g := Gradient(kind, v, px.Floor, py.Floor);
      var c := ClusterForce(v, px, py);
      Vec(g.x * activation * 5.0 + c.x, g.y * activation * 5.0 + c.y)
    else Vec(0.0, 0.0)
  }

  /** Scout.update: `rx`, `ry` are the two Math.random() draws of the exploration noise. */
  function Step(s: ScoutState, v: FieldView, rx: real, ry: real): (t: ScoutState)
    requires v.Wf()
    ensures t.kind == s.kind && t.sensitivity == s.sensitivity && t.threshold == s.threshold
    ensures t.age == s.age + 1
    ensures !s.OnGrid() ==> t == s.(age := s.age + 1)
    ensures s.OnGrid() ==> t.InBand()
  {
    var aged := s.(age := s.age + 1);
    if !s.OnGrid() then aged
    else
      var stimulus := Stimulus(s.kind, v, s.x.Floor, s.y.Floor);
      var activation := s.activation * 0.9 + stimulus * s.sensitivity * 0.1;
      var drive := Drive(s.kind, s.threshold, s.x, s.y, v, activation);
      var fx := drive.x + (rx - 0.5) * 1.0;
      var fy := drive.y + (ry - 0.5) * 1.0;
      var vx := s.vx * 0.8 + fx * 0.1;
      var vy := s.vy * 0.8 + fy * 0.1;
      aged.(activation := activation, vx := vx, vy := vy,
            x := Clamp(s.x + vx), y := Clamp(s.y + vy),
            energy := s.energy * 0.99 + activation * 0.01)
  }

  /** Inputs of one step: the field snapshot and the two noise draws. */
  datatype StepInput = StepInput(view: FieldView, rx: real, ry: real)

  ghost predicate AllWf(inputs: seq<StepInput>) {
    forall k :: 0 <= k < |inputs| ==> inputs[k].view.Wf()
  }

  /** A scout updated once per input, in order. */
  function Run(s: ScoutState, inputs: seq<StepInput>): ScoutState
    requires AllWf(inputs)
    decreases |inputs|
  {
    if inputs == [] then s
    else Run(Step(s, inputs[0].view, inputs[0].rx, inputs[0].ry), inputs[1..])
  }

  // ---------------------------------------------------------------------------------------
  // Properties of a step

  /** The exponential moving averages of one in-grid step. */
  lemma StepRecurrences(s: ScoutState, v: FieldView, rx: real, ry: real)
    requires v.Wf() && s.OnGrid()
    ensures var t := Step(s, v, rx, ry);
      var f := Drive(s.kind, s.threshold, s.x, s.y, v, t.activation);
      t.activation == s.activation * 0.9 + Stimulus(s.kind, v, s.x.Floor, s.y.Floor) * s.sensitivity * 0.1 &&
      t.vx == 0.8 * s.vx + 0.1 * (f.x + rx - 0.5) &&
      t.vy == 0.8 * s.vy + 0.1 * (f.y + ry - 0.5) &&
      t.x == Clamp(s.x + t.vx) && t.y == Clamp(s.y + t.vy) &&
      t.energy == s.energy * 0.99 + t.activation * 0.01
  {
  }

  /** The two moving averages of one in-grid step on their own. */
  lemma StepLevels(s: ScoutState, v: FieldView, rx: real, ry: real)
    requires v.Wf() && s.OnGrid()
    ensures var t := Step(s, v, rx, ry);
      t.activation == s.activation * 0.9 + Stimulus(s.kind, v, s.x.Floor, s.y.Floor) * s.sensitivity * 0.1 &&
      t.energy == s.energy * 0.99 + t.activation * 0.01
  {
  }

  /** A step is determined by its component recurrences (the form an imperative update
      establishes one assignment at a time). */
  lemma StepFromParts(s: ScoutState, v: FieldView, rx: real, ry: real,
                      activation: real, vx: real, vy: real, x: real, y: real, energy: real)
    requires v.Wf() && s.OnGrid()
    requires activation == s.activation * 0.9 + Stimulus(s.kind, v, s.x.Floor, s.y.Floor) * s.sensitivity * 0.1
    requires var f := Drive(s.kind, s.threshold, s.x, s.y, v, activation);
      vx == s.vx * 0.8 + (f.x + (rx - 0.5) * 1.0) * 0.1 &&
      vy == s.vy * 0.8 + (f.y + (ry - 0.5) * 1.0) * 0.1
    requires x == Clamp(s.x + vx) && y == Clamp(s.y + vy)
    requires energy == s.energy * 0.99 + activation * 0.01
    ensures Step(s, v, rx, ry) == s.(age := s.age + 1, activation := activation, vx := vx, vy := vy,
                                     x := x, y := y, energy := energy)
  {
  }

  /** At or below the threshold the only force is the exploration noise. */
  lemma BelowThresholdOnlyNoise(s: ScoutState, v: FieldView, rx: real, ry: real)
    requires v.Wf() && s.OnGrid()
    requires Step(s, v, rx, ry).activation <= s.threshold
    ensures Step(s, v, rx, ry).vx == 0.8 * s.vx + 0.1 * (rx - 0.5)
    ensures Step(s, v, rx, ry).vy == 0.8 * s.vy + 0.1 * (ry - 0.5)
  {
  }

  /** Above the threshold the gradient (scaled by 5 x activation) and the cluster force join. */
  lemma AboveThresholdFollowsGradient(s: ScoutState, v: FieldView, rx: real, ry: real)
    requires v.Wf() && s.OnGrid()
    requires Step(s, v, rx, ry).activation > s.threshold
    ensures var a := Step(s, v, rx, ry).activation;
      var g := Gradient(s.kind, v, s.x.Floor, s.y.Floor);
      var c := ClusterForce(v, s.x, s.y);
      Step(s, v, rx, ry).vx == 0.8 * s.vx + 0.1 * (g.x * a * 5.0 + c.x + rx - 0.5) &&
      Step(s, v, rx, ry).vy == 0.8 * s.vy + 0.1 * (g.y * a * 5.0 + c.y + ry - 0.5)
  {
    StepRecurrences(s, v, rx, ry);
  }

  /** The two stimuli that are not a channel value: TEXTURE_LOW is never negative and is
      positive exactly below texture 0.5; COLOR_DARK is the complement of the colour. */
  lemma StimulusSigns(v: FieldView, x: int, y: int)
    requires v.Wf() && InGrid(x, y)
    ensures var i := Index(x, y);
      0.0 <= Stimulus(TextureLow, v, x, y) &&
      (0.0 < Stimulus(TextureLow, v, x, y) <==> v.textureMap[i] < 0.5) &&
      Stimulus(ColorDark, v, x, y) + v.colorMap[i] == 1.0
  {
  }

  lemma ProductInUnit(a: real, b: real)
    requires 0.0 <= a <= 1.0 && 0.0 <= b <= 1.0
    ensures 0.0 <= a * b <= 1.0
  {
    assert 0.0 <= a * b;
    assert a * b <= b;
  }

  /** Activation and energy stay in [0, 1] on a field in range, for sensitivity in [0, 1]. */
  lemma StepKeepsUnitLevels(s: ScoutState, v: FieldView, rx: real, ry: real)
    requires InRange(v) && 0.0 <= s.sensitivity <= 1.0
    requires 0.0 <= s.activation <= 1.0 && 0.0 <= s.energy <= 1.0
    ensures 0.0 <= Step(s, v, rx, ry).activation <= 1.0
    ensures 0.0 <= Step(s, v, rx, ry).energy <= 1.0
  {
    if s.OnGrid() {
      OnGridLevels(s, v, rx, ry);
    }
  }

  /** The in-grid case, given a stimulus in [0, 1]. */
  lemma OnGridLevels(s: ScoutState, v: FieldView, rx: real, ry: real)
    requires v.Wf() && s.OnGrid() && 0.0 <= Stimulus(s.kind, v, s.x.Floor, s.y.Floor) <= 1.0
    requires 0.0 <= s.sensitivity <= 1.0 && 0.0 <= s.activation <= 1.0 && 0.0 <= s.energy <= 1.0
    ensures 0.0 <= Step(s, v, rx, ry).activation <= 1.0
    ensures 0.0 <= Step(s, v, rx, ry).energy <= 1.0
  {
    StepLevels(s, v, rx, ry);
    BlendInUnit(s, Step(s, v, rx, ry), Stimulus(s.kind, v, s.x.Floor, s.y.Floor));
  }

  /** The two moving averages of a step keep activation and energy in [0, 1]. */
  lemma BlendInUnit(s: ScoutState, t: ScoutState, stimulus: real)
    requires 0.0 <= s.activation <= 1.0 && 0.0 <= s.sensitivity <= 1.0
    requires 0.0 <= stimulus <= 1.0 && 0.0 <= s.energy <= 1.0
    requires t.activation == s.activation * 0.9 + stimulus * s.sensitivity * 0.1
    requires t.energy == s.energy * 0.99 + t.activation * 0.01
    ensures 0.0 <= t.activation <= 1.0 && 0.0 <= t.energy <= 1.0
  {
    ProductInUnit(stimulus, s.sensitivity);
  }

  /** A scout that starts on the grid stays on it, and after at least one step it lies in
      the band [MARGIN, SIZE - MARGIN]. */
  lemma {:induction false} RunStaysInBand(s: ScoutState, inputs: seq<StepInput>)
    requires AllWf(inputs) && s.OnGrid()
    ensures Run(s, inputs).OnGrid()
    ensures inputs != [] ==> Run(s, inputs).InBand()
    decreases |inputs|
  {
    if inputs != [] {
      var t := Step(s, inputs[0].view, inputs[0].rx, inputs[0].ry);
      BandIsOnGrid(t);
      assert AllWf(inputs[1..]);
      RunStaysInBand(t, inputs[1..]);
      if inputs[1..] == [] {
        assert Run(s, inputs) == t;
      }
    }
  }

  // ---------------------------------------------------------------------------------------
  // Creation and reset

  /** Values of Math.random(), each in [0, 1), drawn by the Scout constructor in order. */
  datatype Draw = Draw(x: real, y: real, energy: real, sensitivity: real, threshold: real)

  /** Values of Math.random() drawn for one scout by resetSystem. */
  datatype ResetDraw = ResetDraw(x: real, y: real, energy: real)

  predicate Unit01(r: real) {
    0.0 <= r < 1.0
  }

  /** new Scout(kind): a scout of that type at rest, aged 0; with draws in [0, 1) it stands
      on the grid and its constants lie in their ranges. */
  function Spawn(kind: ScoutType, d: Draw): (s: ScoutState)
    ensures s.kind == kind && s.vx == 0.0 && s.vy == 0.0 && s.activation == 0.0 && s.age == 0
    ensures Unit01(d.x) && Unit01(d.y) && Unit01(d.energy) && Unit01(d.sensitivity) && Unit01(d.threshold) ==>
      s.OnGrid() && 0.5 <= s.energy < 1.0 && 0.5 <= s.sensitivity < 1.0 && 0.1 <= s.threshold < 0.4
  {
    var s := ScoutState(kind, d.x * SIZE as real, d.y * SIZE as real, 0.0, 0.0, 0.0, 0,
                        d.energy * 0.5 + 0.5, d.sensitivity * 0.5 + 0.5, d.threshold * 0.3 + 0.1);
    assert Unit01(d.x) && Unit01(d.y) ==> 0.0 <= s.x < 256.0 && 0.0 <= s.y < 256.0;
    s
  }

  /** What resetSystem does to one scout: velocity and activation cleared, type, sensitivity,
      threshold and age kept; with draws in [0, 1) it stands on the grid with energy in
      [0.5, 1). */
  function Respawn(s: ScoutState, d: ResetDraw): (t: ScoutState)
    ensures t.kind == s.kind && t.sensitivity == s.sensitivity && t.threshold == s.threshold && t.age == s.age
    ensures t.vx == 0.0 && t.vy == 0.0 && t.activation == 0.0
    ensures Unit01(d.x) && Unit01(d.y) && Unit01(d.energy) ==> t.OnGrid() && 0.5 <= t.energy < 1.0
  {
    var t := s.(x := d.x * SIZE as real, y := d.y * SIZE as real, vx := 0.0, vy := 0.0,
                activation := 0.0, energy := d.energy * 0.5 + 0.5);
    assert Unit01(d.x) && Unit01(d.y) ==> 0.0 <= t.x < 256.0 && 0.0 <= t.y < 256.0;
    t
  }

  // ---------------------------------------------------------------------------------------
  // Attractor density

  /** The cell a scout deposits on, if its floored position is on the grid. */
  predicate DepositsOn(s: ScoutState, i: int) {
    s.OnGrid() && Index(s.x.Floor, s.y.Floor) == i
  }

  /** Cell i of the attractor field before smoothing: activation * 0.1 added per scout
      whose floored position is cell i, in population order. */
  function Deposit(ps: seq<ScoutState>, i: int): real
  {
    if ps == [] then 0.0
    else Deposit(ps[..|ps| - 1], i) + (if DepositsOn(ps[|ps| - 1], i) then ps[|ps| - 1].activation * 0.1 else 0.0)
  }

  /** Scouts with non-negative activation leave a non-negative deposit on every cell. */
  lemma {:induction false} DepositNonNegative(ps: seq<ScoutState>, i: int)
    requires forall k :: 0 <= k < |ps| ==> ps[k].activation >= 0.0
    ensures Deposit(ps, i) >= 0.0
  {
    if ps != [] {
      DepositNonNegative(ps[..|ps| - 1], i);
    }
  }

  /** One more scout adds its deposit to its own cell and nothing elsewhere. */
  lemma DepositAppend(ps: seq<ScoutState>, p: ScoutState, i: int)
    ensures Deposit(ps + [p], i) == Deposit(ps, i) + (if DepositsOn(p, i) then p.activation * 0.1 else 0.0)
  {
    assert (ps + [p])[..|ps|] == ps;
  }

  /** The whole unsmoothed attractor field. */
  function Density(ps: seq<ScoutState>): (d: seq<real>)
    ensures |d| == CELLS
  {
    seq(CELLS, i requires 0 <= i < CELLS => Deposit(ps, i))
  }

  /** With activations in [0, 1] (as StepKeepsUnitLevels keeps them) the unsmoothed attractor
      field is non-negative everywhere. */
  lemma DensityNonNegative(ps: seq<ScoutState>)
    requires forall k :: 0 <= k < |ps| ==> ps[k].activation >= 0.0
    ensures forall i :: 0 <= i < CELLS ==> Density(ps)[i] >= 0.0
  {
    forall i | 0 <= i < CELLS ensures Density(ps)[i] >= 0.0 {
      DepositNonNegative(ps, i);
    }
  }

  /** One more scout adds activation * 0.1 to its own cell when it stands on the grid and
      changes no cell otherwise. */
  lemma DensityAppend(ps: seq<ScoutState>, p: ScoutState)
    ensures p.OnGrid() ==> var i := Index(p.x.Floor, p.y.Floor);
      Density(ps + [p]) == Density(ps)[i := Density(ps)[i] + p.activation * 0.1]
    ensures !p.OnGrid() ==> Density(ps + [p]) == Density(ps)
  {
    forall i | 0 <= i < CELLS
      ensures Density(ps + [p])[i] == Density(ps)[i] + (if DepositsOn(p, i) then p.activation * 0.1 else 0.0)
    {
      DepositAppend(ps, p, i);
    }
  }

  /** The scouts whose floored position is cell i. */
  function At(ps: seq<ScoutState>, i: int): (r: seq<ScoutState>)
    ensures forall k :: 0 <= k < |r| ==> DepositsOn(r[k], i)
    ensures |r| <= |ps|
  {
    if ps == [] then []
    else At(ps[..|ps| - 1], i) + (if DepositsOn(ps[|ps| - 1], i) then [ps[|ps| - 1]] else [])
  }

  function TotalActivation(ps: seq<ScoutState>): real {
    if ps == [] then 0.0 else TotalActivation(ps[..|ps| - 1]) + ps[|ps| - 1].activation
  }

  /** Each cell holds 0.1 times the total activation of the scouts standing on it. */
  lemma {:induction false} DepositIsScaledActivation(ps: seq<ScoutState>, i: int)
    ensures Deposit(ps, i) == 0.1 * TotalActivation(At(ps, i))
  {
    if ps != [] {
      var init, last := ps[..|ps| - 1], ps[|ps| - 1];
      DepositIsScaledActivation(init, i);
      var a := At(init, i);
      if DepositsOn(last, i) {
        assert At(ps, i) == a + [last];
        assert (a + [last])[..|a + [last]| - 1] == a;
        assert TotalActivation(a + [last]) == TotalActivation(a) + last.activation;
      } else {
        assert At(ps, i) == a + [] == a;
      }
    }
  }

  /** Removing scouts whose floored position is off the grid changes no cell. */
  function OnGridOnly(ps: seq<ScoutState>): (r: seq<ScoutState>)
    ensures forall k :: 0 <= k < |r| ==> r[k].OnGrid()
  {
    if ps == [] then []
    else OnGridOnly(ps[..|ps| - 1]) + (if ps[|ps| - 1].OnGrid() then [ps[|ps| - 1]] else [])
  }

  lemma {:induction false} OffGridContributesNothing(ps: seq<ScoutState>, i: int)
    ensures Deposit(ps, i) == Deposit(OnGridOnly(ps), i)
  {
    if ps != [] {
      var init, last := ps[..|ps| - 1], ps[|ps| - 1];
      OffGridContributesNothing(init, i);
      var r := OnGridOnly(init);
      if last.OnGrid() {
        assert OnGridOnly(ps) == r + [last];
        assert (r + [last])[..|r + [last]| - 1] == r;
        assert Deposit(r + [last], i) == Deposit(r, i) + (if DepositsOn(last, i) then last.activation * 0.1 else 0.0);
      } else {
        assert OnGridOnly(ps) == r + [] == r;
        assert !DepositsOn(last, i);
      }
    }
  }

  /** A cell that no scout stands on stays 0 before smoothing. */
  lemma {:induction false} EmptyCellIsZero(ps: seq<ScoutState>, i: int)
    requires forall k :: 0 <= k < |ps| ==> !DepositsOn(ps[k], i)
    ensures Deposit(ps, i) == 0.0
  {
    if ps != [] {
      EmptyCellIsZero(ps[..|ps| - 1], i);
    }
  }

  // ---------------------------------------------------------------------------------------
  // Population layout

  /** n copies of t. */
  function Repeat(t: ScoutType, n: nat): (r: seq<ScoutType>)
    ensures |r| == n && forall k :: 0 <= k < n ==> r[k] == t
  {
    seq(n, _ => t)
  }

  /** The types of the population after creating `perType` scouts of each of the first
      `types` types, type by type in tag order. */
  function Layout(types: nat, perType: nat): (r: seq<ScoutType>)
    requires types <= TYPE_COUNT
    ensures |r| == types * perType
  {
    if types == 0 then [] else Layout(types - 1, perType) + Repeat(TypeAt(types - 1), perType)
  }

  /** Position k of the set-up order holds the type whose tag is k div perType: the types come
      in consecutive blocks of perType, in tag order. */
  lemma {:induction false} LayoutOrder(types: nat, perType: nat, k: int)
    requires types <= TYPE_COUNT && 0 <= k < types * perType
    ensures var tag := Tag(Layout(types, perType)[k]);
      tag * perType <= k < tag * perType + perType
  {
    assert types * perType == (types - 1) * perType + perType;
    var r := Layout(types - 1, perType);
    if k < |r| {
      LayoutOrder(types - 1, perType, k);
      assert Layout(types, perType)[k] == r[k];
    } else {
      assert Layout(types, perType)[k] == TypeAt(types - 1);
      TagOfTypeAt(types - 1);
    }
  }

  function Count(s: seq<ScoutType>, t: ScoutType): nat {
    if s == [] then 0 else Count(s[..|s| - 1], t) + (if s[|s| - 1] == t then 1 else 0)
  }

  lemma {:induction false} CountConcat(a: seq<ScoutType>, b: seq<ScoutType>, t: ScoutType)
    ensures Count(a + b, t) == Count(a, t) + Count(b, t)
  {
    if b != [] {
      var init := b[..|b| - 1];
      CountConcat(a, init, t);
      assert (a + b)[..|a + b| - 1] == a + init;
      assert (a + b)[|a + b| - 1] == b[|b| - 1];
      assert Count(a + b, t) == Count(a + init, t) + (if b[|b| - 1] == t then 1 else 0);
      assert Count(b, t) == Count(init, t) + (if b[|b| - 1] == t then 1 else 0);
    } else {
      assert a + b == a;
    }
  }

  lemma {:induction false} CountRepeat(u: ScoutType, n: nat, t: ScoutType)
    ensures Count(Repeat(u, n), t) == if u == t then n else 0
  {
    if n > 0 {
      CountRepeat(u, n - 1, t);
      assert Repeat(u, n)[..n - 1] == Repeat(u, n - 1);
    }
  }

  /** Among the first `types` types, each occurs exactly `perType` times. */
  lemma {:induction false} LayoutCounts(types: nat, perType: nat, t: ScoutType)
    requires types <= TYPE_COUNT
    ensures Count(Layout(types, perType), t) == if Tag(t) < types then perType else 0
  {
    if types > 0 {
      LayoutCounts(types - 1, perType, t);
      CountConcat(Layout(types - 1, perType), Repeat(TypeAt(types - 1), perType), t);
      CountRepeat(TypeAt(types - 1), perType, t);
      TagOfTypeAt(types - 1);
    }
  }

  /** The initial population: 666 scouts of every one of the twelve types, 7992 in all. */
  lemma PopulationComposition(t: ScoutType)
    ensures SCOUTS_PER_TYPE == 666
    ensures |Layout(TYPE_COUNT, SCOUTS_PER_TYPE)| == 7992
    ensures Count(Layout(TYPE_COUNT, SCOUTS_PER_TYPE), t) == 666
  {
    LayoutCounts(TYPE_COUNT, SCOUTS_PER_TYPE, t);
  }
}
