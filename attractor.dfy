/**
  The attractor object: a `width × height` grid of 32-bit hit counters (the
  density map), a parameter vector, and a dispatch table through which the
  variant (today only Clifford) supplies its iterate and randomize steps.
 */
module Attractor {
  import opened Common

  datatype AttractorType = Clifford

  /**
    The variant's dispatch table. Each field says whether that entry is set;
    `false` stands for a null function pointer.
   */
  datatype Functions = Functions(
    initialize: bool,
    destroy: bool,
    update: bool,
    iterate: bool,
    iterateUntilTimeout: bool,
    reset: bool,
    getOccupancy: bool,
    randomize: bool,
    randomizeUntilChaotic: bool)

  /** One row of the static table of attractor variants (the UI description text is left out). */
  datatype Settings = Settings(
    kind: AttractorType,
    name: string,
    numParameters: nat,
    defaultParameters: seq<real>,
    functions: Functions)

  /** Default Clifford constants a, b, c, d. */
  const CliffordDefaults: seq<real> := [-1.4, 1.6, 1.0, 0.7]

  /** Burn-in iterations run on each candidate by the chaos search. */
  const BurnIn: nat := 25000

  /** Occupancy a candidate must reach to count as chaotic. */
  const ChaosThreshold: real := 0.01

  /**
    The table of variants. Clifford sets only `iterate` and `randomize`;
    every other entry is null.
   */
  function SettingsOf(kind: AttractorType): (s: Settings)
    ensures s.kind == kind
    ensures s.numParameters == |s.defaultParameters|
  {
    match kind
    case Clifford =>
      Settings(
        Clifford, "Clifford", 4, CliffordDefaults,
        Functions(false, false, false, true, false, false, false, true, false))
  }

  /** The attractor's contents as a value: what a variant hook reads and produces. */
  datatype State = State(parameters: seq<real>, density: seq<u32>)

  predicate SameShape(s: State, t: State)
  {
    |s.parameters| == |t.parameters| && |s.density| == |t.density|
  }

  /**
    A variant hook (code outside this model) as its effect on the state: it
    rewrites parameters and density map in place, within their buffers.
   */
  type Hook = f: State -> State | forall s :: SameShape(s, f(s))
    witness (s: State) => s

  /**
    A hook that also takes a number: the iteration count for `iterate`, the
    random draw for `randomize`.
   */
  type CountedHook = f: (State, nat) -> State | forall s, n :: SameShape(s, f(s, n))
    witness (s: State, n: nat) => s

  /** Number of cells with a non-zero counter. */
  function CountOccupied(density: seq<u32>): (n: nat)
    ensures n <= |density|
  {
    if |density| == 0 then 0
    else CountOccupied(density[..|density| - 1]) + (if density[|density| - 1] > 0 then 1 else 0)
  }

  /** Indices of the cells with a non-zero counter. */
  function OccupiedCells(density: seq<u32>): set<nat>
  {
    set i: nat | i < |density| && density[i] > 0
  }

  /**
    Fraction of non-zero cells, computed as the source does in float: an
    empty grid gives 0/0, which is NaN.
   */
  function OccupancyOf(density: seq<u32>): Float
  {
    Divide(CountOccupied(density) as real, |density| as real)
  }

  /**
    The chaos search's exit test: the loop continues while
    `occupancy < 0.01`, so it stops on any other value, NaN included.
   */
  predicate Chaotic(s: State)
  {
    !Less(OccupancyOf(s.density), Finite(ChaosThreshold))
  }

  /** The counting loop's result is the number of occupied cells. */
  lemma {:induction false} CountIsOccupiedCells(density: seq<u32>)
    ensures CountOccupied(density) == |OccupiedCells(density)|
  {
    if |density| > 0 {
      var init := density[..|density| - 1];
      CountIsOccupiedCells(init);
      var last := |density| - 1;
      if density[last] > 0 {
        assert OccupiedCells(density) == OccupiedCells(init) + {last};
        assert last !in OccupiedCells(init);
      } else {
        assert OccupiedCells(density) == OccupiedCells(init);
      }
    }
  }

  /** Occupancy of a non-empty grid is a number in [0, 1]. */
  lemma OccupancyInUnitInterval(density: seq<u32>)
    requires |density| > 0
    ensures OccupancyOf(density).Finite?
    ensures 0.0 <= OccupancyOf(density).value <= 1.0
  {
    var n := CountOccupied(density) as real;
    var m := |density| as real;
    assert n <= m;
    assert n / m <= m / m;
  }

  /** An all-zero grid has occupancy 0 (NaN when it has no cells). */
  lemma {:induction false} ClearedGridUnoccupied(density: seq<u32>)
    requires forall i :: 0 <= i < |density| ==> density[i] == 0
    ensures CountOccupied(density) == 0
    ensures OccupancyOf(density) == if |density| == 0 then NaN else Finite(0.0)
  {
    if |density| > 0 {
      ClearedGridUnoccupied(density[..|density| - 1]);
    }
  }

  /** A grid passes the chaos test exactly when it is empty or at least 1% occupied. */
  lemma ChaoticMeansOccupied(s: State)
    ensures Chaotic(s) <==>
      (|s.density| == 0 || OccupancyOf(s.density).value >= ChaosThreshold)
  {
    if |s.density| > 0 {
      OccupancyInUnitInterval(s.density);
    }
  }

  class Attractor {
    var kind: AttractorType
    var parameters: array<real>
    var numParameters: nat
    var width: nat
    var height: nat
    var density: array<u32>
    var functions: Functions

    ghost predicate Valid()
      reads this
    {
      && density.Length == width * height
      && numParameters == SettingsOf(kind).numParameters
      && parameters.Length == numParameters
    }

    /** The current parameters and density map. */
    function Snapshot(): State
      reads this, parameters, density
    {
      State(parameters[..], density[..])
    }

    /** The state `reset_attractor` produces: defaults and an all-zero grid. */
    function ResetState(): State
      reads this
    {
      State(SettingsOf(kind).defaultParameters, seq(width * height, _ => 0))
    }

    /**
      The outcome of chaos-search attempt `draw`: reset, randomize with that
      draw, then the burn-in iterations through the dispatcher.
     */
    function AttemptOutcome(randomize: CountedHook, iterate: CountedHook, draw: nat): State
      reads this
    {
      var randomized := randomize(ResetState(), draw);
      if functions.iterate then iterate(randomized, BurnIn) else randomized
    }

    /** None of the first `count` attempts of the chaos search passes its exit test. */
    ghost predicate NoneChaotic(randomize: CountedHook, iterate: CountedHook, count: nat)
      reads this
    {
      forall k :: 0 <= k < count ==> !Chaotic(AttemptOutcome(randomize, iterate, k))
    }

    constructor Make(kind: AttractorType, width: nat, height: nat)
      ensures Valid() && fresh(parameters) && fresh(density)
      ensures this.kind == kind && this.width == width && this.height == height
      ensures numParameters == SettingsOf(kind).numParameters
      ensures functions == SettingsOf(kind).functions
      ensures parameters[..] == SettingsOf(kind).defaultParameters
      ensures forall i :: 0 <= i < density.Length ==> density[i] == 0
    {
      this.kind := kind;
      this.width := width;
      this.height := height;
      numParameters := SettingsOf(kind).numParameters;
      functions := SettingsOf(kind).functions;
      density := new u32[width * height];
      parameters := new real[SettingsOf(kind).numParameters];
      new;
      Reset();
    }

    /** Zero every counter; the parameters stay as they are. */
    method Clean()
      requires Valid()
      modifies density
      ensures Valid()
      ensures forall i :: 0 <= i < density.Length ==> density[i] == 0
      ensures parameters[..] == old(parameters[..])
    {
      forall i | 0 <= i < density.Length {
        density[i] := 0;
      }
    }

    /** Clean the grid and copy the variant's default parameters back in. */
    method Reset()
      requires Valid()
      modifies density, parameters
      ensures Valid()
      ensures Snapshot() == ResetState()
    {
      Clean();
      var defaults := SettingsOf(kind).defaultParameters;
      forall i | 0 <= i < numParameters {
        parameters[i] := defaults[i];
      }
      assert parameters[..] == defaults;
      assert density[..] == seq(width * height, _ => 0);
    }

    /** Overwrite parameters and density map with a hook's result. */
    method Store(s: State)
      requires Valid() && SameShape(s, Snapshot())
      modifies density, parameters
      ensures Valid()
      ensures Snapshot() == s
    {
      forall i | 0 <= i < parameters.Length {
        parameters[i] := s.parameters[i];
      }
      forall i | 0 <= i < density.Length {
        density[i] := s.density[i];
      }
      assert parameters[..] == s.parameters;
      assert density[..] == s.density;
    }

    /** Fraction of cells whose counter is non-zero. */
    method GetOccupancy() returns (r: Float)
      requires Valid()
      ensures r == OccupancyOf(density[..])
    {
      var occupied := 0;
      var i := 0;
      while i < width * height
        invariant 0 <= i <= width * height
        invariant occupied == CountOccupied(density[..i])
      {
        assert density[..i + 1][..i] == density[..i];
        if density[i] > 0 {
          occupied := occupied + 1;
        }
        i := i + 1;
      }
      assert density[..i] == density[..];
      r := Divide(occupied as real, (width * height) as real);
    }

    /** Run the variant's iterate hook, or do nothing when it is null. */
    method Iterate(iterate: CountedHook, numIterations: nat)
      requires Valid()
      modifies density, parameters
      ensures Valid()
      ensures Snapshot() == if functions.iterate then iterate(old(Snapshot()), numIterations) else old(Snapshot())
    {
      if functions.iterate {
        Store(iterate(Snapshot(), numIterations));
      }
    }

    /** Run the variant's update hook, or do nothing when it is null. */
    method Update(update: Hook)
      requires Valid()
      modifies density, parameters
      ensures Valid()
      ensures Snapshot() == if functions.update then update(old(Snapshot())) else old(Snapshot())
    {
      if functions.update {
        Store(update(Snapshot()));
      }
    }

    /** Run the variant's initialize hook, or do nothing when it is null. */
    method Initialize(initialize: Hook)
      requires Valid()
      modifies density, parameters
      ensures Valid()
      ensures Snapshot() == if functions.initialize then initialize(old(Snapshot())) else old(Snapshot())
    {
      if functions.initialize {
        Store(initialize(Snapshot()));
      }
    }

    /**
      Reset, then call the variant's randomize hook. The call is not guarded,
      so the entry must be set.
     */
    method Randomize(randomize: CountedHook, draw: nat)
      requires Valid() && functions.randomize
      modifies density, parameters
      ensures Valid()
      ensures Snapshot() == randomize(ResetState(), draw)
    {
      Reset();
      Store(randomize(Snapshot(), draw));
    }

    /** One pass of the chaos search's do-while body, followed by its exit test. */
    method Attempt(randomize: CountedHook, iterate: CountedHook, draw: nat) returns (chaotic: bool)
      requires Valid() && functions.randomize
      modifies density, parameters
      ensures Valid()
      ensures Snapshot() == AttemptOutcome(randomize, iterate, draw)
      ensures chaotic == Chaotic(Snapshot())
    {
      Randomize(randomize, draw);
      Iterate(iterate, BurnIn);
      var occupancy := GetOccupancy();
      chaotic := !Less(occupancy, Finite(ChaosThreshold));
    }

    /**
      Use the variant's own chaos search when it has one; otherwise repeat
      randomize (with draw 0, 1, 2, ...) and a burn-in until the grid passes
      the chaos test. The source loop is unbounded; here it gives up after
      `maxAttempts` attempts and reports `settled == false`, a point at which
      the source would still be searching.
     */
    method RandomizeUntilChaotic(custom: Hook, randomize: CountedHook, iterate: CountedHook, maxAttempts: nat)
      returns (attempts: nat, settled: bool)
      requires Valid() && (functions.randomizeUntilChaotic || functions.randomize)
      modifies density, parameters
      ensures Valid()
      ensures functions.randomizeUntilChaotic ==> settled && attempts == 0 && Snapshot() == custom(old(Snapshot()))
      ensures !functions.randomizeUntilChaotic ==>
        && attempts <= maxAttempts
        && (settled ==> 0 < attempts && Snapshot() == AttemptOutcome(randomize, iterate, attempts - 1) && Chaotic(Snapshot()))
        && (!settled ==> attempts == maxAttempts)
        && NoneChaotic(randomize, iterate, if settled then attempts - 1 else attempts)
    {
      if functions.randomizeUntilChaotic {
        Store(custom(Snapshot()));
        return 0, true;
      }
      attempts, settled := 0, false;
      while !settled && attempts < maxAttempts
        invariant Valid()
        invariant attempts <= maxAttempts
        invariant settled ==> 0 < attempts && Snapshot() == AttemptOutcome(randomize, iterate, attempts - 1) && Chaotic(Snapshot())
        invariant NoneChaotic(randomize, iterate, if settled then attempts - 1 else attempts)
        decreases maxAttempts - attempts
      {
        settled := Attempt(randomize, iterate, attempts);
        attempts := attempts + 1;
      }
    }
  }
}
