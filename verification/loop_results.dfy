/** The results bookkeeping of the loop evolver: seven parallel result
    vectors pre-sized from the estimated step count, filled row by row as the
    loop is evolved (overwritten while the estimate lasts, appended after),
    and trimmed of their unused tail before output. The physics that produces
    the values is a parameter. */
module LoopResults {
  import opened Numerics

  /** A loop state entry triple: electron pressure, ion pressure, density. */
  datatype Triple = Triple(pe: real, pi: real, n: real)

  function Vec(t: Triple): (r: seq<real>)
    ensures |r| == 3 && r[0] == t.pe && r[1] == t.pi && r[2] == t.n
  {
    [t.pe, t.pi, t.n]
  }

  /** The physics the bookkeeping is driven by, as function values:
      Heater::Get_Heating, the two temperatures SaveResults derives from the
      state, CalculateDerivs, RK4Solver, RKA4Solver (its small step and the
      step size it settles on) and the state CalculateInitialConditions
      finds. */
  datatype Physics = Physics(
    heating: real -> real,
    electronTemperature: seq<real> -> real,
    ionTemperature: seq<real> -> real,
    derivs: (seq<real>, real) -> Triple,
    rk4: (seq<real>, real, real) -> Triple,
    rka4: (seq<real>, real, real) -> (Triple, real),
    initial: Triple)

  /** Every step size the adaptive solver settles on is at least m. */
  ghost predicate StepsAtLeast(p: Physics, m: real) {
    forall s, t, h :: p.rka4(s, t, h).1 >= m
  }

  /** The adaptive solver returns a step size of the sign of the one it was
      given: each retry scales the old step by a positive factor, bounded
      below by old / 1.1, and the result is capped at 4 old. */
  ghost predicate StepKeepsSign(p: Physics) {
    forall s, t, h :: (h > 0.0 ==> p.rka4(s, t, h).1 > 0.0) && (h < 0.0 ==> p.rka4(s, t, h).1 < 0.0)
  }

  /** One row of the results: what SaveResults stores for a state at a time. */
  datatype Row = Row(time: real, heat: real, temperatureE: real, temperatureI: real,
                     pressureE: real, pressureI: real, density: real)

  function Observe(p: Physics, s: seq<real>, t: real): Row
    requires |s| == 3
  {
    Row(t, p.heating(t), p.electronTemperature(s), p.ionTemperature(s), s[0], s[1], s[2])
  }

  /** std::vector<double>(n): n zeros. */
  function Zeros(n: nat): (r: seq<real>)
    ensures |r| == n && forall k :: 0 <= k < n ==> r[k] == 0.0
  {
    seq(n, _ => 0.0)
  }

  /** One result vector after SaveResults(i, ..) stores x in it: appended
      when i has reached the estimate n, otherwise written at index i. */
  function Put(xs: seq<real>, i: nat, n: nat, x: real): seq<real>
    requires i >= n || i < |xs|
  {
    if i >= n then xs + [x] else xs[i := x]
  }

  /** Put changes one entry, or adds one at the end, and nothing else. */
  lemma PutFacts(xs: seq<real>, i: nat, n: nat, x: real)
    requires i >= n || i < |xs|
    ensures var r := Put(xs, i, n, x);
      && |r| == (if i >= n then |xs| + 1 else |xs|)
      && r[if i >= n then |xs| else i] == x
      && forall k :: 0 <= k < |xs| && (k != i || i >= n) ==> r[k] == xs[k]
  {
  }

  /** Saving at consecutive indices: when the vector holds max(n, i)
      entries, the value stored for index i lands at index i whichever branch
      is taken, the rows before it stay, and the vector then holds
      max(n, i + 1) entries. */
  lemma PutAtIndex(xs: seq<real>, i: nat, n: nat, x: real)
    requires |xs| == Max(n, i)
    ensures var r := Put(xs, i, n, x);
      && |r| == Max(n, i + 1) && r[i] == x
      && forall k :: 0 <= k < i ==> r[k] == xs[k]
  {
    PutFacts(xs, i, n, x);
  }

  /** The results structure: seven parallel vectors, one entry per row. */
  datatype Results = Results(time: seq<real>, heat: seq<real>,
                             pressureE: seq<real>, pressureI: seq<real>,
                             temperatureE: seq<real>, temperatureI: seq<real>,
                             density: seq<real>)

  /** The seven vectors have equal length. */
  predicate Aligned(r: Results) {
    && |r.heat| == |r.time| && |r.pressureE| == |r.time| && |r.pressureI| == |r.time|
    && |r.temperatureE| == |r.time| && |r.temperatureI| == |r.time| && |r.density| == |r.time|
  }

  /** Row k across the seven vectors. */
  function RowOf(r: Results, k: nat): Row
    requires Aligned(r) && k < |r.time|
  {
    Row(r.time[k], r.heat[k], r.temperatureE[k], r.temperatureI[k], r.pressureE[k], r.pressureI[k], r.density[k])
  }

  /** The structure after resize(n) of every (empty) vector. */
  function Sized(n: nat): (r: Results)
    ensures Aligned(r) && |r.time| == n
  {
    Results(Zeros(n), Zeros(n), Zeros(n), Zeros(n), Zeros(n), Zeros(n), Zeros(n))
  }

  /** The structure after SaveResults(i, ..) stored row w: w put into every
      vector. */
  function Saved(r: Results, i: nat, n: nat, w: Row): Results
    requires Aligned(r) && (i >= n || i < |r.time|)
  {
    Results(Put(r.time, i, n, w.time), Put(r.heat, i, n, w.heat),
            Put(r.pressureE, i, n, w.pressureE), Put(r.pressureI, i, n, w.pressureI),
            Put(r.temperatureE, i, n, w.temperatureE), Put(r.temperatureI, i, n, w.temperatureI),
            Put(r.density, i, n, w.density))
  }

  /** Saving keeps the vectors aligned and puts the whole row in one place:
      row i, or a new last row once i has reached n. Every other row stays. */
  lemma SavedRows(r: Results, i: nat, n: nat, w: Row)
    requires Aligned(r) && (i >= n || i < |r.time|)
    ensures var r' := Saved(r, i, n, w);
      && Aligned(r') && |r'.time| == (if i >= n then |r.time| + 1 else |r.time|)
      && RowOf(r', if i >= n then |r.time| else i) == w
      && forall k :: 0 <= k < |r.time| && (k != i || i >= n) ==> RowOf(r', k) == RowOf(r, k)
  {
    PutFacts(r.time, i, n, w.time);
    PutFacts(r.heat, i, n, w.heat);
    PutFacts(r.pressureE, i, n, w.pressureE);
    PutFacts(r.pressureI, i, n, w.pressureI);
    PutFacts(r.temperatureE, i, n, w.temperatureE);
    PutFacts(r.temperatureI, i, n, w.temperatureI);
    PutFacts(r.density, i, n, w.density);
  }

  /** The structure with the last m entries popped off every vector. */
  function Trimmed(r: Results, m: nat): Results
    requires Aligned(r) && m <= |r.time|
  {
    var len := |r.time| - m;
    Results(r.time[..len], r.heat[..len], r.pressureE[..len], r.pressureI[..len],
            r.temperatureE[..len], r.temperatureI[..len], r.density[..len])
  }

  /** Trimming keeps the vectors aligned and keeps the rows before the cut. */
  lemma TrimmedRows(r: Results, m: nat)
    requires Aligned(r) && m <= |r.time|
    ensures var r' := Trimmed(r, m);
      && Aligned(r') && |r'.time| == |r.time| - m
      && forall k :: 0 <= k < |r'.time| ==> RowOf(r', k) == RowOf(r, k)
  {
  }

  /** EulerSolver's new state: each entry moved along its derivative for
      one step h. */
  function EulerStep(s: seq<real>, d: seq<real>, h: real): (r: seq<real>)
    requires |d| == |s|
    ensures |r| == |s|
  {
    seq(|s|, k requires 0 <= k < |s| => s[k] + d[k] * h)
  }

  /** The state and step size after one pass of EvolveLoop's solver branch:
      the named solver's new state, the step size the adaptive solver
      returns, and for any other solver name the state as it was. */
  function Step(p: Physics, solver: string, s: seq<real>, t: real, h: real): (r: (seq<real>, real))
    ensures |s| == 3 ==> |r.0| == 3
  {
    if solver == "euler" then (if |s| == 3 then EulerStep(s, Vec(p.derivs(s, t)), h) else s, h)
    else if solver == "rk4" then (Vec(p.rk4(s, t, h)), h)
    else if solver == "rka4" then (Vec(p.rka4(s, t, h).0), p.rka4(s, t, h).1)
    else (s, h)
  }

  /** A step keeps the three state entries; only the adaptive solver
      changes the step size, and it never goes below the solver's bound. */
  lemma StepFacts(p: Physics, solver: string, s: seq<real>, t: real, h: real, m: real)
    requires |s| == 3
    ensures |Step(p, solver, s, t, h).0| == 3
    ensures solver != "rka4" ==> Step(p, solver, s, t, h).1 == h
    ensures solver == "rka4" && StepsAtLeast(p, m) ==> Step(p, solver, s, t, h).1 >= m
    ensures solver == "rka4" && StepKeepsSign(p) && h > 0.0 ==> Step(p, solver, s, t, h).1 > 0.0
  {
  }

  /** The state, the time and the step size after k passes of EvolveLoop's
      loop from the state s0, ignoring its stopping test: each pass steps the
      state at the current time, then adds the step size the solver returned
      to the time. The loop starts at time tau with step size tau. */
  function Run(p: Physics, solver: string, s0: seq<real>, tau: real, k: nat): (r: (seq<real>, real, real))
    ensures |s0| == 3 ==> |r.0| == 3
  {
    if k == 0 then (s0, tau, tau)
    else
      var prev := Run(p, solver, s0, tau, k - 1);
      var next := Step(p, solver, prev.0, prev.1, prev.2);
      (next.0, prev.1 + next.1, next.1)
  }

  /** The row pass k (k >= 1) saves: the state after k steps, at the time
      the pass started from. */
  function RowAfter(p: Physics, solver: string, s0: seq<real>, tau: real, k: nat): Row
    requires |s0| == 3 && k >= 1
  {
    Observe(p, Run(p, solver, s0, tau, k).0, Run(p, solver, s0, tau, k - 1).1)
  }

  /** Rows 1 .. i - 1 hold what passes 1 .. i - 1 saved. */
  ghost predicate RowsFollowRun(p: Physics, solver: string, s0: seq<real>, tau: real, r: Results, i: nat)
    requires |s0| == 3
  {
    Aligned(r) && i <= |r.time| && forall k :: 1 <= k < i ==> RowOf(r, k) == RowAfter(p, solver, s0, tau, k)
  }

  /** Row 0 and the rows from index i on are those of r0. */
  ghost predicate RowsKept(r: Results, r0: Results, i: nat) {
    && Aligned(r) && Aligned(r0)
    && |r0.time| <= |r.time|
    && forall k :: 0 <= k < |r0.time| && (k == 0 || i <= k) ==> RowOf(r, k) == RowOf(r0, k)
  }

  /** Saving the row of pass i at index i extends the rows that follow the
      run by one, and leaves row 0 and the later rows alone. */
  lemma SaveRow(p: Physics, solver: string, s0: seq<real>, tau: real, r: Results, r0: Results, i: nat, n: nat)
    requires |s0| == 3 && i >= 1 && |r.time| == Max(n, i)
    requires RowsFollowRun(p, solver, s0, tau, r, i) && RowsKept(r, r0, i)
    ensures var r' := Saved(r, i, n, RowAfter(p, solver, s0, tau, i));
      RowsFollowRun(p, solver, s0, tau, r', i + 1) && RowsKept(r', r0, i + 1)
  {
    SavedRows(r, i, n, RowAfter(p, solver, s0, tau, i));
  }

  /** With a fixed-step solver every pass keeps the step size tau, so pass
      k starts at time (k + 1) tau. */
  lemma {:induction false} FixedRunTimes(p: Physics, solver: string, s0: seq<real>, tau: real, k: nat)
    requires solver != "rka4"
    ensures Run(p, solver, s0, tau, k).1 == Multiple(k + 1, tau)
    ensures Run(p, solver, s0, tau, k).2 == tau
  {
    if k > 0 {
      FixedRunTimes(p, solver, s0, tau, k - 1);
    }
  }

  /** When every step size is at least m > 0, pass k goes on from a time of
      at least (k + 1) m: a fixed step size stays tau >= m, and each step of
      the adaptive solver adds at least m. */
  lemma {:induction false} RunTimesGrow(p: Physics, solver: string, s0: seq<real>, tau: real, m: real, k: nat)
    requires 0.0 < m <= tau
    requires solver == "rka4" ==> StepsAtLeast(p, m)
    ensures Run(p, solver, s0, tau, k).1 >= Multiple(k + 1, m)
    ensures Run(p, solver, s0, tau, k).2 >= m
  {
    if k > 0 {
      RunTimesGrow(p, solver, s0, tau, m, k - 1);
    }
  }

  /** Step sizes bounded below by some m > 0 make the run reach any total
      time, so EvolveLoop's loop ends. */
  lemma RunReaches(p: Physics, solver: string, s0: seq<real>, tau: real, m: real, total: real) returns (last: nat)
    requires 0.0 < m <= tau
    requires solver == "rka4" ==> StepsAtLeast(p, m)
    ensures Run(p, solver, s0, tau, last).1 >= total
  {
    last := StepBudget(total, m);
    RunTimesGrow(p, solver, s0, tau, m, last);
    assert Multiple(last + 1, m) == Multiple(last, m) + m;
  }

  /** With a negative tau every step size stays negative, so the time
      never rises above tau. */
  lemma {:induction false} NegativeRun(p: Physics, solver: string, s0: seq<real>, tau: real, k: nat)
    requires solver == "rka4" ==> StepKeepsSign(p)
    requires tau < 0.0
    ensures Run(p, solver, s0, tau, k).1 <= tau && Run(p, solver, s0, tau, k).2 < 0.0
  {
    if k > 0 {
      NegativeRun(p, solver, s0, tau, k - 1);
    }
  }

  /** A negative tau below the total, with a fixed step size or an adaptive
      solver that keeps the sign of the step: the time starts below the total
      and only decreases, so the loop's test time < total_time holds on
      every pass and the loop never ends. */
  lemma NegativeStepNeverEnds(p: Physics, solver: string, s0: seq<real>, tau: real, total: real, k: nat)
    requires solver == "rka4" ==> StepKeepsSign(p)
    requires tau < 0.0 && tau < total
    ensures Run(p, solver, s0, tau, k).1 < total
  {
    NegativeRun(p, solver, s0, tau, k);
  }

  /** After the trim, the vectors hold exactly the rows saved: max(n, i)
      entries less the max(n - i, 0) excess ones. */
  lemma TrimLeavesSavedRows(n: int, i: int)
    ensures Max(n, i) - Max(n - i, 0) == i
  {
  }

  /** Scaling by a positive factor keeps the order. */
  lemma ScaleCompare(x: real, y: real, tau: real)
    requires tau > 0.0
    ensures x <= y <==> x * tau <= y * tau
  {
    assert y * tau - x * tau == (y - x) * tau;
  }

  /** Comparing x * tau with the total compares x with total / tau. */
  lemma QuotientCompare(total: real, tau: real, x: real)
    requires tau > 0.0
    ensures x * tau >= total ==> total / tau <= x
    ensures x * tau < total ==> x < total / tau
  {
    var q := total / tau;
    assert q * tau == total;
    ScaleCompare(q, x, tau);
  }

  /** The ceiling of a number in (i - 1, i] is i. */
  lemma CeilBetween(q: real, i: int)
    requires (i - 1) as real < q <= i as real
    ensures Ceil(q) == i
  {
  }

  /** With a fixed step size the estimate is exact: the loop saves rows
      1 .. i - 1 at times k * tau below the total time and stops at the first
      i with i * tau >= total, which is ceil(total / tau), or 1 if that is 0. */
  lemma FixedStepRows(total: real, tau: real, i: int)
    requires tau > 0.0 && i >= 1
    requires (i as real) * tau >= total
    requires i == 1 || ((i - 1) as real) * tau < total
    ensures Max(Ceil(total / tau), 1) == i
  {
    QuotientCompare(total, tau, i as real);
    if i >= 2 {
      QuotientCompare(total, tau, (i - 1) as real);
      CeilBetween(total / tau, i);
    }
  }

  /** The time after i steps of size tau, accumulated as the loop adds
      them. */
  function Multiple(i: nat, tau: real): real {
    if i == 0 then 0.0 else Multiple(i - 1, tau) + tau
  }

  lemma {:induction false} MultipleIsProduct(i: nat, tau: real)
    ensures Multiple(i, tau) == (i as real) * tau
  {
    if i > 0 {
      MultipleIsProduct(i - 1, tau);
      assert (i as real) * tau == ((i - 1) as real) * tau + tau;
    }
  }

  /** FixedStepRows for times accumulated step by step. */
  lemma FixedStepCount(total: real, tau: real, i: nat)
    requires tau > 0.0 && i >= 1
    requires Multiple(i, tau) >= total
    requires i == 1 || Multiple(i - 1, tau) < total
    ensures Max(Ceil(total / tau), 1) == i
  {
    MultipleIsProduct(i, tau);
    MultipleIsProduct(i - 1, tau);
    FixedStepRows(total, tau, i);
  }

  /** The times of rows 1 .. i - 1 lie below the total and increase. */
  ghost predicate TimesSaved(ts: seq<real>, i: nat, total: real)
    requires i <= |ts|
  {
    && (forall k :: 1 <= k < i ==> ts[k] < total)
    && (forall k :: 1 <= k < i - 1 ==> ts[k] < ts[k + 1])
  }

  /** With a fixed step tau, rows 1 .. i - 1 were saved at tau, 2 tau, .. */
  ghost predicate FixedTimes(ts: seq<real>, i: nat, tau: real)
    requires i <= |ts|
  {
    && (i >= 2 ==> ts[1] == tau && ts[i - 1] == Multiple(i - 1, tau))
    && (forall k :: 1 <= k < i - 1 ==> ts[k + 1] == ts[k] + tau)
  }

  /** The heat of each of rows 0 .. i - 1 is the heating at its time. */
  ghost predicate HeatsSaved(p: Physics, ts: seq<real>, hs: seq<real>, i: nat)
    requires i <= |ts| && i <= |hs|
  {
    forall k :: 0 <= k < i ==> hs[k] == p.heating(ts[k])
  }

  /** Saving row i at a time t below the total, after the time of row i - 1,
      keeps the saved times below the total and increasing. */
  lemma SaveTime(ts: seq<real>, i: nat, n: nat, t: real, total: real)
    requires |ts| == Max(n, i) && i >= 1 && TimesSaved(ts, i, total)
    requires t < total && (i >= 2 ==> ts[i - 1] < t)
    ensures var r := Put(ts, i, n, t);
      && |r| == Max(n, i + 1) && r[0] == ts[0] && r[i] == t && TimesSaved(r, i + 1, total)
  {
    PutAtIndex(ts, i, n, t);
  }

  /** Saving row i at time i tau keeps the fixed-step times. */
  lemma SaveFixedTime(ts: seq<real>, i: nat, n: nat, tau: real)
    requires |ts| == Max(n, i) && i >= 1 && FixedTimes(ts, i, tau)
    ensures FixedTimes(Put(ts, i, n, Multiple(i, tau)), i + 1, tau)
  {
    PutAtIndex(ts, i, n, Multiple(i, tau));
    var r := Put(ts, i, n, Multiple(i, tau));
    assert Multiple(1, tau) == tau;
    if i >= 2 {
      assert r[i] == r[i - 1] + tau;
    }
  }

  /** Saving row i with the heating at its time keeps each row's heat. */
  lemma SaveHeat(p: Physics, ts: seq<real>, hs: seq<real>, i: nat, n: nat, t: real)
    requires |ts| == Max(n, i) && |hs| == Max(n, i) && HeatsSaved(p, ts, hs, i)
    ensures HeatsSaved(p, Put(ts, i, n, t), Put(hs, i, n, p.heating(t)), i + 1)
  {
    PutAtIndex(ts, i, n, t);
    PutAtIndex(hs, i, n, p.heating(t));
  }

  /** The loop's measure: a distance d is covered by some number of steps
      of at least m. */
  lemma StepBudget(d: real, m: real) returns (b: nat)
    requires m > 0.0
    ensures d <= Multiple(b, m)
  {
    if d <= 0.0 {
      b := 0;
    } else {
      CeilQuotientLeast(d, m);
      b := Ceil(d / m);
      MultipleIsProduct(b, m);
    }
  }

  class Loop {
    const totalTime: real
    /** parameters.tau, the initial step size. */
    const tau: real
    const solver: string
    const physics: Physics
    /** N, the estimated number of rows. */
    const n: nat
    /** __state: electron pressure, ion pressure, density. */
    var state: seq<real>
    var results: Results
    /** The number of trailing rows the estimate reserved and the loop did
        not use. */
    var excess: int
    /** The number of rows saved so far. */
    ghost var rowsSaved: nat

    ghost predicate Valid()
      reads this
    {
      Aligned(results)
    }

    /** The constructor's bookkeeping: N = ceil(total_time / tau), and each
        result vector resized from empty to N zeros. A zero tau makes the
        division infinite or NaN, and resize refuses a negative N. */
    constructor (totalTime: real, tau: real, solver: string, physics: Physics)
      requires tau != 0.0 && Ceil(totalTime / tau) >= 0
      ensures Valid()
      ensures this.totalTime == totalTime && this.tau == tau && this.solver == solver && this.physics == physics
      ensures n == Ceil(totalTime / tau) && results == Sized(n) && state == [] && rowsSaved == 0
    {
      this.totalTime := totalTime;
      this.tau := tau;
      this.solver := solver;
      this.physics := physics;
      var count := Ceil(totalTime / tau);
      n := count;
      state := [];
      results := Sized(count);
      rowsSaved := 0;
    }

    /** SaveResults(i, t): the row for the current state at time t, appended
        to every vector once i has reached N, else written at index i of
        every vector. */
    method SaveResults(i: nat, t: real)
      requires Valid() && |state| == 3 && (i >= n || i < |results.time|)
      modifies this
      ensures Valid() && state == old(state) && excess == old(excess) && rowsSaved == old(rowsSaved)
      ensures results == Saved(old(results), i, n, Observe(physics, state, t))
    {
      var heat := physics.heating(t);
      var temperatureE := physics.electronTemperature(state);
      var temperatureI := physics.ionTemperature(state);
      var r := results;
      if i >= n {
        r := r.(time := r.time + [t]);
        r := r.(heat := r.heat + [heat]);
        r := r.(temperatureE := r.temperatureE + [temperatureE]);
        r := r.(temperatureI := r.temperatureI + [temperatureI]);
        r := r.(pressureE := r.pressureE + [state[0]]);
        r := r.(pressureI := r.pressureI + [state[1]]);
        r := r.(density := r.density + [state[2]]);
      } else {
        r := r.(time := r.time[i := t]);
        r := r.(heat := r.heat[i := heat]);
        r := r.(temperatureE := r.temperatureE[i := temperatureE]);
        r := r.(temperatureI := r.temperatureI[i := temperatureI]);
        r := r.(pressureE := r.pressureE[i := state[0]]);
        r := r.(pressureI := r.pressureI[i := state[1]]);
        r := r.(density := r.density[i := state[2]]);
      }
      results := r;
    }

    /** CalculateInitialConditions' bookkeeping: the state is set to the
        three initial entries and saved as row 0 at time 0. */
    method InitialConditions()
      requires Valid() && (n == 0 || |results.time| > 0)
      modifies this
      ensures Valid() && state == Vec(physics.initial) && rowsSaved == 1 && excess == old(excess)
      ensures results == Saved(old(results), 0, n, Observe(physics, state, 0.0))
    {
      state := Vec(physics.initial);
      SaveResults(0, 0.0);
      rowsSaved := 1;
    }

    /** EulerSolver: each entry of the state moved along CalculateDerivs'
        derivative for a step tau, in a new vector of the state's size. */
    method EulerSolver(s: seq<real>, t: real, h: real) returns (next: seq<real>)
      requires |s| == 3
      ensures next == EulerStep(s, Vec(physics.derivs(s, t)), h)
    {
      var d := Vec(physics.derivs(s, t));
      var a := new real[|s|];
      ghost var spec := EulerStep(s, d, h);
      for k := 0 to |s|
        invariant forall j :: 0 <= j < k ==> a[j] == spec[j]
      {
        a[k] := s[k] + d[k] * h;
        assert a[k] == spec[k];
      }
      next := a[..];
    }

    /** RKA4Solver's result: the small step's state with the step size it
        settled on appended as a fourth entry. */
    method Rka4Solver(s: seq<real>, t: real, h: real) returns (r: seq<real>)
      ensures |r| == 4 && r[3] == physics.rka4(s, t, h).1
      ensures r[..3] == Vec(physics.rka4(s, t, h).0)
    {
      var result := physics.rka4(s, t, h);
      r := Vec(result.0);
      r := r + [result.1];
    }

    /** The solver branch of one pass of EvolveLoop. The adaptive solver's
        step size is taken off the end of its result, which is popped, so
        the state keeps its three entries. */
    method Advance(t: real, h: real) returns (next: real)
      requires |state| == 3
      modifies this
      ensures (state, next) == Step(physics, solver, old(state), t, h)
      ensures results == old(results) && excess == old(excess) && rowsSaved == old(rowsSaved)
    {
      next := h;
      if solver == "euler" {
        state := EulerSolver(state, t, h);
      } else if solver == "rk4" {
        state := Vec(physics.rk4(state, t, h));
      } else if solver == "rka4" {
        var tmp := Rka4Solver(state, t, h);
        next := tmp[|tmp| - 1];
        tmp := tmp[..|tmp| - 1];
        state := tmp;
      }
    }

    /** What holds before pass i of EvolveLoop's loop, which goes on from
        time t with step size h, starting from the state s0 and the results
        r0: rows 0 .. i - 1 are saved at increasing times below the total,
        each with the heating at its time; with a fixed step size at tau,
        2 tau, ..; row k >= 1 is the row of pass k of the run from s0; row 0
        and the unused rows are those of r0; the state, time and step size
        are those after i - 1 passes. */
    ghost predicate Evolving(i: nat, t: real, h: real, s0: seq<real>, r0: Results)
      reads this
    {
      && Valid() && |state| == 3 && |results.time| == Max(n, i) && i >= 1
      && HeatsSaved(physics, results.time, results.heat, i)
      && TimesSaved(results.time, i, totalTime) && (i >= 2 ==> results.time[i - 1] < t)
      && (solver != "rka4" ==> h == tau && t == Multiple(i, tau) && FixedTimes(results.time, i, tau))
      && |s0| == 3 && (state, t, h) == Run(physics, solver, s0, tau, i - 1)
      && RowsFollowRun(physics, solver, s0, tau, results, i) && RowsKept(results, r0, i)
    }

    /** One pass of EvolveLoop's loop: the solver step, then row i saved at
        time t. It keeps the loop's invariant for the next pass, which goes
        on from t plus the step size returned. */
    method Pass(i: nat, t: real, h: real, ghost s0: seq<real>, ghost r0: Results) returns (next: real)
      requires Evolving(i, t, h, s0, r0) && t < totalTime && h > 0.0
      requires solver == "rka4" ==> StepKeepsSign(physics)
      modifies this
      ensures Evolving(i + 1, t + next, next, s0, r0) && results.time[i] == t && next > 0.0
      ensures excess == old(excess) && rowsSaved == old(rowsSaved)
    {
      StepFacts(physics, solver, state, t, h, h);
      next := Advance(t, h);
      assert (state, t + next, next) == Run(physics, solver, s0, tau, i);
      assert Observe(physics, state, t) == RowAfter(physics, solver, s0, tau, i);
      ghost var r := results;
      SaveResults(i, t);
      SaveTime(r.time, i, n, t, totalTime);
      SaveHeat(physics, r.time, r.heat, i, n, t);
      SaveRow(physics, solver, s0, tau, r, r0, i, n);
      if solver != "rka4" {
        SaveFixedTime(r.time, i, n, tau);
      }
    }

    /** EvolveLoop's loop: passes 1, 2, .. while the time is below the
        total, on a run whose time reaches the total after some number of
        passes. Returns the number of rows then saved and the time and step
        size the loop stopped with, the first time at or past the total. */
    method Passes() returns (i: nat, t: real, h: real)
      requires Valid() && |state| == 3 && |results.time| == Max(n, 1)
      requires results.heat[0] == physics.heating(results.time[0])
      requires tau > 0.0 || totalTime <= tau
      requires solver == "rka4" ==> StepKeepsSign(physics)
      requires exists k: nat :: Run(physics, solver, state, tau, k).1 >= totalTime
      modifies this
      ensures Evolving(i, t, h, old(state), old(results)) && t >= totalTime
      ensures totalTime <= tau ==> i == 1
      ensures excess == old(excess) && rowsSaved == old(rowsSaved)
    {
      i := 1;
      t := tau;
      h := tau;
      ghost var s0, r0 := state, results;
      ghost var last: nat :| Run(physics, solver, s0, tau, last).1 >= totalTime;
      assert Multiple(1, tau) == tau;
      while t < totalTime
        invariant Evolving(i, t, h, s0, r0)
        invariant h > 0.0 || totalTime <= t
        invariant totalTime <= tau ==> i == 1
        invariant i - 1 <= last
        invariant excess == old(excess) && rowsSaved == old(rowsSaved)
        decreases last + 1 - i
      {
        h := Pass(i, t, h, s0, r0);
        t := t + h;
        i := i + 1;
      }
    }

    /** EvolveLoop's bookkeeping. Rows 1, 2, .. are saved at consecutive
        indices while the time is below the total, on a run whose time
        reaches the total after some number of passes (the source's loop
        ends exactly on those). Afterwards excess = max(N - i, 0) for the i
        rows saved, every vector holds max(N, i) entries, the saved times
        increase and lie below the total, and each saved row's heat is the
        heating at its time. With a fixed step size the rows are at times
        tau, 2 tau, .., and for a positive tau they are exactly max(N, 1);
        with a negative tau the body never runs. Row k >= 1 holds the state
        after k solver steps from the initial state, observed at the time
        pass k started from; the state left is the last one saved, the time
        it would go on from is at least the total, and row 0 and the unused
        rows keep their values. */
    method EvolveLoop()
      requires Valid() && |state| == 3 && |results.time| == Max(n, 1)
      requires results.heat[0] == physics.heating(results.time[0])
      requires tau != 0.0 && n == Ceil(totalTime / tau)
      requires solver == "rka4" ==> StepKeepsSign(physics)
      requires exists k: nat :: Run(physics, solver, state, tau, k).1 >= totalTime
      modifies this
      ensures Valid() && |state| == 3 && rowsSaved >= 1
      ensures |results.time| == Max(n, rowsSaved) && excess == Max(n - rowsSaved, 0)
      ensures results.time[0] == old(results.time[0])
      ensures HeatsSaved(physics, results.time, results.heat, rowsSaved)
      ensures TimesSaved(results.time, rowsSaved, totalTime)
      ensures solver != "rka4" && tau > 0.0 ==> rowsSaved == Max(n, 1) && excess == 0
      ensures tau < 0.0 ==> rowsSaved == 1 && excess == Max(n - 1, 0)
      ensures solver != "rka4" ==> FixedTimes(results.time, rowsSaved, tau)
      ensures state == Run(physics, solver, old(state), tau, rowsSaved - 1).0
      ensures Run(physics, solver, old(state), tau, rowsSaved - 1).1 >= totalTime
      ensures RowsFollowRun(physics, solver, old(state), tau, results, rowsSaved)
      ensures RowsKept(results, old(results), rowsSaved)
    {
      ghost var last: nat :| Run(physics, solver, state, tau, last).1 >= totalTime;
      if tau < 0.0 && tau < totalTime {
        NegativeStepNeverEnds(physics, solver, state, tau, totalTime, last);
        assert false;
      }
      ghost var r0 := results;
      var i, t, h := Passes();
      assert RowOf(results, 0) == RowOf(r0, 0);
      excess := n - i;
      if excess < 0 {
        excess := 0;
      }
      rowsSaved := i;
      if solver != "rka4" && tau > 0.0 {
        FixedStepCount(totalTime, tau, i);
      }
    }

    /** The trim at the start of PrintToFile: excess entries popped off the
        end of every vector. After EvolveLoop this leaves exactly the rows
        saved. */
    method PrintToFile()
      requires Valid() && 0 <= excess <= |results.time|
      modifies this
      ensures Valid() && excess == old(excess) && rowsSaved == old(rowsSaved) && state == old(state)
      ensures results == Trimmed(old(results), excess)
      ensures old(|results.time| == Max(n, rowsSaved) && excess == Max(n - rowsSaved, 0)) ==> |results.time| == rowsSaved
    {
      TrimLeavesSavedRows(n, rowsSaved);
      var r := results;
      for j := 0 to excess
        invariant Aligned(r) && |r.time| == |results.time| - j
        invariant r == Trimmed(results, j)
      {
        r := r.(time := r.time[..|r.time| - 1]);
        r := r.(temperatureE := r.temperatureE[..|r.temperatureE| - 1]);
        r := r.(temperatureI := r.temperatureI[..|r.temperatureI| - 1]);
        r := r.(density := r.density[..|r.density| - 1]);
        r := r.(pressureE := r.pressureE[..|r.pressureE| - 1]);
        r := r.(pressureI := r.pressureI[..|r.pressureI| - 1]);
        r := r.(heat := r.heat[..|r.heat| - 1]);
      }
      results := r;
    }
  }
}
