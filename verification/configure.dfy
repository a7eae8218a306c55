/** The run-configuration generator: directory and file names, heating-event
    time arrays, the Monte-Carlo run count, the wait-time sweep and the
    job-array list. Directories and files are not created; the model
    computes the names and texts that would be written. */
module Configure {
  import opened Outcomes
  import opened Numerics
  import opened Sequences
  import opened ConfigDict

  /** The Python exceptions the generator can raise. */
  datatype PyError = KeyError(key: string) | TypeError | ValueError | OverflowError | ZeroDivisionError

  // ---------------------------------------------------------------------
  // Reading dictionary entries

  /** d[key]. */
  function Lookup(d: Dict, key: string): (r: Result<Value, PyError>)
    ensures r.Ok? <==> key in d.entries
    ensures r.Ok? ==> r.value == d.entries[key]
    ensures r.Err? ==> r.error == KeyError(key)
  {
    if key in d.entries then Ok(d.entries[key]) else Err(KeyError(key))
  }

  /** A dictionary value used in arithmetic with floats: ints and bools
      promote, text and lists raise TypeError. */
  function AsNumber(v: Value): Result<real, PyError> {
    match v
    case Single(Int(i)) => Ok(i as real)
    case Single(Real(r)) => Ok(r)
    case Single(Flag(b)) => Ok(if b then 1.0 else 0.0)
    case _ => Err(TypeError)
  }

  /** A dictionary value concatenated with text: only text is accepted. */
  function AsText(v: Value): Result<string, PyError> {
    match v
    case Single(Text(s)) => Ok(s)
    case _ => Err(TypeError)
  }

  /** str() of a scalar dictionary value. */
  function AsStr(v: Value, fmt: real -> string): Result<string, PyError> {
    match v
    case Single(x) => Ok(PyStr(x, fmt))
    case Many(_) => Err(TypeError)
  }

  function Abs(x: real): real { if x < 0.0 then -x else x }

  // ---------------------------------------------------------------------
  // Paths

  /** The run-name pattern self.fn: the text before and after its '%d'. */
  datatype NamePattern = NamePattern(head: string, tail: string)

  /** fn % tn: the wait time is written truncated toward zero. */
  function Fill(p: NamePattern, tn: real): string {
    p.head + DecimalString(Trunc(tn)) + p.tail
  }

  datatype Paths = Paths(dataPath: string, configPath: string, fn: NamePattern)

  /** The keys path_builder reads. */
  const PathKeys: set<string> := {"heat_species", "amp_switch", "alpha", "loop_length", "t_pulse_half", "solver"}

  /** The 'alpha...' directory: 'alphauniform/' for uniform amplitudes, or
      the magnitude of alpha. */
  function AlphaDir(d: Dict, fmt: real -> string): Result<string, PyError> {
    var amp :- Lookup(d, "amp_switch");
    if amp == Single(Text("uniform")) then Ok("alpha" + "uniform" + "/")
    else
      var alpha :- Lookup(d, "alpha");
      var a :- AsNumber(alpha);
      Ok("alpha" + fmt(Abs(a)) + "/")
  }

  /** path_builder: the data and config directories and the run-name
      pattern. A missing key raises KeyError, a value of the wrong kind
      TypeError. */
  function PathBuilder(d: Dict, root: string, fmt: real -> string): (r: Result<Paths, PyError>)
    ensures r.Err? ==> r.error == TypeError || (r.error.KeyError? && r.error.key in PathKeys && r.error.key !in d.entries)
  {
    var species :- Lookup(d, "heat_species");
    var speciesText :- AsText(species);
    var alphaDir :- AlphaDir(d, fmt);
    var genPath := speciesText + "_heating_runs/" + alphaDir;
    var length :- Lookup(d, "loop_length");
    var lengthText :- AsStr(length, fmt);
    var pulse :- Lookup(d, "t_pulse_half");
    var halfWidth :- AsNumber(pulse);
    var solver :- Lookup(d, "solver");
    var solverText :- AsText(solver);
    Ok(Paths(root + genPath + "data/", root + genPath + "config/",
             NamePattern("ebtel2fl_L" + lengthText + "_tn", "_tpulse" + fmt(2.0 * halfWidth) + "_" + solverText)))
  }

  /** The data and config directories share one stem,
      root + heat_species + '_heating_runs/alpha' + ('uniform' or |alpha|) + '/',
      and differ only in the suffix 'data/' or 'config/'. */
  lemma PathsShareStem(d: Dict, root: string, fmt: real -> string)
    requires PathBuilder(d, root, fmt).Ok?
    ensures "heat_species" in d.entries && AsText(d.entries["heat_species"]).Ok?
    ensures "amp_switch" in d.entries
    ensures d.entries["amp_switch"] != Single(Text("uniform")) ==>
      "alpha" in d.entries && AsNumber(d.entries["alpha"]).Ok?
    ensures
      var p := PathBuilder(d, root, fmt).value;
      var alpha := if d.entries["amp_switch"] == Single(Text("uniform")) then "uniform"
                   else fmt(Abs(AsNumber(d.entries["alpha"]).value));
      var stem := root + (AsText(d.entries["heat_species"]).value + "_heating_runs/" + ("alpha" + alpha + "/"));
      p.dataPath == stem + "data/" && p.configPath == stem + "config/"
  {
  }

  /** Two wait times get the same run name exactly when they agree once
      truncated to integers. */
  lemma RunNamesCollide(p: NamePattern, a: real, b: real)
    ensures Fill(p, a) == Fill(p, b) <==> Trunc(a) == Trunc(b)
  {
    if Fill(p, a) == Fill(p, b) {
      var da, db := DecimalString(Trunc(a)), DecimalString(Trunc(b));
      assert |da| == |db| by {
        assert |Fill(p, a)| == |p.head| + |da| + |p.tail|;
        assert |Fill(p, b)| == |p.head| + |db| + |p.tail|;
      }
      assert da == Fill(p, a)[|p.head|..|p.head| + |da|];
      assert db == Fill(p, b)[|p.head|..|p.head| + |db|];
      DecimalStringInjective(Trunc(a), Trunc(b));
    }
  }

  // ---------------------------------------------------------------------
  // Heating-event time arrays

  /** start[i] = i * period, for the n events. */
  function EventStarts(n: nat, period: real): seq<real> {
    seq(n, i => i as real * period)
  }

  /** end[i] = start[i] + width, for the n events. */
  function EventEnds(n: nat, period: real, width: real): seq<real> {
    seq(n, i => i as real * period + width)
  }

  /** Consecutive events start one period apart, each lasts the pulse
      width, and when the period is at least the width (a non-negative wait
      time) no event ends after the next one starts. */
  lemma EventTimesSpacing(n: nat, period: real, width: real)
    ensures |EventStarts(n, period)| == |EventEnds(n, period, width)| == n
    ensures n > 0 ==> EventStarts(n, period)[0] == 0.0
    ensures forall i :: 0 <= i < n ==> EventEnds(n, period, width)[i] - EventStarts(n, period)[i] == width
    ensures forall i :: 0 <= i < n - 1 ==> EventStarts(n, period)[i + 1] - EventStarts(n, period)[i] == period
    ensures period >= width ==> forall i :: 0 <= i < n - 1 ==> EventEnds(n, period, width)[i] <= EventStarts(n, period)[i + 1]
  {
    forall i | 0 <= i < n - 1
      ensures EventStarts(n, period)[i + 1] - EventStarts(n, period)[i] == period
    {
      assert (i + 1) as real * period == i as real * period + period;
    }
  }

  /** num_events = ceil(total_time / period) periods cover the total time,
      one fewer would not, and the last event starts before the end. */
  lemma EventsSpanTotalTime(total: real, period: real)
    requires period > 0.0 && total > 0.0
    ensures Ceil(total / period) >= 1
    ensures Ceil(total / period) as real * period >= total
    ensures (Ceil(total / period) - 1) as real * period < total
    ensures EventStarts(Ceil(total / period), period)[Ceil(total / period) - 1] < total
  {
    CeilQuotientLeast(total, period);
  }

  /** The effect of a call: the dictionary afterwards, and the exception
      raised, if any. */
  datatype Effect = Effect(dict: Dict, raised: Option<PyError>)

  /** The floats stored in a numpy array. */
  function Reals(xs: seq<real>): (r: seq<Scalar>)
    ensures |r| == |xs| && forall i :: 0 <= i < |xs| ==> r[i] == Real(xs[i])
  {
    seq(|xs|, i requires 0 <= i < |xs| => Real(xs[i]))
  }

  datatype Times = Times(total: real, width: real)

  /** total_time and the pulse width 2 * t_pulse_half, in the order Python
      evaluates total_time / (2.0 * t_pulse_half + ti): both entries are
      looked up, then t_pulse_half is doubled, then total_time divided. */
  function ReadTimes(d: Dict): Result<Times, PyError> {
    var total :- Lookup(d, "total_time");
    var pulse :- Lookup(d, "t_pulse_half");
    var h :- AsNumber(pulse);
    var t :- AsNumber(total);
    Ok(Times(t, 2.0 * h))
  }

  /** Which exception time_arrays raises first: a missing total_time, then a
      missing t_pulse_half, then a t_pulse_half that is not a number, then a
      total_time that is not a number. */
  lemma ReadTimesOrder(d: Dict)
    ensures "total_time" !in d.entries ==> ReadTimes(d) == Err(KeyError("total_time"))
    ensures "total_time" in d.entries && "t_pulse_half" !in d.entries ==> ReadTimes(d) == Err(KeyError("t_pulse_half"))
    ensures "total_time" in d.entries && "t_pulse_half" in d.entries ==>
      (ReadTimes(d).Ok? <==> AsNumber(d.entries["total_time"]).Ok? && AsNumber(d.entries["t_pulse_half"]).Ok?)
    ensures "total_time" in d.entries && "t_pulse_half" in d.entries && AsNumber(d.entries["t_pulse_half"]).Err? ==>
      ReadTimes(d) == Err(TypeError)
    ensures ReadTimes(d).Ok? ==>
      ReadTimes(d).value == Times(AsNumber(d.entries["total_time"]).value, 2.0 * AsNumber(d.entries["t_pulse_half"]).value)
  {
  }

  /** time_arrays(ti). The period 2 * t_pulse_half + ti is a numpy float,
      so a zero period gives an infinite (or, for a zero total, NaN) event
      count, which int() refuses. num_events is stored before np.empty
      refuses a negative count. */
  function TimeArraysEffect(d: Dict, ti: real): Effect {
    match ReadTimes(d)
    case Err(e) => Effect(d, Some(e))
    case Ok(Times(total, width)) => EventsEffect(d, total, width, width + ti)
  }

  /** time_arrays once total_time and the pulse width are read. */
  function EventsEffect(d: Dict, total: real, width: real, period: real): Effect {
    if period == 0.0 then Effect(d, Some(if total == 0.0 then ValueError else OverflowError))
    else
      var n := Ceil(total / period);
      var d1 := Set(d, "num_events", Single(Int(n)));
      if n < 0 then Effect(d1, Some(ValueError))
      else Effect(WithEvents(d1, n, period, width), None)
  }

  /** The start and end arrays of n events stored, in that order. */
  function WithEvents(d: Dict, n: nat, period: real, width: real): Dict {
    var d1 := Set(d, "start_time_array", Many(Reals(EventStarts(n, period))));
    Set(d1, "end_time_array", Many(Reals(EventEnds(n, period, width))))
  }

  lemma WithEventsWellFormed(d: Dict, n: nat, period: real, width: real)
    requires WellFormed(d)
    ensures WellFormed(WithEvents(d, n, period, width))
  {
    SetWellFormed(d, "start_time_array", Many(Reals(EventStarts(n, period))));
    var d1 := Set(d, "start_time_array", Many(Reals(EventStarts(n, period))));
    SetWellFormed(d1, "end_time_array", Many(Reals(EventEnds(n, period, width))));
  }

  /** The event arrays, filled one event at a time. */
  method FillEventTimes(n: nat, period: real, width: real) returns (starts: array<real>, ends: array<real>)
    ensures fresh(starts) && fresh(ends)
    ensures starts[..] == EventStarts(n, period) && ends[..] == EventEnds(n, period, width)
  {
    starts := new real[n];
    ends := new real[n];
    for i := 0 to n
      invariant starts != ends
      invariant forall k :: 0 <= k < i ==> starts[k] == EventStarts(n, period)[k]
      invariant forall k :: 0 <= k < i ==> ends[k] == EventEnds(n, period, width)[k]
    {
      starts[i] := i as real * period;
      assert starts[i] == EventStarts(n, period)[i];
      ends[i] := starts[i] + width;
      assert ends[i] == EventEnds(n, period, width)[i];
    }
  }

  // ---------------------------------------------------------------------
  // Monte-Carlo run count

  /** The mc keyword argument as __init__ stores it: a scalar, or None.
      Leaving mc out stores False. */
  datatype McArg = Given(value: Scalar) | PyNone

  const McAbsent: McArg := Given(Flag(false))

  /** self.mc is not False: only the False object itself turns the
      Monte-Carlo sweep off; 0 and None do not. */
  predicate MonteCarlo(mc: McArg) {
    mc != McAbsent
  }

  /** mc as the left operand of a division: numbers and bools divide, None
      and text raise TypeError. */
  function McNumber(mc: McArg): Result<real, PyError> {
    match mc
    case PyNone => Err(TypeError)
    case Given(x) => AsNumber(Single(x))
  }

  /** calc_nmc: ceil(mc / num_events), with Python's true division. */
  function CalcNmcOf(mc: McArg, d: Dict): Result<int, PyError> {
    var events :- Lookup(d, "num_events");
    var m :- McNumber(mc);
    var n :- AsNumber(events);
    if n == 0.0 then Err(ZeroDivisionError) else Ok(Ceil(m / n))
  }

  /** For num_events > 0, calc_nmc is the least run count whose runs hold
      at least mc events in total. */
  lemma CalcNmcIsLeast(mc: nat, d: Dict, events: nat)
    requires "num_events" in d.entries && d.entries["num_events"] == Single(Int(events)) && events > 0
    ensures CalcNmcOf(Given(Int(mc)), d).Ok?
    ensures CalcNmcOf(Given(Int(mc)), d).value >= 0
    ensures CalcNmcOf(Given(Int(mc)), d).value * events >= mc
    ensures (CalcNmcOf(Given(Int(mc)), d).value - 1) * events < mc
  {
    var n := CalcNmcOf(Given(Int(mc)), d).value;
    CeilQuotientLeast(mc as real, events as real);
    assert (n * events) as real == n as real * events as real;
    assert ((n - 1) * events) as real == (n - 1) as real * events as real;
  }

  // ---------------------------------------------------------------------
  // Job array

  /** The rows [t, j] for j = 0 .. n - 1 (none when n <= 0). */
  function Block(t: real, n: int): (r: seq<(real, int)>)
    ensures |r| == Max(n, 0)
  {
    seq(Max(n, 0), j => (t, j))
  }

  /** One block per wait time, with that wait time's run count. */
  function JobBlocks(tw: seq<real>, nmc: seq<int>): (r: seq<seq<(real, int)>>)
    requires |tw| <= |nmc|
    ensures |r| == |tw|
  {
    seq(|tw|, i requires 0 <= i < |tw| => Block(tw[i], nmc[i]))
  }

  /** The total number of runs of the first |counts| wait times. */
  function TotalRuns(counts: seq<int>): nat {
    if |counts| == 0 then 0 else TotalRuns(counts[..|counts| - 1]) + Max(counts[|counts| - 1], 0)
  }

  /** The flattened (wait time, run index) list of print_job_array_config.
      Any failure, an unset t_wait or a short nmc_list included, surfaces
      as ValueError. */
  function JobRows(tWait: Option<seq<real>>, nmc: seq<int>): Result<seq<(real, int)>, PyError> {
    if tWait.None? || |nmc| < |tWait.value| then Err(ValueError)
    else Ok(Flatten(JobBlocks(tWait.value, nmc)))
  }

  /** The name of the job-array file, under the config directory. */
  function JobArrayFile(d: Dict, configPath: string, fmt: real -> string): Result<string, PyError> {
    var length :- Lookup(d, "loop_length");
    var lengthText :- AsStr(length, fmt);
    var pulse :- Lookup(d, "t_pulse_half");
    var halfWidth :- AsNumber(pulse);
    var solver :- Lookup(d, "solver");
    var solverText :- AsText(solver);
    Ok(configPath + "ebtel2fl_L" + lengthText + "_tpulse" + fmt(2.0 * halfWidth) + "_" + solverText + "_job_array.conf")
  }

  datatype JobArray = JobArray(file: string, rows: seq<(real, int)>)

  /** print_job_array_config: the file and the rows it would hold. Any
      exception inside it is re-raised as ValueError. */
  function JobArrayOf(tWait: Option<seq<real>>, nmc: seq<int>, d: Dict, configPath: string, fmt: real -> string): (r: Result<JobArray, PyError>)
    ensures r.Err? ==> r.error == ValueError
    ensures r.Ok? <==> JobRows(tWait, nmc).Ok? && JobArrayFile(d, configPath, fmt).Ok?
  {
    match (JobRows(tWait, nmc), JobArrayFile(d, configPath, fmt))
    case (Ok(rows), Ok(file)) => Ok(JobArray(file, rows))
    case _ => Err(ValueError)
  }

  lemma JobBlocksPrefix(tw: seq<real>, nmc: seq<int>, i: nat)
    requires |tw| <= |nmc| && i <= |tw|
    ensures JobBlocks(tw, nmc)[..i] == JobBlocks(tw[..i], nmc)
  {
  }

  /** The job-array list has one row per run: its length is the sum of the
      run counts. */
  lemma {:induction false} JobRowsLength(tw: seq<real>, nmc: seq<int>)
    requires |tw| <= |nmc|
    ensures |Flatten(JobBlocks(tw, nmc))| == TotalRuns(nmc[..|tw|])
    decreases |tw|
  {
    if |tw| > 0 {
      var k := |tw| - 1;
      JobBlocksPrefix(tw, nmc, k);
      JobRowsLength(tw[..k], nmc);
      assert nmc[..|tw|][..k] == nmc[..k];
    }
  }

  /** Row TotalRuns(nmc[..i]) + j of the job-array list is [t_wait[i], j]:
      the rows come wait time by wait time, each with run indices 0, 1, ... */
  lemma {:induction false} JobRowAt(tw: seq<real>, nmc: seq<int>, i: nat, j: int)
    requires |tw| <= |nmc| && i < |tw| && 0 <= j < nmc[i]
    ensures
      var rows, at := Flatten(JobBlocks(tw, nmc)), TotalRuns(nmc[..i]) + j;
      at < |rows| && rows[at] == (tw[i], j)
    decreases |tw|
  {
    var blocks := JobBlocks(tw, nmc);
    var k := |tw| - 1;
    JobBlocksPrefix(tw, nmc, k);
    JobRowsLength(tw[..k], nmc);
    var front := Flatten(JobBlocks(tw[..k], nmc));
    assert Flatten(blocks) == front + Block(tw[k], nmc[k]);
    if i < k {
      JobRowAt(tw[..k], nmc, i, j);
    } else {
      assert nmc[..|tw[..k]|] == nmc[..i];
    }
  }

  // ---------------------------------------------------------------------
  // The wait-time sweep

  /** The config file and output file of one run. */
  datatype RunFiles = RunFiles(configFile: string, outputFile: string)

  /** Run j of wait time tn: fn % tn + '_' + j, under the config and the
      data directory. */
  function RunFilesFor(p: Paths, tn: real, j: int): RunFiles {
    var name := Fill(p.fn, tn);
    RunFiles(p.configPath + name + "/" + name + "_" + DecimalString(j) + ".xml",
             p.dataPath + name + "/" + name + "_" + DecimalString(j))
  }

  /** The runs of the job-array rows, row by row. */
  function RunsOfRows(p: Paths, rows: seq<(real, int)>): (r: seq<RunFiles>)
    ensures |r| == |rows|
  {
    seq(|rows|, k requires 0 <= k < |rows| => RunFilesFor(p, rows[k].0, rows[k].1))
  }

  /** The state vary_wait_time carries from one wait time to the next. */
  datatype Sweep = Sweep(dict: Dict, nmcList: seq<int>, runs: seq<RunFiles>, raised: Option<PyError>)

  /** Runs per wait time: calc_nmc() for a Monte-Carlo sweep, else 1. */
  function NumRuns(mc: McArg, d: Dict): Result<int, PyError> {
    if MonteCarlo(mc) then CalcNmcOf(mc, d) else Ok(1)
  }

  /** Once time_arrays has stored num_events, the run count of a wait time:
      1 unless mc is given as something other than False; TypeError for
      mc = None; otherwise calc_nmc's count, or ZeroDivisionError when no
      event fits. */
  lemma RunCountOfMc(d: Dict, tn: real, mc: McArg)
    requires TimeArraysEffect(d, tn).raised.None?
    ensures !MonteCarlo(mc) ==> ArrangeStep(d, tn, mc).count == Ok(1)
    ensures mc == PyNone ==> ArrangeStep(d, tn, mc).count == Err(TypeError)
    ensures MonteCarlo(mc) && McNumber(mc).Ok? ==>
      ArrangeStep(d, tn, mc).count.Ok? || ArrangeStep(d, tn, mc).count == Err(ZeroDivisionError)
  {
    var times := ReadTimes(d).value;
    var n := Ceil(times.total / (times.width + tn));
    assert n >= 0;
    assert TimeArraysEffect(d, tn).dict.entries["num_events"] == Single(Int(n));
  }

  /** What one wait time does before its runs are named: the dictionary
      after time_arrays, and the run count or the exception raised. */
  datatype Arranged = Arranged(dict: Dict, count: Result<int, PyError>)

  function ArrangeStep(d: Dict, tn: real, mc: McArg): Arranged {
    var e := TimeArraysEffect(d, tn);
    if e.raised.Some? then Arranged(e.dict, Err(e.raised.value))
    else Arranged(e.dict, NumRuns(mc, e.dict))
  }

  /** The dictionary after the runs were named: output_file holds the last
      run's output file. */
  function WithOutputFile(d: Dict, runs: seq<RunFiles>): Dict {
    if |runs| == 0 then d else Set(d, "output_file", Single(Text(runs[|runs| - 1].outputFile)))
  }

  /** Naming one more run overwrites output_file with its output file. */
  lemma WithOutputFileOneMore(d: Dict, runs: seq<RunFiles>, run: RunFiles)
    ensures WithOutputFile(d, runs + [run]) == Set(WithOutputFile(d, runs), "output_file", Single(Text(run.outputFile)))
  {
    if |runs| > 0 {
      SetTwice(d, "output_file", Single(Text(runs[|runs| - 1].outputFile)), Single(Text(run.outputFile)));
    }
  }

  /** One wait time of vary_wait_time: time arrays, the run count appended
      to nmc_list, then for each run the output_file entry and the names. */
  function SweepStep(s: Sweep, tn: real, mc: McArg, p: Paths): Sweep {
    var a := ArrangeStep(s.dict, tn, mc);
    match a.count
    case Err(err) => s.(dict := a.dict, raised := Some(err))
    case Ok(n) =>
      var runs := RunsOfRows(p, Block(tn, n));
      Sweep(WithOutputFile(a.dict, runs), s.nmcList + [n], s.runs + runs, None)
  }

  /** A step whose time arrays and run count succeed: the runs are named
      and the count appended. */
  lemma SweepStepOk(s: Sweep, tn: real, mc: McArg, p: Paths, d: Dict, n: int)
    requires ArrangeStep(s.dict, tn, mc) == Arranged(d, Ok(n))
    ensures
      var runs := RunsOfRows(p, Block(tn, n));
      SweepStep(s, tn, mc, p) == Sweep(WithOutputFile(d, runs), s.nmcList + [n], s.runs + runs, None)
  {
  }

  /** vary_wait_time over the wait times tws, stopping at the first
      exception. */
  function Sweeping(s0: Sweep, tws: seq<real>, mc: McArg, p: Paths): Sweep {
    if |tws| == 0 then s0
    else
      var s := Sweeping(s0, tws[..|tws| - 1], mc, p);
      if s.raised.Some? then s else SweepStep(s, tws[|tws| - 1], mc, p)
  }

  /** The runs already recorded do not affect a step. */
  lemma SweepStepKeepsRuns(s: Sweep, earlier: seq<RunFiles>, tn: real, mc: McArg, p: Paths)
    requires s.runs == []
    ensures
      var r := SweepStep(s, tn, mc, p);
      SweepStep(s.(runs := earlier), tn, mc, p) == r.(runs := earlier + r.runs)
  {
    var a := ArrangeStep(s.dict, tn, mc);
    match a.count
    case Err(_) =>
      assert earlier + [] == earlier;
    case Ok(n) =>
      var runs := RunsOfRows(p, Block(tn, n));
      assert [] + runs == runs;
  }

  /** A step that raises nothing appends one run count n, 1 when mc is not
      given, and the n runs of its wait time. */
  lemma SweepStepFacts(s: Sweep, tn: real, mc: McArg, p: Paths)
    ensures
      var r := SweepStep(s, tn, mc, p);
      r.raised.None? ==>
        && |r.nmcList| == |s.nmcList| + 1
        && r.nmcList == s.nmcList + [r.nmcList[|s.nmcList|]]
        && (!MonteCarlo(mc) ==> r.nmcList[|s.nmcList|] == 1)
        && r.runs == s.runs + RunsOfRows(p, Block(tn, r.nmcList[|s.nmcList|]))
  {
  }

  lemma RunsOfRowsAppend(p: Paths, rows: seq<(real, int)>, more: seq<(real, int)>)
    ensures RunsOfRows(p, rows + more) == RunsOfRows(p, rows) + RunsOfRows(p, more)
  {
    var all, front, back := RunsOfRows(p, rows + more), RunsOfRows(p, rows), RunsOfRows(p, more);
    forall k | 0 <= k < |all|
      ensures all[k] == (front + back)[k]
    {
      if k < |rows| {
        assert (rows + more)[k] == rows[k];
      } else {
        assert (rows + more)[k] == more[k - |rows|];
      }
    }
  }

  /** The runs of a wait time's first j + 1 rows: those of its first j,
      then run j. */
  lemma RunsOfBlockOneMore(p: Paths, tn: real, j: nat)
    ensures RunsOfRows(p, Block(tn, j + 1)) == RunsOfRows(p, Block(tn, j)) + [RunFilesFor(p, tn, j)]
  {
    assert Block(tn, j + 1) == Block(tn, j) + [(tn, j)];
    RunsOfRowsAppend(p, Block(tn, j), [(tn, j)]);
  }

  /** The runs of the job-array rows, extended by one more wait time's block. */
  lemma RunsOfJobRowsOneMore(p: Paths, tws: seq<real>, counts: seq<int>, n: int, earlier: seq<RunFiles>, runs: seq<RunFiles>)
    requires |tws| == |counts| + 1
    requires runs == earlier + RunsOfRows(p, Flatten(JobBlocks(tws[..|counts|], counts)))
    ensures runs + RunsOfRows(p, Block(tws[|counts|], n)) == earlier + RunsOfRows(p, Flatten(JobBlocks(tws, counts + [n])))
  {
    var k := |counts|;
    var before := Flatten(JobBlocks(tws[..k], counts));
    JobRowsSnoc(tws, counts + [n]);
    assert (counts + [n])[..k] == counts;
    RunsOfRowsAppend(p, before, Block(tws[k], n));
  }

  /** The job-array rows of all wait times are those of all but the last,
      then the last one's block. */
  lemma JobRowsSnoc(tws: seq<real>, counts: seq<int>)
    requires |tws| == |counts| > 0
    ensures
      var k := |tws| - 1;
      Flatten(JobBlocks(tws, counts)) == Flatten(JobBlocks(tws[..k], counts[..k])) + Block(tws[k], counts[k])
  {
    var k := |tws| - 1;
    var last := Block(tws[k], counts[k]);
    assert JobBlocks(tws, counts) == JobBlocks(tws[..k], counts[..k]) + [last];
    FlattenAppend(JobBlocks(tws[..k], counts[..k]), [last]);
    FlattenSingleton(last);
  }

  /** A sweep over wait times is the sweep over all but the last, then a step
      for the last unless an exception was raised. */
  lemma SweepingLast(s0: Sweep, tws: seq<real>, mc: McArg, p: Paths)
    requires |tws| > 0
    ensures
      var prev := Sweeping(s0, tws[..|tws| - 1], mc, p);
      Sweeping(s0, tws, mc, p) == if prev.raised.Some? then prev else SweepStep(prev, tws[|tws| - 1], mc, p)
  {
  }

  /** One more wait time after a sweep that raised nothing is one more step. */
  lemma SweepingOneMore(s0: Sweep, tws: seq<real>, i: nat, mc: McArg, p: Paths)
    requires i < |tws| && Sweeping(s0, tws[..i], mc, p).raised.None?
    ensures Sweeping(s0, tws[..i + 1], mc, p) == SweepStep(Sweeping(s0, tws[..i], mc, p), tws[i], mc, p)
  {
    assert tws[..i + 1][..i] == tws[..i];
  }

  /** Once an exception is raised the sweep goes no further. */
  lemma {:induction false} SweepingStops(s0: Sweep, tws: seq<real>, k: nat, mc: McArg, p: Paths)
    requires k <= |tws| && Sweeping(s0, tws[..k], mc, p).raised.Some?
    ensures Sweeping(s0, tws, mc, p) == Sweeping(s0, tws[..k], mc, p)
    decreases |tws| - k
  {
    if k < |tws| {
      assert tws[..k + 1][..k] == tws[..k];
      SweepingStops(s0, tws, k + 1, mc, p);
    } else {
      assert tws[..k] == tws;
    }
  }

  /** A sweep that raises nothing appends exactly one run count per wait
      time to nmc_list, 1 each when mc is not given. */
  lemma {:induction false} SweepCounts(s0: Sweep, tws: seq<real>, mc: McArg, p: Paths)
    requires s0.raised.None?
    ensures
      var s := Sweeping(s0, tws, mc, p);
      s.raised.None? ==>
        && |s.nmcList| == |s0.nmcList| + |tws|
        && s.nmcList[..|s0.nmcList|] == s0.nmcList
        && (!MonteCarlo(mc) ==> forall i :: |s0.nmcList| <= i < |s.nmcList| ==> s.nmcList[i] == 1)
  {
    var s := Sweeping(s0, tws, mc, p);
    if |tws| > 0 && s.raised.None? {
      var k := |tws| - 1;
      var prev := Sweeping(s0, tws[..k], mc, p);
      SweepingLast(s0, tws, mc, p);
      assert prev.raised.None? && s == SweepStep(prev, tws[k], mc, p);
      SweepCounts(s0, tws[..k], mc, p);
      SweepStepFacts(prev, tws[k], mc, p);
      var m, x := |s0.nmcList|, s.nmcList[|prev.nmcList|];
      TakeSnoc(prev.nmcList, x, m);
      assert forall i :: 0 <= i < |prev.nmcList| ==> s.nmcList[i] == prev.nmcList[i];
    }
  }

  /** The runs of a sweep that raises nothing are exactly those of the
      job-array rows built from the wait times and the new run counts, in
      the same order. */
  lemma {:induction false} SweepRuns(s0: Sweep, tws: seq<real>, mc: McArg, p: Paths)
    requires s0.raised.None?
    ensures
      var s := Sweeping(s0, tws, mc, p);
      s.raised.None? ==>
        && |s.nmcList| == |s0.nmcList| + |tws|
        && s.runs == s0.runs + RunsOfRows(p, Flatten(JobBlocks(tws, s.nmcList[|s0.nmcList|..])))
  {
    SweepCounts(s0, tws, mc, p);
    var s := Sweeping(s0, tws, mc, p);
    if |tws| > 0 && s.raised.None? {
      var k := |tws| - 1;
      var prev := Sweeping(s0, tws[..k], mc, p);
      SweepingLast(s0, tws, mc, p);
      SweepRuns(s0, tws[..k], mc, p);
      SweepStepFacts(prev, tws[k], mc, p);
      var m := |s0.nmcList|;
      var n := s.nmcList[|prev.nmcList|];
      DropSnoc(prev.nmcList, n, m);
      RunsOfJobRowsOneMore(p, tws, prev.nmcList[m..], n, s0.runs, prev.runs);
    }
  }

  /** On a fresh configurer, the job-array rows after a sweep that raised
      nothing name exactly the runs the sweep configured, in the same order,
      and there are as many as the run counts add up to. */
  lemma JobArrayListsEveryRun(d: Dict, tw: seq<real>, mc: McArg, p: Paths)
    ensures
      var s := Sweeping(Sweep(d, [], [], None), tw, mc, p);
      s.raised.None? ==>
        && JobRows(Some(tw), s.nmcList).Ok?
        && RunsOfRows(p, JobRows(Some(tw), s.nmcList).value) == s.runs
        && |s.runs| == TotalRuns(s.nmcList)
  {
    var s := Sweeping(Sweep(d, [], [], None), tw, mc, p);
    SweepRuns(Sweep(d, [], [], None), tw, mc, p);
    if s.raised.None? {
      assert s.nmcList[0..] == s.nmcList;
      JobRowsLength(tw, s.nmcList);
      assert s.nmcList[..|tw|] == s.nmcList;
    }
  }

  // ---------------------------------------------------------------------
  // Writing the XML text

  /** The item lines of a list entry, written item by item. */
  method WriteItems(key: string, xs: seq<Scalar>, fmt: real -> string) returns (lines: string)
    ensures lines == Flatten(ItemLines(key, xs, fmt))
  {
    ghost var ls := ItemLines(key, xs, fmt);
    lines := "";
    for i := 0 to |xs|
      invariant lines == Flatten(ls[..i])
    {
      var line := "\t\t<" + key + DecimalString(i) + ">" + PyStr(xs[i], fmt) + "</" + key + DecimalString(i) + ">\n";
      assert line == ls[i];
      lines := lines + line;
      FlattenTakeOneMore(ls, i);
    }
    assert ls[..|xs|] == ls;
  }

  /** The element of one entry: the opening tag, the scalar's text or a
      newline, the item lines and a tab, then the closing tag. */
  method WriteElement(key: string, v: Value, fmt: real -> string) returns (element: string)
    ensures element == Element(key, v, fmt)
  {
    var open := "\t<" + key + ">";
    var body: string;
    match v {
      case Many(xs) =>
        var lines := WriteItems(key, xs, fmt);
        body := "\n" + lines + "\t";
      case Single(x) =>
        body := PyStr(x, fmt);
    }
    element := open + body + "</" + key + ">\n";
  }

  // ---------------------------------------------------------------------
  // The configurer

  class Configurer {
    var configDictionary: Dict
    const rootDir: string
    const dataPath: string
    const configPath: string
    const fn: NamePattern
    /** Hn and delta_q, when given. */
    const hn: Option<real>
    const deltaQ: Option<real>
    /** The mc keyword argument: the Monte-Carlo event total, False when it
        is not given. */
    const mc: McArg
    var nmcList: seq<int>
    var tWait: Option<seq<real>>
    /** str() of a float. */
    const fmt: real -> string

    ghost predicate Valid()
      reads this
    {
      WellFormed(configDictionary)
    }

    function PathsOf(): Paths {
      Paths(dataPath, configPath, fn)
    }

    /** __init__: stores the dictionary and the root, builds the paths,
        starts with an empty nmc_list. */
    constructor (d: Dict, root: string, fmt: real -> string, hn: Option<real>, deltaQ: Option<real>, mc: McArg)
      requires WellFormed(d) && PathBuilder(d, root, fmt).Ok?
      ensures Valid()
      ensures configDictionary == d && rootDir == root && this.fmt == fmt
      ensures PathsOf() == PathBuilder(d, root, fmt).value
      ensures this.hn == hn && this.deltaQ == deltaQ && this.mc == mc
      ensures nmcList == [] && tWait == None
    {
      var paths := PathBuilder(d, root, fmt).value;
      configDictionary := d;
      rootDir := root;
      dataPath := paths.dataPath;
      configPath := paths.configPath;
      fn := paths.fn;
      this.hn := hn;
      this.deltaQ := deltaQ;
      this.mc := mc;
      nmcList := [];
      tWait := None;
      this.fmt := fmt;
    }

    /** __init__ as a whole: an exception path_builder raises propagates
        and no configurer is made; otherwise the configurer is built. */
    static method Init(d: Dict, root: string, fmt: real -> string, hn: Option<real>, deltaQ: Option<real>, mc: McArg)
      returns (r: Result<Configurer, PyError>)
      requires WellFormed(d)
      ensures r.Err? <==> PathBuilder(d, root, fmt).Err?
      ensures r.Err? ==> r.error == PathBuilder(d, root, fmt).error
      ensures r.Ok? ==> fresh(r.value) && r.value.Valid() && r.value.configDictionary == d
      ensures r.Ok? ==> r.value.PathsOf() == PathBuilder(d, root, fmt).value && r.value.mc == mc
      ensures r.Ok? ==> r.value.nmcList == [] && r.value.tWait == None
    {
      var paths := PathBuilder(d, root, fmt);
      if paths.Err? {
        return Err(paths.error);
      }
      var c := new Configurer(d, root, fmt, hn, deltaQ, mc);
      return Ok(c);
    }

    /** print_xml_config: the text written for the current dictionary, one
        write after another. */
    method PrintXmlConfig() returns (text: string)
      requires Valid()
      ensures text == XmlConfig(configDictionary, fmt)
    {
      var d := configDictionary;
      ghost var es := Elements(d, d.keys, fmt);
      text := XmlDeclaration;
      text := text + "<input>\n";
      var k := 0;
      while k < |d.keys|
        invariant k <= |d.keys|
        invariant text == XmlHeader + Flatten(es[..k])
      {
        var element := WriteElement(d.keys[k], d.entries[d.keys[k]], fmt);
        text := text + element;
        FlattenTakeOneMore(es, k);
        AppendAssoc(XmlHeader, Flatten(es[..k]), es[k]);
        k := k + 1;
      }
      TakeAll(es);
      text := text + XmlFooter;
    }

    /** time_arrays(ti): updates the dictionary as TimeArraysEffect says,
        filling the two arrays event by event. */
    method TimeArrays(ti: real) returns (raised: Option<PyError>)
      requires Valid()
      modifies this
      ensures Valid()
      ensures Effect(configDictionary, raised) == TimeArraysEffect(old(configDictionary), ti)
      ensures nmcList == old(nmcList) && tWait == old(tWait)
    {
      var times := ReadTimes(configDictionary);
      if times.Err? {
        return Some(times.error);
      }
      raised := CountEvents(times.value.total, times.value.width, times.value.width + ti);
    }

    /** time_arrays once total_time and the pulse width are read: stores
        num_events, then the two arrays. */
    method CountEvents(total: real, width: real, period: real) returns (raised: Option<PyError>)
      requires Valid()
      modifies this
      ensures Valid()
      ensures Effect(configDictionary, raised) == EventsEffect(old(configDictionary), total, width, period)
      ensures nmcList == old(nmcList) && tWait == old(tWait)
    {
      if period == 0.0 {
        return Some(if total == 0.0 then ValueError else OverflowError);
      }
      var n := Ceil(total / period);
      SetWellFormed(configDictionary, "num_events", Single(Int(n)));
      configDictionary := Set(configDictionary, "num_events", Single(Int(n)));
      if n < 0 {
        return Some(ValueError);
      }
      StoreEvents(n, period, width);
      return None;
    }

    /** The start and end arrays of n events, built and stored. */
    method StoreEvents(n: nat, period: real, width: real)
      requires Valid()
      modifies this
      ensures Valid()
      ensures configDictionary == WithEvents(old(configDictionary), n, period, width)
      ensures nmcList == old(nmcList) && tWait == old(tWait)
    {
      var starts, ends := FillEventTimes(n, period, width);
      WithEventsWellFormed(configDictionary, n, period, width);
      configDictionary := Set(configDictionary, "start_time_array", Many(Reals(starts[..])));
      configDictionary := Set(configDictionary, "end_time_array", Many(Reals(ends[..])));
    }

    /** calc_nmc(). */
    method CalcNmc() returns (r: Result<int, PyError>)
      ensures r == CalcNmcOf(mc, configDictionary)
    {
      var events := Lookup(configDictionary, "num_events");
      if events.Err? {
        return Err(events.error);
      }
      var total := McNumber(mc);
      if total.Err? {
        return Err(total.error);
      }
      var n := AsNumber(events.value);
      if n.Err? {
        return Err(n.error);
      }
      if n.value == 0.0 {
        return Err(ZeroDivisionError);
      }
      return Ok(Ceil(total.value / n.value));
    }

    /** print_job_array_config: the job-array file and its rows. */
    method PrintJobArrayConfig() returns (r: Result<JobArray, PyError>)
      ensures r == JobArrayOf(tWait, nmcList, configDictionary, configPath, fmt)
    {
      if tWait.None? {
        return Err(ValueError);
      }
      var tw := tWait.value;
      var topList: seq<seq<(real, int)>> := [];
      for i := 0 to |tw|
        invariant i <= |nmcList| && topList == JobBlocks(tw[..i], nmcList)
      {
        if i >= |nmcList| {
          return Err(ValueError);
        }
        var subList: seq<(real, int)> := [];
        var j := 0;
        while j < nmcList[i]
          invariant 0 <= j && (j <= nmcList[i] || j == 0)
          invariant subList == Block(tw[i], j)
        {
          subList := subList + [(tw[i], j)];
          j := j + 1;
        }
        assert subList == Block(tw[i], nmcList[i]);
        topList := topList + [subList];
        assert topList == JobBlocks(tw[..i + 1], nmcList);
      }
      var file := JobArrayFile(configDictionary, configPath, fmt);
      if file.Err? {
        return Err(ValueError);
      }
      assert tw[..|tw|] == tw;
      return Ok(JobArray(file.value, Flatten(topList)));
    }

    /** The first half of a pass of vary_wait_time's loop: time_arrays,
        then the run count, calc_nmc() for a Monte-Carlo sweep, else 1. */
    method ArrangeWaitTime(tn: real) returns (count: Result<int, PyError>)
      requires Valid()
      modifies this
      ensures Valid() && nmcList == old(nmcList) && tWait == old(tWait)
      ensures Arranged(configDictionary, count) == ArrangeStep(old(configDictionary), tn, mc)
    {
      var raised := TimeArrays(tn);
      if raised.Some? {
        return Err(raised.value);
      }
      if MonteCarlo(mc) {
        count := CalcNmc();
      } else {
        count := Ok(1);
      }
    }

    /** The runs of wait time tn, one after another: output_file is set to
        each run's output file in turn, and the run's names are recorded. */
    method NameRuns(tn: real, numRuns: int) returns (runs: seq<RunFiles>)
      requires Valid()
      modifies this
      ensures Valid() && nmcList == old(nmcList) && tWait == old(tWait)
      ensures runs == RunsOfRows(PathsOf(), Block(tn, numRuns))
      ensures configDictionary == WithOutputFile(old(configDictionary), runs)
    {
      ghost var d0 := configDictionary;
      runs := [];
      var j := 0;
      while j < numRuns
        invariant Valid() && nmcList == old(nmcList) && tWait == old(tWait)
        invariant 0 <= j && (j <= numRuns || j == 0)
        invariant runs == RunsOfRows(PathsOf(), Block(tn, j))
        invariant configDictionary == WithOutputFile(d0, runs)
      {
        var run := NameRun(tn, j);
        WithOutputFileOneMore(d0, runs, run);
        RunsOfBlockOneMore(PathsOf(), tn, j);
        runs := runs + [run];
        j := j + 1;
      }
    }

    /** Run j of wait time tn: output_file is set to its output file, and its
        names are returned. */
    method NameRun(tn: real, j: int) returns (run: RunFiles)
      requires Valid()
      modifies this
      ensures Valid() && nmcList == old(nmcList) && tWait == old(tWait)
      ensures run == RunFilesFor(PathsOf(), tn, j)
      ensures configDictionary == Set(old(configDictionary), "output_file", Single(Text(run.outputFile)))
    {
      var name := Fill(fn, tn);
      var outputFile := dataPath + name + "/" + name + "_" + DecimalString(j);
      SetWellFormed(configDictionary, "output_file", Single(Text(outputFile)));
      configDictionary := Set(configDictionary, "output_file", Single(Text(outputFile)));
      run := RunFiles(configPath + name + "/" + name + "_" + DecimalString(j) + ".xml", outputFile);
    }

    /** One pass of vary_wait_time's loop. */
    method ConfigureWaitTime(tn: real) returns (newRuns: seq<RunFiles>, raised: Option<PyError>)
      requires Valid()
      modifies this
      ensures Valid() && tWait == old(tWait)
      ensures SweepStep(Sweep(old(configDictionary), old(nmcList), [], None), tn, mc, PathsOf())
              == Sweep(configDictionary, nmcList, newRuns, raised)
    {
      ghost var s := Sweep(configDictionary, nmcList, [], None);
      var count := ArrangeWaitTime(tn);
      if count.Err? {
        return [], Some(count.error);
      }
      SweepStepOk(s, tn, mc, PathsOf(), configDictionary, count.value);
      nmcList := nmcList + [count.value];
      newRuns := NameRuns(tn, count.value);
      raised := None;
    }

    /** vary_wait_time over the given wait times: sets t_wait, then one
        pass per wait time. Returns the names of the runs configured and the
        exception raised, if any. */
    method VaryWaitTime(tw: seq<real>) returns (runs: seq<RunFiles>, raised: Option<PyError>)
      requires Valid()
      modifies this
      ensures Valid() && tWait == Some(tw)
      ensures Sweeping(Sweep(old(configDictionary), old(nmcList), [], None), tw, mc, PathsOf())
              == Sweep(configDictionary, nmcList, runs, raised)
    {
      ghost var s0 := Sweep(configDictionary, nmcList, [], None);
      tWait := Some(tw);
      runs := [];
      raised := None;
      var i := 0;
      while i < |tw|
        invariant i <= |tw| && Valid() && tWait == Some(tw) && raised == None
        invariant Sweeping(s0, tw[..i], mc, PathsOf()) == Sweep(configDictionary, nmcList, runs, None)
      {
        ghost var before := Sweep(configDictionary, nmcList, [], None);
        SweepingOneMore(s0, tw, i, mc, PathsOf());
        var newRuns;
        newRuns, raised := ConfigureWaitTime(tw[i]);
        SweepStepKeepsRuns(before, runs, tw[i], mc, PathsOf());
        runs := runs + newRuns;
        if raised.Some? {
          SweepingStops(s0, tw, i + 1, mc, PathsOf());
          return;
        }
        i := i + 1;
      }
      assert tw[..i] == tw;
    }
  }
}
