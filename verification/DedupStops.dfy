/** When deduplicate_model evaluates the model, what accuracy each row records, when the loop stops and how
    many rows are kept: all in terms of what is found for the blocks, not of the loop's counters. */
module DedupStops {
  import opened Commons
  import opened WeightBlocks
  import opened BlockOrder
  import opened BlockIndex
  import opened DedupModel
  import opened DedupTheorems

  // ---------- what happens to the first n blocks ----------

  /** What is found for block number `k` of the order. */
  function FoundFor(job: Job, s0: Storage, blocks: seq<Grid>, k: nat): Found
    requires Ready(job, s0, blocks) && k < |job.order|
  {
    assert job.order[k] in job.order;
    Search(job, s0, blocks, job.order[k])
  }

  /** How many of the first `n` blocks are replaced. */
  function Replaced(job: Job, s0: Storage, blocks: seq<Grid>, n: nat): nat
    requires Ready(job, s0, blocks) && n <= |job.order|
  {
    if n == 0 then 0
    else Replaced(job, s0, blocks, n - 1) + if FoundFor(job, s0, blocks, n - 1).best.b2.Some? then 1 else 0
  }

  /** How many of these count as updated. */
  function Updated(job: Job, s0: Storage, blocks: seq<Grid>, n: nat): nat
    requires Ready(job, s0, blocks) && n <= |job.order|
  {
    if n == 0 then 0
    else
      var f := FoundFor(job, s0, blocks, n - 1);
      Updated(job, s0, blocks, n - 1) + if f.best.b2.Some? && f.updated then 1 else 0
  }

  /** How often the model is evaluated while the first `n` blocks are visited: after every replacement if
      the evaluation step is 1, and otherwise after every evalStep - 1 updates, because an evaluation
      advances the step count itself. */
  function Evaluations(job: Job, s0: Storage, blocks: seq<Grid>, n: nat): nat
    requires Ready(job, s0, blocks) && n <= |job.order|
  {
    if job.evalStep == 1 then Replaced(job, s0, blocks, n) else Times(job.evalStep - 1, Updated(job, s0, blocks, n))
  }

  /** How many times `d` goes into `u`. */
  function Times(d: nat, u: nat): nat
    requires d > 0
  {
    if u < d then 0 else 1 + Times(d, u - d)
  }

  /** The storage with the first `n` blocks replaced where something was found. */
  function StorageAfter(job: Job, s0: Storage, blocks: seq<Grid>, n: nat): (s: Storage)
    requires Ready(job, s0, blocks) && n <= |job.order|
    ensures Ready(job, s, blocks) && SameShape(s, s0)
  {
    if n == 0 then s0
    else
      var s, b2 := StorageAfter(job, s0, blocks, n - 1), FoundFor(job, s0, blocks, n - 1).best.b2;
      assert job.order[n - 1] in job.order;
      if b2.Some? then s.Set(job.order[n - 1], blocks[b2.value]) else s
  }

  function ModelAfter(job: Job, s0: Storage, model: seq<Weight>, blocks: seq<Grid>, n: nat): seq<Weight>
    requires Ready(job, s0, blocks) && n <= |job.order|
  {
    if Replaced(job, s0, blocks, n) == 0 then model else Reconstruction(StorageAfter(job, s0, blocks, n))
  }

  /** The accuracy last measured when `n` blocks have been visited; at first the original accuracy. */
  function AccuracyAfter(job: Job, s0: Storage, model: seq<Weight>, blocks: seq<Grid>, n: nat): real
    requires Ready(job, s0, blocks) && n <= |job.order|
  {
    if n == 0 then job.evaluate(0, model)
    else if Evaluations(job, s0, blocks, n) > Evaluations(job, s0, blocks, n - 1) then
      job.evaluate(Evaluations(job, s0, blocks, n), ModelAfter(job, s0, model, blocks, n))
    else AccuracyAfter(job, s0, model, blocks, n - 1)
  }

  /** `m` blocks had been visited when the last evaluation took place. */
  ghost predicate LastEvaluatedAt(job: Job, s0: Storage, blocks: seq<Grid>, n: nat, m: nat)
    requires Ready(job, s0, blocks) && n <= |job.order|
  {
    && m <= n && Evaluations(job, s0, blocks, m) == Evaluations(job, s0, blocks, n)
    && forall k :: 0 <= k < m ==> Evaluations(job, s0, blocks, k) < Evaluations(job, s0, blocks, n)
  }

  // ---------- the loop's variables ----------

  ghost predicate ModelAt(job: Job, s0: Storage, model: seq<Weight>, blocks: seq<Grid>, st: Sweep, n: nat)
    requires Ready(job, s0, blocks) && n <= |job.order|
  {
    st.storage == StorageAfter(job, s0, blocks, n) && st.model == ModelAfter(job, s0, model, blocks, n)
  }

  ghost predicate CountersAt(job: Job, s0: Storage, blocks: seq<Grid>, st: Sweep, n: nat)
    requires Ready(job, s0, blocks) && n <= |job.order|
  {
    && st.evals == 1 + Evaluations(job, s0, blocks, n)
    && (job.evalStep > 1 ==> st.step == 1 + Updated(job, s0, blocks, n) + Evaluations(job, s0, blocks, n))
    && LastEvaluatedAt(job, s0, blocks, n, st.lastEval)
  }

  ghost predicate AccuraciesAt(job: Job, s0: Storage, model: seq<Weight>, blocks: seq<Grid>, cols: Columns, n: nat)
    requires Ready(job, s0, blocks) && n <= |job.order|
  {
    && |cols.acc| == |cols.b1| == n
    && forall k :: 0 <= k < n ==> cols.acc[k] == Some(AccuracyAfter(job, s0, model, blocks, k + 1))
  }

  /** The loop's variables after `n` turns. */
  ghost predicate SweepAt(job: Job, s0: Storage, model: seq<Weight>, blocks: seq<Grid>, st: Sweep, n: nat)
    requires Ready(job, s0, blocks) && n <= |job.order|
  {
    && ModelAt(job, s0, model, blocks, st, n) && CountersAt(job, s0, blocks, st, n)
    && AccuraciesAt(job, s0, model, blocks, st.cols, n)
  }

  lemma Divides(q: nat, r: nat, d: nat)
    requires d > 0 && r < d
    ensures (q * d + r) / d == q && (q * d + r) % d == r
  {
    BlockContaining(q * d + r, d, q);
    assert (q + 1) * d == q * d + d;
  }

  lemma Regrouped(q: nat, r: int, e: nat)
    ensures q * (e - 1) + r + q == q * e + r
    ensures (q + 1) * (e - 1) == q * (e - 1) + (e - 1) && (q + 1) * e == q * e + e
  {
  }

  /** The number of evaluations in closed form. */
  lemma EvaluationsAre(job: Job, s0: Storage, blocks: seq<Grid>, n: nat)
    requires Ready(job, s0, blocks) && n <= |job.order|
    ensures Evaluations(job, s0, blocks, n)
         == if job.evalStep == 1 then Replaced(job, s0, blocks, n) else Updated(job, s0, blocks, n) / (job.evalStep - 1)
  {
    if job.evalStep > 1 {
      TimesIsQuotient(job.evalStep - 1, Updated(job, s0, blocks, n));
    }
  }

  /** `q` evaluations after every e - 1 updates, and `r` updates since. */
  lemma StepAt(q: nat, r: nat, e: nat)
    requires e > 1 && r < e - 1
    ensures var u := q * (e - 1) + r;
            && (1 + u + q) % e != 0
            && ((2 + u + q) % e == 0 <==> r == e - 2)
            && (u + 1) / (e - 1) == if r == e - 2 then q + 1 else q
  {
    Regrouped(q, r, e);
    Divides(q, 1 + r, e);
    if r == e - 2 {
      Divides(q + 1, 0, e);
      Divides(q + 1, 0, e - 1);
    } else {
      Divides(q, 2 + r, e);
      Divides(q, r + 1, e - 1);
    }
  }

  lemma {:induction false} TimesIsQuotient(d: nat, u: nat)
    requires d > 0
    ensures Times(d, u) == u / d
  {
    if u >= d {
      TimesIsQuotient(d, u - d);
      BlockContaining(u, d, Times(d, u));
      assert (Times(d, u) + 1) * d == Times(d, u) * d + d;
      BlockContaining(u - d, d, Times(d, u) - 1);
    }
  }

  /** Between evaluations the step count is no multiple of the evaluation step; it becomes one with the
      update that makes another evalStep - 1 of them. */
  lemma StepCount(u: nat, e: nat)
    requires e > 1
    ensures var q, after := Times(e - 1, u), Times(e - 1, u + 1);
            (1 + u + q) % e != 0 && after == if (2 + u + q) % e == 0 then q + 1 else q
  {
    var q, r := u / (e - 1), u % (e - 1);
    assert u == q * (e - 1) + r;
    TimesIsQuotient(e - 1, u);
    TimesIsQuotient(e - 1, u + 1);
    StepAt(q, r, e);
  }

  /** Whether a turn evaluates. */
  lemma EvaluatesOnTime(job: Job, s0: Storage, blocks: seq<Grid>, step: nat, n: nat)
    requires Ready(job, s0, blocks) && n < |job.order|
    requires job.evalStep > 1 ==> step == 1 + Updated(job, s0, blocks, n) + Evaluations(job, s0, blocks, n)
    ensures var f := FoundFor(job, s0, blocks, n);
            var has := f.best.b2.Some?;
            var next := if has && f.updated then step + 1 else step;
            var before, after := Evaluations(job, s0, blocks, n), Evaluations(job, s0, blocks, n + 1);
            && (has && next % job.evalStep == 0 ==> after == before + 1)
            && (!(has && next % job.evalStep == 0) ==> after == before)
  {
    if job.evalStep > 1 {
      StepCount(Updated(job, s0, blocks, n), job.evalStep);
    }
  }

  lemma EvaluationsGrow(job: Job, s0: Storage, blocks: seq<Grid>, n: nat)
    requires Ready(job, s0, blocks) && n < |job.order|
    ensures Evaluations(job, s0, blocks, n) <= Evaluations(job, s0, blocks, n + 1)
  {
    EvaluatesOnTime(job, s0, blocks, 1 + Updated(job, s0, blocks, n) + Evaluations(job, s0, blocks, n), n);
  }

  lemma {:induction false} EvaluationsAscend(job: Job, s0: Storage, blocks: seq<Grid>, k: nat, n: nat)
    requires Ready(job, s0, blocks) && k <= n <= |job.order|
    ensures Evaluations(job, s0, blocks, k) <= Evaluations(job, s0, blocks, n)
    decreases n - k
  {
    if k < n {
      EvaluationsAscend(job, s0, blocks, k, n - 1);
      EvaluationsGrow(job, s0, blocks, n - 1);
    }
  }

  lemma NextEvaluated(job: Job, s0: Storage, blocks: seq<Grid>, n: nat, m: nat)
    requires Ready(job, s0, blocks) && n < |job.order| && LastEvaluatedAt(job, s0, blocks, n, m)
    ensures var evaluated := Evaluations(job, s0, blocks, n + 1) > Evaluations(job, s0, blocks, n);
            LastEvaluatedAt(job, s0, blocks, n + 1, if evaluated then n + 1 else m)
  {
    EvaluationsGrow(job, s0, blocks, n);
    forall k: nat | k <= n ensures Evaluations(job, s0, blocks, k) <= Evaluations(job, s0, blocks, n) {
      EvaluationsAscend(job, s0, blocks, k, n);
    }
  }

  /** What one turn does, with the counters' arithmetic out of the way. */
  ghost predicate IsTurn(job: Job, s0: Storage, blocks: seq<Grid>, original: real, st: Sweep, next: Sweep, n: nat)
    requires Ready(job, s0, blocks) && n < |job.order|
  {
    var evaluated := Evaluations(job, s0, blocks, n + 1) > Evaluations(job, s0, blocks, n);
    && Evaluations(job, s0, blocks, n + 1) <= Evaluations(job, s0, blocks, n) + 1
    && next.evals == (if evaluated then st.evals + 1 else st.evals)
    && next.lastEval == (if evaluated then |st.cols.b1| + 1 else st.lastEval)
    && (job.evalStep > 1 ==>
          next.step - st.step == Updated(job, s0, blocks, n + 1) - Updated(job, s0, blocks, n)
                                 + next.evals - st.evals)
    && |next.cols.b1| == |st.cols.b1| + 1
    && next.cols.acc == st.cols.acc + [Some(if evaluated then job.evaluate(st.evals, next.model)
                                            else Latest(st.cols, original))]
  }

  /** What a turn over a block for which `f` is found does to the variables, given whether it evaluates. */
  predicate TurnBy(job: Job, original: real, st: Sweep, next: Sweep, f: Found, evaluated: bool) {
    && next.evals == (if evaluated then st.evals + 1 else st.evals)
    && next.lastEval == (if evaluated then |st.cols.b1| + 1 else st.lastEval)
    && next.step == StepFor(st, f) + (if evaluated then 1 else 0)
    && |next.cols.b1| == |st.cols.b1| + 1
    && next.cols.acc == st.cols.acc + [Some(if evaluated then job.evaluate(st.evals, next.model)
                                            else Latest(st.cols, original))]
  }

  function StepFor(st: Sweep, f: Found): nat {
    if f.best.b2.Some? && f.updated then st.step + 1 else st.step
  }

  lemma TurnIsTurn(job: Job, s0: Storage, blocks: seq<Grid>, original: real, st: Sweep, next: Sweep, n: nat,
                   evaluated: bool)
    requires Ready(job, s0, blocks) && n < |job.order| && CountersAt(job, s0, blocks, st, n)
    requires TurnBy(job, original, st, next, FoundFor(job, s0, blocks, n), evaluated)
    requires Evaluations(job, s0, blocks, n + 1) == Evaluations(job, s0, blocks, n) + if evaluated then 1 else 0
    ensures IsTurn(job, s0, blocks, original, st, next, n)
  {
  }

  /** Whether a turn evaluates the model. */
  predicate EvaluatesIn(job: Job, st: Sweep, f: Found)
    requires job.evalStep > 0
  {
    f.best.b2.Some? && StepFor(st, f) % job.evalStep == 0
  }

  lemma VisitTurns(job: Job, blocks: seq<Grid>, original: real, st: Sweep, c: Coord, f: Found)
    requires Ready(job, st.storage, blocks) && st.storage.Has(c) && f == Search(job, st.storage, blocks, c)
    ensures TurnBy(job, original, st, Visit(job, blocks, original, st, c), f, EvaluatesIn(job, st, f))
  {
  }

  lemma EvaluatedIn(job: Job, s0: Storage, blocks: seq<Grid>, st: Sweep, n: nat) returns (evaluated: bool)
    requires Ready(job, s0, blocks) && n < |job.order| && CountersAt(job, s0, blocks, st, n)
    ensures evaluated <==> EvaluatesIn(job, st, FoundFor(job, s0, blocks, n))
    ensures Evaluations(job, s0, blocks, n + 1) == Evaluations(job, s0, blocks, n) + if evaluated then 1 else 0
  {
    evaluated := EvaluatesIn(job, st, FoundFor(job, s0, blocks, n));
    EvaluatesOnTime(job, s0, blocks, st.step, n);
  }

  lemma NextIsTurn(job: Job, s0: Storage, blocks: seq<Grid>, original: real, st: Sweep, next: Sweep, n: nat)
    requires Ready(job, s0, blocks) && n < |job.order| && CountersAt(job, s0, blocks, st, n)
    requires TurnBy(job, original, st, next, FoundFor(job, s0, blocks, n),
                    EvaluatesIn(job, st, FoundFor(job, s0, blocks, n)))
    ensures IsTurn(job, s0, blocks, original, st, next, n)
  {
    var evaluated := EvaluatedIn(job, s0, blocks, st, n);
    TurnIsTurn(job, s0, blocks, original, st, next, n, evaluated);
  }

  lemma TurnCounts(job: Job, s0: Storage, blocks: seq<Grid>, original: real, st: Sweep, next: Sweep, n: nat)
    requires Ready(job, s0, blocks) && n < |job.order| && IsTurn(job, s0, blocks, original, st, next, n)
    requires CountersAt(job, s0, blocks, st, n) && |st.cols.b1| == n
    ensures CountersAt(job, s0, blocks, next, n + 1)
  {
    EvaluationsGrow(job, s0, blocks, n);
    NextEvaluated(job, s0, blocks, n, st.lastEval);
  }

  lemma LatestIs(job: Job, s0: Storage, model: seq<Weight>, blocks: seq<Grid>, cols: Columns, n: nat)
    requires Ready(job, s0, blocks) && n <= |job.order| && AccuraciesAt(job, s0, model, blocks, cols, n)
    ensures Latest(cols, job.evaluate(0, model)) == AccuracyAfter(job, s0, model, blocks, n)
  {
    if n > 0 {
      assert cols.acc[n - 1] == Some(AccuracyAfter(job, s0, model, blocks, n - 1 + 1));
    }
  }

  lemma NextAccuracy(job: Job, s0: Storage, model: seq<Weight>, blocks: seq<Grid>, n: nat)
    requires Ready(job, s0, blocks) && n < |job.order|
    ensures AccuracyAfter(job, s0, model, blocks, n + 1)
         == if Evaluations(job, s0, blocks, n + 1) > Evaluations(job, s0, blocks, n)
            then job.evaluate(Evaluations(job, s0, blocks, n + 1), ModelAfter(job, s0, model, blocks, n + 1))
            else AccuracyAfter(job, s0, model, blocks, n)
  {
  }

  lemma AccuracyAdded(job: Job, s0: Storage, model: seq<Weight>, blocks: seq<Grid>, cols: Columns, next: Columns,
                      n: nat)
    requires Ready(job, s0, blocks) && n < |job.order| && AccuraciesAt(job, s0, model, blocks, cols, n)
    requires next.acc == cols.acc + [Some(AccuracyAfter(job, s0, model, blocks, n + 1))] && |next.b1| == n + 1
    ensures AccuraciesAt(job, s0, model, blocks, next, n + 1)
  {
  }

  lemma TurnMeasures(job: Job, s0: Storage, model: seq<Weight>, blocks: seq<Grid>, st: Sweep, next: Sweep, n: nat)
    requires Ready(job, s0, blocks) && n < |job.order|
    requires IsTurn(job, s0, blocks, job.evaluate(0, model), st, next, n)
    requires st.evals == 1 + Evaluations(job, s0, blocks, n)
    requires next.model == ModelAfter(job, s0, model, blocks, n + 1)
    requires AccuraciesAt(job, s0, model, blocks, st.cols, n)
    ensures AccuraciesAt(job, s0, model, blocks, next.cols, n + 1)
  {
    LatestIs(job, s0, model, blocks, st.cols, n);
    NextAccuracy(job, s0, model, blocks, n);
    AccuracyAdded(job, s0, model, blocks, st.cols, next.cols, n);
  }

  lemma VisitModel(job: Job, s0: Storage, model: seq<Weight>, blocks: seq<Grid>, original: real, st: Sweep, n: nat)
    requires Ready(job, s0, blocks) && n < |job.order| && ModelAt(job, s0, model, blocks, st, n)
    requires Ready(job, st.storage, blocks) && st.storage.Has(job.order[n])
    requires Search(job, st.storage, blocks, job.order[n]) == FoundFor(job, s0, blocks, n)
    ensures ModelAt(job, s0, model, blocks, Visit(job, blocks, original, st, job.order[n]), n + 1)
  {
  }

  /** One turn. */
  lemma VisitAt(job: Job, s0: Storage, model: seq<Weight>, blocks: seq<Grid>, st: Sweep, n: nat)
    requires Ready(job, s0, blocks) && n < |job.order| && SweepAt(job, s0, model, blocks, st, n)
    requires Ready(job, st.storage, blocks) && st.storage.Has(job.order[n])
    requires Search(job, st.storage, blocks, job.order[n]) == FoundFor(job, s0, blocks, n)
    ensures SweepAt(job, s0, model, blocks, Visit(job, blocks, job.evaluate(0, model), st, job.order[n]), n + 1)
  {
    var original := job.evaluate(0, model);
    var next := Visit(job, blocks, original, st, job.order[n]);
    EvaluationsGrow(job, s0, blocks, n);
    VisitModel(job, s0, model, blocks, original, st, n);
    VisitTurns(job, blocks, original, st, job.order[n], FoundFor(job, s0, blocks, n));
    NextIsTurn(job, s0, blocks, original, st, next, n);
    TurnCounts(job, s0, blocks, original, st, next, n);
    TurnMeasures(job, s0, model, blocks, st, next, n);
  }

  // ---------- the whole loop ----------

  /** After `n` turns: what is stored, what is recorded and the loop's variables. */
  ghost predicate RunAt(job: Job, s0: Storage, model: seq<Weight>, blocks: seq<Grid>, st: Sweep, n: nat)
    requires Ready(job, s0, blocks) && n <= |job.order|
  {
    && StoredUpTo(job, s0, blocks, st, n) && RecordedUpTo(job, s0, blocks, st, n)
    && SweepAt(job, s0, model, blocks, st, n)
  }

  lemma RunStep(job: Job, s0: Storage, model: seq<Weight>, blocks: seq<Grid>, st: Sweep, n: nat)
    requires Ready(job, s0, blocks) && Unique(job.order) && n < |job.order| && RunAt(job, s0, model, blocks, st, n)
    ensures Ready(job, st.storage, blocks) && st.storage.Has(job.order[n])
    ensures var next := Visit(job, blocks, job.evaluate(0, model), st, job.order[n]);
            && RunAt(job, s0, model, blocks, next, n + 1)
            && Latest(next.cols, job.evaluate(0, model)) == AccuracyAfter(job, s0, model, blocks, n + 1)
  {
    assert job.order[n] in job.order;
    var original := job.evaluate(0, model);
    VisitStores(job, s0, blocks, original, st, n);
    VisitRecords(job, s0, blocks, original, st, n);
    VisitAt(job, s0, model, blocks, st, n);
    LatestIs(job, s0, model, blocks, Visit(job, blocks, original, st, job.order[n]).cols, n + 1);
  }

  /** The loop's variables if the first `n` turns are taken. */
  ghost function StateAfter(job: Job, s0: Storage, model: seq<Weight>, blocks: seq<Grid>, n: nat): (st: Sweep)
    requires Ready(job, s0, blocks) && n <= |job.order|
    ensures Ready(job, st.storage, blocks) && SameShape(st.storage, s0)
  {
    if n == 0 then StartSweep(s0, model)
    else
      assert job.order[n - 1] in job.order;
      Visit(job, blocks, job.evaluate(0, model), StateAfter(job, s0, model, blocks, n - 1), job.order[n - 1])
  }

  lemma {:induction false} RunsTo(job: Job, s0: Storage, model: seq<Weight>, blocks: seq<Grid>, n: nat)
    requires Ready(job, s0, blocks) && Unique(job.order) && n <= |job.order|
    ensures RunAt(job, s0, model, blocks, StateAfter(job, s0, model, blocks, n), n)
  {
    if n > 0 {
      RunsTo(job, s0, model, blocks, n - 1);
      RunStep(job, s0, model, blocks, StateAfter(job, s0, model, blocks, n - 1), n - 1);
    }
  }

  lemma StateMeasures(job: Job, s0: Storage, model: seq<Weight>, blocks: seq<Grid>, n: nat)
    requires Ready(job, s0, blocks) && Unique(job.order) && n <= |job.order|
    ensures Latest(StateAfter(job, s0, model, blocks, n).cols, job.evaluate(0, model))
         == AccuracyAfter(job, s0, model, blocks, n)
  {
    RunsTo(job, s0, model, blocks, n);
    LatestIs(job, s0, model, blocks, StateAfter(job, s0, model, blocks, n).cols, n);
  }

  /** The accuracy recorded last is too low. */
  predicate DroppedIn(job: Job, model: seq<Weight>, cols: Columns) {
    Dropped(job, job.evaluate(0, model), Latest(cols, job.evaluate(0, model)))
  }

  ghost predicate GoesOn(job: Job, s0: Storage, model: seq<Weight>, blocks: seq<Grid>, k: nat)
    requires Ready(job, s0, blocks) && k <= |job.order|
  {
    !DroppedIn(job, model, StateAfter(job, s0, model, blocks, k).cols)
  }

  /** The loop's result from block number `n` on. */
  ghost function LoopFrom(job: Job, s0: Storage, model: seq<Weight>, blocks: seq<Grid>, n: nat): Sweep
    requires Ready(job, s0, blocks) && n <= |job.order|
  {
    SweepFrom(job, blocks, job.evaluate(0, model), StateAfter(job, s0, model, blocks, n), n)
  }

  lemma LoopTurns(job: Job, s0: Storage, model: seq<Weight>, blocks: seq<Grid>, n: nat)
    requires Ready(job, s0, blocks) && n < |job.order|
    ensures GoesOn(job, s0, model, blocks, n + 1) ==>
              LoopFrom(job, s0, model, blocks, n) == LoopFrom(job, s0, model, blocks, n + 1)
    ensures !GoesOn(job, s0, model, blocks, n + 1) ==>
              LoopFrom(job, s0, model, blocks, n) == StateAfter(job, s0, model, blocks, n + 1)
  {
    SweepStep(job, blocks, job.evaluate(0, model), StateAfter(job, s0, model, blocks, n), n);
  }

  /** From number `k` on a loop ends in the next state if it stops there, and else goes on from it. */
  predicate Turns<T(==)>(results: seq<T>, states: seq<T>, stop: seq<bool>, k: nat)
    requires |results| == |states| == |stop| > k + 1
  {
    if stop[k + 1] then results[k] == states[k + 1] else results[k] == results[k + 1]
  }

  /** Such a loop ends where it first stops, or in the last state. */
  lemma {:induction false} FirstStop<T>(results: seq<T>, states: seq<T>, stop: seq<bool>, n: nat) returns (v: nat)
    requires |results| == |states| == |stop| > n && results[|states| - 1] == states[|states| - 1]
    requires forall k :: 0 <= k < |states| - 1 ==> Turns(results, states, stop, k)
    ensures n <= v < |states| && results[n] == states[v]
    ensures forall k :: n < k < v ==> !stop[k]
    ensures v + 1 < |states| ==> n < v && stop[v]
    decreases |states| - n
  {
    v := n;
    if n + 1 < |states| {
      assert Turns(results, states, stop, n);
      v := n + 1;
      if !stop[n + 1] {
        v := FirstStop(results, states, stop, n + 1);
      }
    }
  }

  ghost predicate LoopAt(job: Job, s0: Storage, model: seq<Weight>, blocks: seq<Grid>, k: nat,
                         result: Sweep, state: Sweep, stop: bool)
    requires Ready(job, s0, blocks) && k <= |job.order|
  {
    && result == LoopFrom(job, s0, model, blocks, k) && state == StateAfter(job, s0, model, blocks, k)
    && stop == !GoesOn(job, s0, model, blocks, k)
  }

  ghost predicate LoopIs(job: Job, s0: Storage, model: seq<Weight>, blocks: seq<Grid>, results: seq<Sweep>,
                         states: seq<Sweep>, stop: seq<bool>)
    requires Ready(job, s0, blocks)
  {
    && |results| == |states| == |stop| == |job.order| + 1
    && forall k :: 0 <= k <= |job.order| ==> LoopAt(job, s0, model, blocks, k, results[k], states[k], stop[k])
  }

  lemma {:induction false} LoopStates(job: Job, s0: Storage, model: seq<Weight>, blocks: seq<Grid>, n: nat)
    returns (results: seq<Sweep>, states: seq<Sweep>, stop: seq<bool>)
    requires Ready(job, s0, blocks) && n <= |job.order|
    ensures |results| == |states| == |stop| == n + 1
    ensures forall k :: 0 <= k <= n ==> LoopAt(job, s0, model, blocks, k, results[k], states[k], stop[k])
  {
    results, states, stop := [], [], [];
    if n > 0 {
      results, states, stop := LoopStates(job, s0, model, blocks, n - 1);
    }
    var result, state := LoopFrom(job, s0, model, blocks, n), StateAfter(job, s0, model, blocks, n);
    var stops := !GoesOn(job, s0, model, blocks, n);
    assert LoopAt(job, s0, model, blocks, n, result, state, stops);
    results, states, stop := results + [result], states + [state], stop + [stops];
  }

  lemma LoopAtTurns(job: Job, s0: Storage, model: seq<Weight>, blocks: seq<Grid>, results: seq<Sweep>,
                    states: seq<Sweep>, stop: seq<bool>, k: nat)
    requires Ready(job, s0, blocks) && k < |job.order| && LoopIs(job, s0, model, blocks, results, states, stop)
    ensures Turns(results, states, stop, k)
  {
    assert LoopAt(job, s0, model, blocks, k, results[k], states[k], stop[k]);
    assert LoopAt(job, s0, model, blocks, k + 1, results[k + 1], states[k + 1], stop[k + 1]);
    LoopTurns(job, s0, model, blocks, k);
  }

  lemma LoopAtEnds(job: Job, s0: Storage, model: seq<Weight>, blocks: seq<Grid>, results: seq<Sweep>,
                   states: seq<Sweep>, stop: seq<bool>)
    requires Ready(job, s0, blocks) && LoopIs(job, s0, model, blocks, results, states, stop)
    ensures results[|job.order|] == states[|job.order|]
  {
    assert LoopAt(job, s0, model, blocks, |job.order|, results[|job.order|], states[|job.order|], stop[|job.order|]);
  }

  lemma LoopEnds(job: Job, s0: Storage, model: seq<Weight>, blocks: seq<Grid>)
    returns (visited: nat, results: seq<Sweep>, states: seq<Sweep>, stop: seq<bool>)
    requires Ready(job, s0, blocks)
    ensures LoopIs(job, s0, model, blocks, results, states, stop)
    ensures visited <= |job.order| && results[0] == states[visited]
    ensures forall k :: 0 < k < visited ==> !stop[k]
    ensures visited < |job.order| ==> 0 < visited && stop[visited]
  {
    results, states, stop := LoopStates(job, s0, model, blocks, |job.order|);
    LoopAtEnds(job, s0, model, blocks, results, states, stop);
    forall k | 0 <= k < |job.order| ensures Turns(results, states, stop, k) {
      LoopAtTurns(job, s0, model, blocks, results, states, stop, k);
    }
    visited := FirstStop(results, states, stop, 0);
  }

  /** What `stop` says of block number `k`. */
  lemma StopMeans(job: Job, s0: Storage, model: seq<Weight>, blocks: seq<Grid>, k: nat, result: Sweep, state: Sweep,
                  stop: bool)
    requires Ready(job, s0, blocks) && Unique(job.order) && k <= |job.order|
    requires LoopAt(job, s0, model, blocks, k, result, state, stop)
    ensures stop <==> job.evaluate(0, model) - AccuracyAfter(job, s0, model, blocks, k) > job.stopAccDrop
  {
    StateMeasures(job, s0, model, blocks, k);
  }

  /** The loop stops at the first visit after which the accuracy is too low, or at the end. */
  lemma SweepStops(job: Job, s0: Storage, model: seq<Weight>, blocks: seq<Grid>) returns (visited: nat)
    requires Ready(job, s0, blocks) && Unique(job.order)
    ensures visited <= |job.order| && LastSweep(job, s0, model, blocks) == StateAfter(job, s0, model, blocks, visited)
    ensures forall k :: 0 < k < visited ==>
              job.evaluate(0, model) - AccuracyAfter(job, s0, model, blocks, k) <= job.stopAccDrop
    ensures visited < |job.order| ==>
              && visited > 0
              && job.evaluate(0, model) - AccuracyAfter(job, s0, model, blocks, visited) > job.stopAccDrop
  {
    var results, states, stop;
    visited, results, states, stop := LoopEnds(job, s0, model, blocks);
    assert LoopAt(job, s0, model, blocks, 0, results[0], states[0], stop[0]);
    assert LoopAt(job, s0, model, blocks, visited, results[visited], states[visited], stop[visited]);
    StopMeans(job, s0, model, blocks, visited, results[visited], states[visited], stop[visited]);
    forall k: nat | 0 < k < visited
      ensures job.evaluate(0, model) - AccuracyAfter(job, s0, model, blocks, k) <= job.stopAccDrop
    {
      StopMeans(job, s0, model, blocks, k, results[k], states[k], stop[k]);
    }
  }

  /** The rows of the table that a run keeps: what was found, the accuracies measured (the last replaced by
      the final one if nothing is cut off), and blank rows for all other blocks. */
  ghost predicate Keeps(job: Job, s0: Storage, model: seq<Weight>, blocks: seq<Grid>, t: Columns, kept: nat,
                        final: Option<real>)
    requires Ready(job, s0, blocks) && kept <= |job.order|
  {
    && TableOf(job, s0, blocks, t, kept)
    && forall k :: 0 <= k < kept ==>
         t.acc[k] == if k == kept - 1 && final.Some? then final else Some(AccuracyAfter(job, s0, model, blocks, k + 1))
  }

  /** Filling in keeps these rows. */
  lemma KeptThroughFilling(job: Job, s0: Storage, model: seq<Weight>, blocks: seq<Grid>, settled: Columns, kept: nat,
                           final: Option<real>)
    requires Ready(job, s0, blocks) && ListsEachOnce(job.order, s0.counts) && kept <= |job.order|
    requires |settled.b1| == kept && Keeps(job, s0, model, blocks, settled, kept, final)
    ensures Keeps(job, s0, model, blocks, FillIn(settled, AllCoords(s0.counts)), kept, final)
  {
    assert settled.b1 == job.order[..kept];
    TableFilled(job, s0, blocks, settled, kept);
    FilledTable(job.order, s0.counts, settled, kept);
  }

  lemma SettledKeeps(job: Job, s0: Storage, model: seq<Weight>, blocks: seq<Grid>, st: Sweep, visited: nat)
    requires Ready(job, s0, blocks) && visited <= |job.order| && RecordedUpTo(job, s0, blocks, st, visited)
    requires AccuraciesAt(job, s0, model, blocks, st.cols, visited) && st.lastEval <= visited
    ensures var original, final := job.evaluate(0, model), job.evaluate(st.evals, st.model);
            var settled := Settle(job, original, st);
            if original - final > job.stopAccDrop then
              && settled.Some? && |settled.value.b1| == st.lastEval
              && Keeps(job, s0, model, blocks, settled.value, st.lastEval, None)
            else
              (visited > 0 ==>
                 && settled.Some? && |settled.value.b1| == visited
                 && Keeps(job, s0, model, blocks, settled.value, visited, Some(final)))
  {
    if Settle(job, job.evaluate(0, model), st).Some? {
      var kept := SettleKeepsRows(job, s0, blocks, job.evaluate(0, model), st, visited);
    }
  }

  /** What is kept when the loop has ended. */
  lemma RowsKept(job: Job, s0: Storage, model: seq<Weight>, blocks: seq<Grid>, st: Sweep, visited: nat)
    requires Ready(job, s0, blocks) && ListsEachOnce(job.order, s0.counts) && visited <= |job.order|
    requires RecordedUpTo(job, s0, blocks, st, visited) && st.lastEval <= visited && st.storage.counts == s0.counts
    requires AccuraciesAt(job, s0, model, blocks, st.cols, visited)
    ensures var original, final := job.evaluate(0, model), job.evaluate(st.evals, st.model);
            var table := Finish(job, original, st);
            if original - final > job.stopAccDrop then
              table.Some? && Keeps(job, s0, model, blocks, table.value, st.lastEval, None)
            else
              (visited > 0 ==> table.Some? && Keeps(job, s0, model, blocks, table.value, visited, Some(final)))
  {
    var original, final := job.evaluate(0, model), job.evaluate(st.evals, st.model);
    SettledKeeps(job, s0, model, blocks, st, visited);
    if original - final > job.stopAccDrop {
      KeptThroughFilling(job, s0, model, blocks, Settle(job, original, st).value, st.lastEval, None);
    } else if visited > 0 {
      KeptThroughFilling(job, s0, model, blocks, Settle(job, original, st).value, visited, Some(final));
    }
  }

  lemma StateFacts(job: Job, s0: Storage, model: seq<Weight>, blocks: seq<Grid>, n: nat)
    requires Ready(job, s0, blocks) && Unique(job.order) && n <= |job.order|
    ensures var st := StateAfter(job, s0, model, blocks, n);
            && RecordedUpTo(job, s0, blocks, st, n) && AccuraciesAt(job, s0, model, blocks, st.cols, n)
            && LastEvaluatedAt(job, s0, blocks, n, st.lastEval)
            && st.evals == 1 + Evaluations(job, s0, blocks, n) && st.model == ModelAfter(job, s0, model, blocks, n)
  {
    RunsTo(job, s0, model, blocks, n);
  }

  lemma LoopKeeps(job: Job, s0: Storage, model: seq<Weight>, blocks: seq<Grid>, visited: nat) returns (lastEval: nat)
    requires Ready(job, s0, blocks) && ListsEachOnce(job.order, s0.counts) && visited <= |job.order|
    ensures LastEvaluatedAt(job, s0, blocks, visited, lastEval)
    ensures var final := job.evaluate(1 + Evaluations(job, s0, blocks, visited),
                                      ModelAfter(job, s0, model, blocks, visited));
            var table := Finish(job, job.evaluate(0, model), StateAfter(job, s0, model, blocks, visited));
            if job.evaluate(0, model) - final > job.stopAccDrop then
              table.Some? && Keeps(job, s0, model, blocks, table.value, lastEval, None)
            else
              (visited > 0 ==> table.Some? && Keeps(job, s0, model, blocks, table.value, visited, Some(final)))
  {
    StateFacts(job, s0, model, blocks, visited);
    RowsKept(job, s0, model, blocks, StateAfter(job, s0, model, blocks, visited), visited);
    lastEval := StateAfter(job, s0, model, blocks, visited).lastEval;
  }

  /** The stop rule and the rows kept.  The blocks are visited until the accuracy last measured is below the
      original by more than stopAccDrop, and not a block further; all earlier accuracies were not.  If the
      accuracy at the end is within stopAccDrop, all rows stay and the last records it; if not, exactly the
      rows up to the last evaluation stay. */
  lemma StopRule(job: Job, s0: Storage, model: seq<Weight>, blocks: seq<Grid>) returns (visited: nat, lastEval: nat)
    requires Ready(job, s0, blocks) && ListsEachOnce(job.order, s0.counts)
    ensures visited <= |job.order| && (|job.order| > 0 ==> visited > 0)
    ensures forall k :: 0 < k < visited ==>
              job.evaluate(0, model) - AccuracyAfter(job, s0, model, blocks, k) <= job.stopAccDrop
    ensures visited < |job.order| ==>
              job.evaluate(0, model) - AccuracyAfter(job, s0, model, blocks, visited) > job.stopAccDrop
    ensures LastEvaluatedAt(job, s0, blocks, visited, lastEval)
    ensures var final := job.evaluate(1 + Evaluations(job, s0, blocks, visited),
                                      ModelAfter(job, s0, model, blocks, visited));
            var table := DedupTable(job, s0, model, blocks);
            if job.evaluate(0, model) - final > job.stopAccDrop then
              table.Some? && Keeps(job, s0, model, blocks, table.value, lastEval, None)
            else
              (visited > 0 ==> table.Some? && Keeps(job, s0, model, blocks, table.value, visited, Some(final)))
  {
    visited := SweepStops(job, s0, model, blocks);
    lastEval := LoopKeeps(job, s0, model, blocks, visited);
  }
}
