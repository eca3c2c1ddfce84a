/** Both ways of building a pipeline: from a path found in the plan, and from a list of tuple sets. */
module PipelineBuilder {
  import opened Commons
  import opened PlanGraph

  /** A run-time parameter for a computation. */
  type Param = string

  /** What is added to the pipeline for a computation: an executor over the previous output `from`, with
      the lambda of the computations that have one; `side` is which input of a join is pipelined and
      `other` the projection of the side that is not. */
  datatype Stage = Stage(kind: Kind, lambda: Option<(string, string)>, side: Side, from: TupleSpec, input: TupleSpec,
                         projection: TupleSpec, param: Option<Param>)

  datatype Side = NoJoin | LeftInput(comp: string, threadId: int, other: TupleSpec)
                | RightInput(comp: string, threadId: int, other: TupleSpec)

  /** A pipeline's stages, the null pointer, or the end of the process. */
  datatype Built = Pipeline(stages: seq<Stage>) | NullPipeline | Exits

  datatype Settings = Settings(params: map<string, Param>, threadId: int)

  function ParamFor(s: Settings, a: Computation): Option<Param> {
    if a.output.setName in s.params then Some(s.params[a.output.setName]) else None
  }

  /** The stage for `a` after `lastOne`; computations of another type only draw a message. */
  function StageFor(s: Settings, lastOne: Computation, a: Computation): Option<Stage> {
    match a.kind
    case Filter | HashOne | Flatten =>
      Some(Stage(a.kind, None, NoJoin, lastOne.output, a.input, a.projection, ParamFor(s, a)))
    case Apply | HashLeft | HashRight =>
      Some(Stage(a.kind, Some((a.name, a.lambda)), NoJoin, lastOne.output, a.input, a.projection, ParamFor(s, a)))
    case JoinSets =>
      if lastOne.output.setName == a.rightInput.setName then
        Some(Stage(JoinSets, None, RightInput(a.name, s.threadId, a.projection), lastOne.output, a.rightInput,
                   a.rightProjection, ParamFor(s, a)))
      else
        Some(Stage(JoinSets, None, LeftInput(a.name, s.threadId, a.rightProjection), lastOne.output, a.input,
                   a.projection, ParamFor(s, a)))
    case Scan | Aggregate | WriteSet | Partition => None
  }

  function Add(stages: seq<Stage>, stage: Option<Stage>): seq<Stage> {
    if stage.Some? then stages + [stage.value] else stages
  }

  function Previous(first: Computation, path: seq<Computation>, i: nat): Computation
    requires i <= |path|
  {
    if i == 0 then first else path[i - 1]
  }

  /** The stages of the first `n` computations. */
  function StagesOf(s: Settings, first: Computation, path: seq<Computation>, n: nat): seq<Stage>
    requires n <= |path|
  {
    if n == 0 then [] else Add(StagesOf(s, first, path, n - 1), StageFor(s, Previous(first, path, n - 1), path[n - 1]))
  }

  // ---------- stages and the path they come from ----------

  /** A stage runs on what the one before it puts out, reads it on the side that has its name, and has the
      parameter, if any, given for its own output. */
  predicate Wired(stage: Stage, s: Settings, before: Computation, a: Computation) {
    && stage.kind == a.kind && stage.from == before.output
    && (Consumes(a, before.output.setName) ==> stage.input.setName == before.output.setName)
    && (a.output.setName in s.params ==> stage.param == Some(s.params[a.output.setName]))
    && (a.output.setName !in s.params ==> stage.param == None)
    && (stage.lambda.Some? <==> a.kind in {Apply, HashLeft, HashRight})
    && (stage.lambda.Some? ==> stage.lambda.value == (a.name, a.lambda))
    && match stage.side
       case NoJoin => a.kind != JoinSets && stage.input == a.input && stage.projection == a.projection
       case RightInput(comp, threadId, other) =>
         a.kind == JoinSets && a.rightInput.setName == before.output.setName && (comp, threadId) == (a.name, s.threadId)
         && stage.input == a.rightInput && stage.projection == a.rightProjection && other == a.projection
       case LeftInput(comp, threadId, other) =>
         a.kind == JoinSets && a.rightInput.setName != before.output.setName && (comp, threadId) == (a.name, s.threadId)
         && stage.input == a.input && stage.projection == a.projection && other == a.rightProjection
  }

  /** Computations of the other types draw a message. */
  predicate Runs(a: Computation) {
    a.kind != Scan && a.kind != Aggregate && a.kind != WriteSet && a.kind != Partition
  }

  /** They get no stage; all others get one. */
  lemma OthersGetNoStage(s: Settings, lastOne: Computation, a: Computation)
    ensures StageFor(s, lastOne, a).None? <==> a.kind in {Scan, Aggregate, WriteSet, Partition}
  {
  }

  lemma StageIsWired(s: Settings, before: Computation, a: Computation)
    requires Runs(a)
    ensures StageFor(s, before, a).Some? && Wired(StageFor(s, before, a).value, s, before, a)
  {
  }

  ghost predicate AllWired(stages: seq<Stage>, s: Settings, first: Computation, path: seq<Computation>, n: nat) {
    |stages| == n <= |path| && forall i :: 0 <= i < n ==> Wired(stages[i], s, Previous(first, path, i), path[i])
  }

  lemma OneMoreWired(stages: seq<Stage>, s: Settings, first: Computation, path: seq<Computation>, n: nat)
    requires n < |path| && AllWired(stages, s, first, path, n) && Runs(path[n])
    ensures AllWired(Add(stages, StageFor(s, Previous(first, path, n), path[n])), s, first, path, n + 1)
  {
    var before, a := Previous(first, path, n), path[n];
    StageIsWired(s, before, a);
    var stage := StageFor(s, before, a).value;
    assert Add(stages, StageFor(s, before, a)) == stages + [stage];
    assert Wired(stage, s, before, a);
  }

  predicate AllRun(path: seq<Computation>) {
    forall i :: 0 <= i < |path| ==> Runs(path[i])
  }

  /** Computations that run in pipelines get one stage each, in order, wired to the one before. */
  lemma {:induction false} StagesAreWired(s: Settings, first: Computation, path: seq<Computation>, n: nat)
    requires n <= |path| && AllRun(path)
    ensures AllWired(StagesOf(s, first, path, n), s, first, path, n)
  {
    if n > 0 {
      StagesAreWired(s, first, path, n - 1);
      var stages := StagesOf(s, first, path, n - 1);
      assert StagesOf(s, first, path, n) == Add(stages, StageFor(s, Previous(first, path, n - 1), path[n - 1]));
      OneMoreWired(stages, s, first, path, n - 1);
    }
  }

  /** Along a path every stage reads the set the one before it produces. */
  lemma PathIsChained(s: Settings, comps: seq<Computation>, first: Computation, path: seq<Computation>, i: nat)
    requires i < |path| && IsPath(comps, first.output.setName, path) && AllRun(path)
    ensures AllWired(StagesOf(s, first, path, |path|), s, first, path, |path|)
    ensures StagesOf(s, first, path, |path|)[i].input.setName == Previous(first, path, i).output.setName
  {
    StagesAreWired(s, first, path, |path|);
    assert Wired(StagesOf(s, first, path, |path|)[i], s, Previous(first, path, i), path[i]);
    assert Consumes(path[i], Before(first.output.setName, path, i));
  }

  /** The computations that produce the listed tuple sets. */
  predicate AllProduced(comps: seq<Computation>, names: seq<string>) {
    forall i :: 0 <= i < |names| ==> Producer(comps, names[i]).Some?
  }

  function ProducersOf(comps: seq<Computation>, names: seq<string>): (cs: seq<Computation>)
    requires AllProduced(comps, names)
    ensures |cs| == |names|
  {
    seq(|names|, i requires 0 <= i < |names| => Producer(comps, names[i]).value)
  }

  function OutputNames(path: seq<Computation>): seq<string> {
    seq(|path|, i requires 0 <= i < |path| => path[i].output.setName)
  }

  /** Every computation on the path is the one the plan returns for its output name: none added later
      produces the same name. */
  predicate NotShadowed(comps: seq<Computation>, path: seq<Computation>) {
    forall i :: 0 <= i < |path| ==> Producer(comps, path[i].output.setName) == Some(path[i])
  }

  /** The output names of a path give the path back exactly when none of it is shadowed. */
  lemma PathIsProduced(comps: seq<Computation>, source: string, path: seq<Computation>)
    requires IsPath(comps, source, path)
    ensures AllProduced(comps, OutputNames(path))
    ensures ProducersOf(comps, OutputNames(path)) == path <==> NotShadowed(comps, path)
  {
    forall i | 0 <= i < |path| ensures Producer(comps, OutputNames(path)[i]).Some? {
      ProducerFound(comps, path[i]);
    }
    var cs := ProducersOf(comps, OutputNames(path));
    assert forall i :: 0 <= i < |path| ==> Producer(comps, path[i].output.setName) == Some(cs[i]);
  }

  lemma ProducersOfCons(comps: seq<Computation>, name: string, names: seq<string>)
    requires AllProduced(comps, names) && Producer(comps, name).Some?
    ensures AllProduced(comps, [name] + names)
    ensures ProducersOf(comps, [name] + names) == [Producer(comps, name).value] + ProducersOf(comps, names)
  {
    var longer := [name] + names;
    forall i | 0 <= i < |longer|
      ensures Producer(comps, longer[i]) == Some(([Producer(comps, name).value] + ProducersOf(comps, names))[i])
    {
      if i > 0 {
        assert longer[i] == names[i - 1];
      }
    }
  }

  /** The list made of the source and a path's output names stands for the computations of the path
      exactly when none of them is shadowed, and then builds the stages the search builds. */
  lemma ListStandsForPath(s: Settings, comps: seq<Computation>, source: string, path: seq<Computation>)
    requires IsPath(comps, source, path) && Producer(comps, source).Some?
    ensures AllProduced(comps, [source] + OutputNames(path))
    ensures ProducersOf(comps, [source] + OutputNames(path)) == [Producer(comps, source).value] + path
            <==> NotShadowed(comps, path)
    ensures NotShadowed(comps, path) ==>
              ListStages(s, comps, [source] + OutputNames(path))
              == StagesOf(s, Producer(comps, source).value, path, |path|)
  {
    PathIsProduced(comps, source, path);
    ProducersOfCons(comps, source, OutputNames(path));
    SameAfterFirst(Producer(comps, source).value, ProducersOf(comps, OutputNames(path)), path);
  }

  lemma SameAfterFirst(first: Computation, cs: seq<Computation>, path: seq<Computation>)
    ensures [first] + cs == [first] + path <==> cs == path
    ensures ([first] + path)[0] == first && ([first] + path)[1..] == path
  {
    assert ([first] + cs)[1..] == cs && ([first] + path)[1..] == path;
  }

  /** With one producer for every tuple set nothing is shadowed, and the overloads agree on every path. */
  lemma OverloadsAgree(s: Settings, comps: seq<Computation>, source: string, path: seq<Computation>)
    requires UniqueProducers(comps) && IsPath(comps, source, path) && Producer(comps, source).Some?
    ensures NotShadowed(comps, path) && AllProduced(comps, [source] + OutputNames(path))
    ensures ListStages(s, comps, [source] + OutputNames(path))
         == StagesOf(s, Producer(comps, source).value, path, |path|)
  {
    forall i | 0 <= i < |path| ensures Producer(comps, path[i].output.setName) == Some(path[i]) {
      UniqueProducerIsFound(comps, path[i]);
    }
    ListStandsForPath(s, comps, source, path);
  }

  /** The stages for a list of tuple sets that all have producers. */
  function ListStages(s: Settings, comps: seq<Computation>, names: seq<string>): seq<Stage>
    requires AllProduced(comps, names) && names != []
  {
    var cs := ProducersOf(comps, names);
    StagesOf(s, cs[0], cs[1..], |cs| - 1)
  }

  /** When a computation of the path is shadowed, the overloads can build different stages. */
  lemma TwoProducersDiffer()
    ensures var spec := (name: string) => TupleSpec(name, []);
            var scan := Computation(Scan, spec("e"), spec("s"), spec("e"), "", "", spec(""), spec(""));
            var filter := Computation(Filter, spec("s"), spec("t"), spec("s"), "", "", spec(""), spec(""));
            var flatten := Computation(Flatten, spec("s"), spec("t"), spec("s"), "", "", spec(""), spec(""));
            var comps := [scan, filter, flatten];
            && IsPath(comps, "s", [filter]) && AllProduced(comps, ["s", "t"]) && !NotShadowed(comps, [filter])
            && forall s :: ListStages(s, comps, ["s", "t"]) != StagesOf(s, scan, [filter], 1)
  {
    var spec := (name: string) => TupleSpec(name, []);
    var scan := Computation(Scan, spec("e"), spec("s"), spec("e"), "", "", spec(""), spec(""));
    var filter := Computation(Filter, spec("s"), spec("t"), spec("s"), "", "", spec(""), spec(""));
    var flatten := Computation(Flatten, spec("s"), spec("t"), spec("s"), "", "", spec(""), spec(""));
    var comps := [scan, filter, flatten];
    assert "s"[0] == 's' && "t"[0] == 't';
    assert "s" != "t";
    assert comps[..2] == [scan, filter] && [scan, filter][..1] == [scan];
    assert Producer([scan], "s") == Some(scan);
    assert Producer([scan, filter], "s") == Some(scan);
    assert Producer(comps, "s") == Some(scan) && Producer(comps, "t") == Some(flatten);
    assert !NotShadowed(comps, [filter]) by {
      assert [filter][0].output.setName == "t" && flatten.kind != filter.kind;
    }
    forall s ensures ListStages(s, comps, ["s", "t"]) != StagesOf(s, scan, [filter], 1) {
      var cs := ProducersOf(comps, ["s", "t"]);
      assert cs == [scan, flatten] && cs[1..] == [flatten];
      assert StagesOf(s, scan, [flatten], 1) == Add([], StageFor(s, scan, flatten));
      assert StagesOf(s, scan, [filter], 1) == Add([], StageFor(s, scan, filter));
      assert ListStages(s, comps, ["s", "t"])[0].kind == Flatten && StagesOf(s, scan, [filter], 1)[0].kind == Filter;
    }
  }

  // ---------- the two overloads ----------

  /** buildPipeline from a list of tuple sets; the first and the last must have producers, whose output is
      read without a test.  A missing producer in between gives the null pointer. */
  method BuildFromList(s: Settings, plan: AtomicComputationList, names: seq<string>) returns (built: Built)
    requires plan.Valid()
    requires names != [] ==> Producer(plan.added, names[0]).Some? && Producer(plan.added, names[|names| - 1]).Some?
    ensures names == [] || !AllProduced(plan.added, names) ==> built == NullPipeline
    ensures names != [] && AllProduced(plan.added, names) ==>
              && built == Pipeline(ListStages(s, plan.added, names))
              && var cs := ProducersOf(plan.added, names);
                 (AllRun(cs[1..]) ==> AllWired(built.stages, s, cs[0], cs[1..], |cs| - 1))
  {
    if |names| == 0 {
      return NullPipeline;
    }
    var producer := plan.GetProducingAtomicComputation(names[0]);
    var lastOne := producer.value;
    var stages: seq<Stage> := [];
    ghost var first, path := lastOne, [];
    var i := 1;
    while i < |names|
      invariant 1 <= i <= |names| && |path| == i - 1 && lastOne == Previous(first, path, i - 1)
      invariant Producer(plan.added, names[0]) == Some(first)
      invariant forall k :: 1 <= k < i ==> Producer(plan.added, names[k]) == Some(path[k - 1])
      invariant stages == StagesOf(s, first, path, i - 1)
    {
      var a := plan.GetProducingAtomicComputation(names[i]);
      if a.None? {
        return NullPipeline;
      }
      stages := Add(stages, StageFor(s, lastOne, a.value));
      StagesGrow(s, first, path, a.value, i - 1);
      path := path + [a.value];
      lastOne := a.value;
      i := i + 1;
    }
    ListWalked(s, plan.added, names, first, path);
    ListIsWired(s, plan.added, names);
    return Pipeline(stages);
  }

  lemma ListWalked(s: Settings, comps: seq<Computation>, names: seq<string>, first: Computation,
                   path: seq<Computation>)
    requires |names| == |path| + 1 && Producer(comps, names[0]) == Some(first)
    requires forall k :: 1 <= k < |names| ==> Producer(comps, names[k]) == Some(path[k - 1])
    ensures AllProduced(comps, names) && ListStages(s, comps, names) == StagesOf(s, first, path, |path|)
  {
    assert ProducersOf(comps, names) == [first] + path;
    assert ([first] + path)[1..] == path;
  }

  lemma ListIsWired(s: Settings, comps: seq<Computation>, names: seq<string>)
    requires names != [] && AllProduced(comps, names)
    ensures var cs := ProducersOf(comps, names);
            (AllRun(cs[1..]) ==> AllWired(ListStages(s, comps, names), s, cs[0], cs[1..], |cs| - 1))
  {
    var cs := ProducersOf(comps, names);
    var first, path := cs[0], cs[1..];
    assert ListStages(s, comps, names) == StagesOf(s, first, path, |cs| - 1);
    if AllRun(path) {
      StagesAreWired(s, first, path, |cs| - 1);
    }
  }

  lemma {:induction false} StagesGrow(s: Settings, first: Computation, path: seq<Computation>, a: Computation, n: nat)
    requires n <= |path|
    ensures StagesOf(s, first, path + [a], n) == StagesOf(s, first, path, n)
    ensures n == |path| ==>
              StagesOf(s, first, path + [a], n + 1)
              == Add(StagesOf(s, first, path, n), StageFor(s, Previous(first, path, n), a))
  {
    if n > 0 {
      StagesGrow(s, first, path, a, n - 1);
    }
  }

  /** The loop over the computations found. */
  method AddStages(s: Settings, first: Computation, path: seq<Computation>) returns (stages: seq<Stage>)
    ensures stages == StagesOf(s, first, path, |path|)
  {
    var lastOne := first;
    stages := [];
    var i := 0;
    while i < |path|
      invariant 0 <= i <= |path| && lastOne == Previous(first, path, i)
      invariant stages == StagesOf(s, first, path, i)
    {
      stages := Add(stages, StageFor(s, lastOne, path[i]));
      lastOne := path[i];
      i := i + 1;
    }
  }

  /** buildPipeline by search: the process ends when the target cannot be reached. */
  method BuildBySearch(s: Settings, plan: AtomicComputationList, source: string, target: string,
                       ghost rank: string -> nat)
    returns (built: Built)
    requires plan.Valid() && Acyclic(plan.added, rank) && Producer(plan.added, source).Some?
    ensures built == Exits <==> Unreachable(plan.added, source, target)
    ensures match SearchFrom(plan.added, rank, source, target)
            case None => built == Exits
            case Some(path) =>
              && path != [] && IsPath(plan.added, source, path) && EndOf(source, path) == target
              && built == Pipeline(StagesOf(s, Producer(plan.added, source).value, path, |path|))
              && FirstFound(plan.added, source, path, target)
              && (AllRun(path) ==> AllWired(built.stages, s, Producer(plan.added, source).value, path, |path|))
  {
    var search := new PathSearch(plan);
    var gotIt := search.FindPath(source, target, rank);
    if !gotIt {
      return Exits;
    }
    var producer := plan.GetProducingAtomicComputation(source);
    var stages := AddStages(s, producer.value, search.listSoFar);
    if AllRun(search.listSoFar) {
      StagesAreWired(s, producer.value, search.listSoFar, |search.listSoFar|);
    }
    built := Pipeline(stages);
  }

  /** The names the planner lists for a pipeline: the source and the outputs on the path the search finds. */
  ghost predicate ListsThePath(comps: seq<Computation>, rank: string -> nat, source: string, target: string,
                               names: seq<string>)
    requires Acyclic(comps, rank)
  {
    match SearchFrom(comps, rank, source, target)
    case None => false
    case Some(path) => names == [source] + OutputNames(path)
  }

  lemma ListCanBeBuilt(s: Settings, comps: seq<Computation>, rank: string -> nat, source: string, target: string,
                       names: seq<string>)
    requires Acyclic(comps, rank) && Producer(comps, source).Some? && ListsThePath(comps, rank, source, target, names)
    ensures names != [] && AllProduced(comps, names)
    ensures var path := SearchFrom(comps, rank, source, target).value;
            && (ProducersOf(comps, names) == [Producer(comps, source).value] + path <==> NotShadowed(comps, path))
            && (NotShadowed(comps, path) ==>
                  ListStages(s, comps, names) == StagesOf(s, Producer(comps, source).value, path, |path|))
  {
    SearchFromIsExact(comps, rank, source, target);
    ListStandsForPath(s, comps, source, SearchFrom(comps, rank, source, target).value);
  }

  /** Both overloads on the same pipeline: each builds one, the list stands for the computations found
      exactly when none of them is shadowed, and then the two pipelines are the same. */
  method BuildBothWays(s: Settings, plan: AtomicComputationList, source: string, target: string, names: seq<string>,
                       ghost rank: string -> nat)
    returns (found: Built, listed: Built)
    requires plan.Valid() && Acyclic(plan.added, rank) && Producer(plan.added, source).Some?
    requires ListsThePath(plan.added, rank, source, target, names)
    ensures found.Pipeline? && listed.Pipeline? && AllProduced(plan.added, names)
    ensures var path := SearchFrom(plan.added, rank, source, target).value;
            && (ProducersOf(plan.added, names) == [Producer(plan.added, source).value] + path
                <==> NotShadowed(plan.added, path))
            && (NotShadowed(plan.added, path) ==> found == listed)
  {
    ListCanBeBuilt(s, plan.added, rank, source, target, names);
    found := BuildBySearch(s, plan, source, target, rank);
    listed := BuildFromList(s, plan, names);
  }
}
