/** The logical plan: atomic computations over named tuple sets, and the search for a path between two. */
module PlanGraph {
  import opened Commons

  /** A tuple set's name and attributes. */
  datatype TupleSpec = TupleSpec(setName: string, atts: seq<string>)

  datatype Kind = Scan | Filter | Apply | HashLeft | HashRight | HashOne | Flatten | JoinSets | Aggregate | WriteSet
                | Partition

  /** An atomic computation; only joins use the right side. */
  datatype Computation = Computation(kind: Kind, input: TupleSpec, output: TupleSpec, projection: TupleSpec,
                                     name: string, lambda: string, rightInput: TupleSpec, rightProjection: TupleSpec)

  // ---------- the indexed list of computations ----------

  predicate Consumes(c: Computation, name: string) {
    c.input.setName == name || (c.kind == JoinSets && c.rightInput.setName == name)
  }

  /** The computations added, by the tuple sets they consume: a join is listed under both inputs (twice,
      if they are the same). */
  function Consumers(comps: seq<Computation>, name: string): seq<Computation> {
    if comps == [] then []
    else
      Consumers(comps[..|comps| - 1], name) + Listed(comps[|comps| - 1], name)
  }

  function Listed(c: Computation, name: string): seq<Computation> {
    (if c.input.setName == name then [c] else [])
    + (if c.kind == JoinSets && c.rightInput.setName == name then [c] else [])
  }

  lemma {:induction false} ConsumersConsume(comps: seq<Computation>, name: string, c: Computation)
    ensures c in Consumers(comps, name) <==> c in comps && Consumes(c, name)
  {
    if comps != [] {
      ConsumersConsume(comps[..|comps| - 1], name, c);
    }
  }

  /** They are listed in the order of addition: those of earlier computations before those of later ones. */
  lemma {:induction false} ConsumersInOrder(earlier: seq<Computation>, later: seq<Computation>, name: string)
    ensures Consumers(earlier + later, name) == Consumers(earlier, name) + Consumers(later, name)
  {
    if later == [] {
      assert earlier + later == earlier;
    } else {
      var front, last := later[..|later| - 1], later[|later| - 1];
      ConsumersInOrder(earlier, front, name);
      Append(earlier + front, last, name);
      Regroup(earlier, front, [last]);
      assert front + [last] == later;
      Regroup(Consumers(earlier, name), Consumers(front, name), Listed(last, name));
    }
  }

  lemma Regroup<T>(a: seq<T>, b: seq<T>, c: seq<T>)
    ensures (a + b) + c == a + (b + c)
  {
  }

  /** The last computation added that produces a tuple set. */
  function Producer(comps: seq<Computation>, name: string): (p: Option<Computation>)
    ensures p.Some? ==> p.value in comps && p.value.output.setName == name
  {
    if comps == [] then None
    else if comps[|comps| - 1].output.setName == name then Some(comps[|comps| - 1])
    else Producer(comps[..|comps| - 1], name)
  }

  /** It is the last one: none added later produces the set. */
  lemma {:induction false} ProducerIsLast(comps: seq<Computation>, name: string, p: Computation)
    ensures Producer(comps, name) == Some(p) <==>
              exists k :: && 0 <= k < |comps| && comps[k] == p && p.output.setName == name
                          && forall l :: k < l < |comps| ==> comps[l].output.setName != name
  {
    if comps != [] {
      var front, last := comps[..|comps| - 1], comps[|comps| - 1];
      if last.output.setName == name {
        assert comps[|comps| - 1] == last;
      } else {
        ProducerIsLast(front, name, p);
        assert forall k :: 0 <= k < |front| ==> front[k] == comps[k];
      }
    }
  }

  ghost predicate UniqueProducers(comps: seq<Computation>) {
    forall c, d :: c in comps && d in comps && c.output.setName == d.output.setName ==> c == d
  }

  lemma {:induction false} ProducerFound(comps: seq<Computation>, c: Computation)
    requires c in comps
    ensures Producer(comps, c.output.setName).Some?
  {
    if comps[|comps| - 1].output.setName != c.output.setName {
      ProducerFound(comps[..|comps| - 1], c);
    }
  }

  lemma UniqueProducerIsFound(comps: seq<Computation>, c: Computation)
    requires UniqueProducers(comps) && c in comps
    ensures Producer(comps, c.output.setName) == Some(c)
  {
    ProducerFound(comps, c);
  }

  function ProducerOf(producers: map<string, Computation>, name: string): Option<Computation> {
    if name in producers then Some(producers[name]) else None
  }

  /** A missing entry reads as an empty list. */
  function ConsumersOf(consumers: map<string, seq<Computation>>, name: string): seq<Computation> {
    if name in consumers then consumers[name] else []
  }

  lemma Append(comps: seq<Computation>, c: Computation, name: string)
    ensures Consumers(comps + [c], name) == Consumers(comps, name) + Listed(c, name)
    ensures Producer(comps + [c], name) == if c.output.setName == name then Some(c) else Producer(comps, name)
  {
    assert (comps + [c])[..|comps|] == comps;
  }

  lemma ProducersIndexed(producers: map<string, Computation>, comps: seq<Computation>, c: Computation)
    requires forall name :: ProducerOf(producers, name) == Producer(comps, name)
    ensures forall name :: ProducerOf(producers[c.output.setName := c], name) == Producer(comps + [c], name)
  {
    forall name ensures ProducerOf(producers[c.output.setName := c], name) == Producer(comps + [c], name) {
      Append(comps, c, name);
    }
  }

  /** A consumer pushed on the list of a name. */
  function Pushed(consumers: map<string, seq<Computation>>, name: string, c: Computation)
    : map<string, seq<Computation>>
  {
    consumers[name := ConsumersOf(consumers, name) + [c]]
  }

  function Indexed(consumers: map<string, seq<Computation>>, c: Computation): map<string, seq<Computation>> {
    var once := Pushed(consumers, c.input.setName, c);
    if c.kind == JoinSets then Pushed(once, c.rightInput.setName, c) else once
  }

  lemma ConsumersIndexed(consumers: map<string, seq<Computation>>, comps: seq<Computation>, c: Computation)
    requires forall name :: ConsumersOf(consumers, name) == Consumers(comps, name)
    ensures forall name :: ConsumersOf(Indexed(consumers, c), name) == Consumers(comps + [c], name)
  {
    forall name ensures ConsumersOf(Indexed(consumers, c), name) == Consumers(comps + [c], name) {
      IndexedOn(consumers, c, name);
      Append(comps, c, name);
    }
  }

  lemma IndexedOn(consumers: map<string, seq<Computation>>, c: Computation, name: string)
    ensures ConsumersOf(Indexed(consumers, c), name) == ConsumersOf(consumers, name) + Listed(c, name)
  {
    PushedOn(consumers, c.input.setName, c, name);
    PushedOn(Pushed(consumers, c.input.setName, c), c.rightInput.setName, c, name);
  }

  lemma PushedOn(consumers: map<string, seq<Computation>>, to: string, c: Computation, name: string)
    ensures ConsumersOf(Pushed(consumers, to, c), name) == ConsumersOf(consumers,
                                                                       name) + (if to == name then [c] else [])
  {
  }

  class AtomicComputationList {
    var producers: map<string, Computation>
    var consumers: map<string, seq<Computation>>
    var scans: seq<Computation>
    /** What has been added. */
    ghost var added: seq<Computation>

    ghost predicate Valid()
      reads this
    {
      && (forall name :: ProducerOf(producers, name) == Producer(added, name))
      && (forall name :: ConsumersOf(consumers, name) == Consumers(added, name))
    }

    constructor ()
      ensures Valid() && added == []
    {
      producers, consumers, scans, added := map[], map[], [], [];
    }

    /** Put `c` on the lists of the sets it consumes. */
    method IndexConsumer(c: Computation)
      modifies this`consumers
      ensures consumers == Indexed(old(consumers), c)
    {
      if c.input.setName !in consumers {
        consumers := consumers[c.input.setName := []];
      }
      consumers := consumers[c.input.setName := consumers[c.input.setName] + [c]];
      assert consumers == Pushed(old(consumers), c.input.setName, c);
      if c.kind == JoinSets {
        consumers := consumers[c.rightInput.setName := ConsumersOf(consumers, c.rightInput.setName) + [c]];
      }
    }

    method AddAtomicComputation(c: Computation)
      requires Valid()
      modifies this
      ensures Valid() && added == old(added) + [c]
      ensures scans == old(scans) + if c.kind == Scan then [c] else []
    {
      if c.kind == Scan {
        scans := scans + [c];
      }
      producers := producers[c.output.setName := c];
      IndexConsumer(c);
      ProducersIndexed(old(producers), added, c);
      ConsumersIndexed(old(consumers), added, c);
      added := added + [c];
    }

    /** None stands for the null pointer. */
    method GetProducingAtomicComputation(name: string) returns (p: Option<Computation>)
      requires Valid()
      ensures p == Producer(added, name)
    {
      p := ProducerOf(producers, name);
    }

    method GetConsumingAtomicComputations(name: string) returns (cs: seq<Computation>)
      requires Valid()
      ensures cs == Consumers(added, name)
    {
      cs := ConsumersOf(consumers, name);
    }
  }

  // ---------- the search ----------

  /** A plan without cycles: `rank` falls from a computation's inputs to its output. */
  ghost predicate Acyclic(comps: seq<Computation>, rank: string -> nat) {
    forall c, name :: c in comps && Consumes(c, name) ==> rank(c.output.setName) < rank(name)
  }

  /** Depth first: the first path of computations found from tuple set `name` to `target`. */
  ghost function Search(comps: seq<Computation>, rank: string -> nat, name: string,
                        target: string): Option<seq<Computation>>
    requires Acyclic(comps, rank)
    decreases rank(name), 1, 0
  {
    if name == target then Some([])
    else
      assert forall c :: c in Consumers(comps, name) ==> c in comps && Consumes(c, name) by { AllConsume(comps, name); }
      SearchVia(comps, rank, name, Consumers(comps, name), target)
  }

  /** The same through one of the computations `next`, tried in order. */
  ghost function SearchVia(comps: seq<Computation>, rank: string -> nat, name: string, next: seq<Computation>,
                           target: string)
    : Option<seq<Computation>>
    requires Acyclic(comps, rank) && forall c :: c in next ==> c in comps && Consumes(c, name)
    decreases rank(name), 0, |next|
  {
    if next == [] then None
    else
      assert next[0] in next;
      match Search(comps, rank, next[0].output.setName, target)
      case Some(path) => Some([next[0]] + path)
      case None => SearchVia(comps, rank, name, next[1..], target)
  }

  lemma AllConsume(comps: seq<Computation>, name: string)
    ensures forall c :: c in Consumers(comps, name) ==> c in comps && Consumes(c, name)
  {
    forall c ensures c in Consumers(comps, name) ==> c in comps && Consumes(c, name) {
      ConsumersConsume(comps, name, c);
    }
  }

  /** Each computation consumes what the one before produced, the first consumes `from`. */
  predicate IsPath(comps: seq<Computation>, from: string, path: seq<Computation>) {
    forall i :: 0 <= i < |path| ==> path[i] in comps && Consumes(path[i], Before(from, path, i))
  }

  /** The tuple set before computation number `i` of a path. */
  function Before(from: string, path: seq<Computation>, i: nat): string
    requires i <= |path|
  {
    if i == 0 then from else path[i - 1].output.setName
  }

  /** No path through one of the computations `first` ends at the target. */
  ghost predicate NoneVia(comps: seq<Computation>, from: string, first: seq<Computation>, target: string) {
    forall path :: IsPath(comps, from, path) && path != [] && path[0] in first ==> EndOf(from, path) != target
  }

  ghost predicate Unreachable(comps: seq<Computation>, from: string, target: string) {
    forall path :: IsPath(comps, from, path) && path != [] ==> EndOf(from, path) != target
  }

  lemma NoneViaConsumers(comps: seq<Computation>, from: string, target: string)
    requires NoneVia(comps, from, Consumers(comps, from), target)
    ensures Unreachable(comps, from, target)
  {
    forall path | IsPath(comps, from, path) && path != [] ensures EndOf(from, path) != target {
      assert Consumes(path[0], Before(from, path, 0));
      ConsumersConsume(comps, from, path[0]);
    }
  }

  function EndOf(from: string, path: seq<Computation>): string {
    if path == [] then from else path[|path| - 1].output.setName
  }

  /** A path found is a path to the target, and none is found only if there is none. */
  lemma {:induction false} SearchIsExact(comps: seq<Computation>, rank: string -> nat, name: string, target: string)
    requires Acyclic(comps, rank)
    ensures match Search(comps, rank, name, target)
            case Some(path) => IsPath(comps, name, path) && EndOf(name, path) == target
            case None => name != target && Unreachable(comps, name, target)
    decreases rank(name), 1, 0
  {
    if name != target {
      AllConsume(comps, name);
      SearchViaIsExact(comps, rank, name, Consumers(comps, name), target);
      if SearchVia(comps, rank, name, Consumers(comps, name), target).None? {
        NoneViaConsumers(comps, name, target);
      }
    }
  }

  lemma {:induction false} SearchViaIsExact(comps: seq<Computation>, rank: string -> nat, name: string,
                                            next: seq<Computation>, target: string)
    requires Acyclic(comps, rank) && forall c :: c in next ==> c in comps && Consumes(c, name)
    ensures match SearchVia(comps, rank, name, next, target)
            case Some(path) => path != [] && path[0] in next && IsPath(comps, name, path) && EndOf(name, path) == target
            case None => NoneVia(comps, name, next, target)
    decreases rank(name), 0, |next|
  {
    if next != [] {
      var c := next[0];
      assert c in next;
      SearchIsExact(comps, rank, c.output.setName, target);
      match Search(comps, rank, c.output.setName, target)
      case Some(path) =>
        StepsForm(comps, name, c, path);
      case None =>
        SearchViaIsExact(comps, rank, name, next[1..], target);
        forall path | SearchVia(comps, rank, name, next[1..], target).None?
          && IsPath(comps, name, path) && path != [] && path[0] in next
          ensures EndOf(name, path) != target
        {
          if path[0] == c {
            PathTail(comps, name, path);
          }
        }
    }
  }

  lemma StepsForm(comps: seq<Computation>, name: string, c: Computation, path: seq<Computation>)
    requires c in comps && Consumes(c, name) && IsPath(comps, c.output.setName, path)
    ensures IsPath(comps, name, [c] + path) && EndOf(name, [c] + path) == EndOf(c.output.setName, path)
  {
    var longer := [c] + path;
    forall i | 0 <= i < |longer| ensures longer[i] in comps && Consumes(longer[i], Before(name, longer, i)) {
      if i > 0 {
        assert longer[i] == path[i - 1] && Before(name, longer, i) == Before(c.output.setName, path, i - 1);
      }
    }
  }

  lemma PathTail(comps: seq<Computation>, name: string, path: seq<Computation>)
    requires IsPath(comps, name, path) && path != []
    ensures IsPath(comps, path[0].output.setName, path[1..])
    ensures EndOf(path[0].output.setName, path[1..]) == EndOf(name, path)
  {
    var from, tail := path[0].output.setName, path[1..];
    forall i | 0 <= i < |tail| ensures tail[i] in comps && Consumes(tail[i], Before(from, tail, i)) {
      assert tail[i] == path[i + 1] && Before(from, tail, i) == Before(name, path, i + 1);
    }
  }

  // ---------- which path is found ----------

  ghost predicate LeadsNowhere(comps: seq<Computation>, c: Computation, target: string) {
    c.output.setName != target && Unreachable(comps, c.output.setName, target)
  }

  /** `c` is the first consumer of a tuple set that leads to the target. */
  ghost predicate TakenFirst(comps: seq<Computation>, name: string, c: Computation, target: string) {
    exists k :: && 0 <= k < |Consumers(comps, name)| && Consumers(comps, name)[k] == c
                && forall j :: 0 <= j < k ==> LeadsNowhere(comps, Consumers(comps, name)[j], target)
  }

  /** At every step the first consumer that leads to the target is taken, and the path ends where it first
      meets the target. */
  ghost predicate FirstFound(comps: seq<Computation>, from: string, path: seq<Computation>, target: string) {
    forall i :: 0 <= i < |path| ==>
      && TakenFirst(comps, Before(from, path, i), path[i], target)
      && (i + 1 < |path| ==> path[i].output.setName != target)
  }

  lemma {:induction false} SearchTakesFirst(comps: seq<Computation>, rank: string -> nat, name: string, target: string)
    requires Acyclic(comps, rank) && Search(comps, rank, name, target).Some?
    ensures FirstFound(comps, name, Search(comps, rank, name, target).value, target)
    decreases rank(name), 1, 0
  {
    if name != target {
      AllConsume(comps, name);
      SearchViaTakesFirst(comps, rank, name, 0, target);
    }
  }

  /** `k` consumers have been tried in vain. */
  lemma {:induction false} SearchViaTakesFirst(comps: seq<Computation>, rank: string -> nat, name: string, k: nat,
                                               target: string)
    requires Acyclic(comps, rank) && k <= |Consumers(comps, name)|
    requires forall j :: 0 <= j < k ==> LeadsNowhere(comps, Consumers(comps, name)[j], target)
    requires forall c :: c in Consumers(comps, name)[k..] ==> c in comps && Consumes(c, name)
    requires SearchVia(comps, rank, name, Consumers(comps, name)[k..], target).Some?
    ensures FirstFound(comps, name, SearchVia(comps, rank, name, Consumers(comps, name)[k..], target).value, target)
    decreases rank(name), 0, |Consumers(comps, name)| - k
  {
    var next := Consumers(comps, name);
    var c := next[k];
    assert next[k..][0] == c && next[k..][1..] == next[k + 1..] && c in next[k..];
    SearchIsExact(comps, rank, c.output.setName, target);
    match Search(comps, rank, c.output.setName, target)
    case Some(path) =>
      SearchTakesFirst(comps, rank, c.output.setName, target);
      FirstStep(comps, name, c, path, k, target);
    case None =>
      SearchViaTakesFirst(comps, rank, name, k + 1, target);
  }

  lemma FirstStep(comps: seq<Computation>, name: string, c: Computation, path: seq<Computation>, k: nat, target: string)
    requires k < |Consumers(comps, name)| && Consumers(comps, name)[k] == c
    requires forall j :: 0 <= j < k ==> LeadsNowhere(comps, Consumers(comps, name)[j], target)
    requires FirstFound(comps, c.output.setName, path, target) && EndOf(c.output.setName, path) == target
    requires c.output.setName == target ==> path == []
    ensures FirstFound(comps, name, [c] + path, target)
  {
    var longer := [c] + path;
    forall i | 0 <= i < |longer|
      ensures TakenFirst(comps, Before(name, longer, i), longer[i], target)
      ensures i + 1 < |longer| ==> longer[i].output.setName != target
    {
      if i > 0 {
        assert longer[i] == path[i - 1] && Before(name, longer, i) == Before(c.output.setName, path, i - 1);
      }
    }
  }

  // ---------- the search as the plan does it ----------

  /** The list once a search is over. */
  function Extended(list: seq<Computation>, found: Option<seq<Computation>>): seq<Computation> {
    if found.Some? then list + found.value else list
  }

  lemma ExtendedStep(list: seq<Computation>, a: Computation, found: Option<seq<Computation>>)
    ensures EndOf("", list + [a]) == a.output.setName && (list + [a])[..|list|] == list
    ensures found.Some? ==> Extended(list + [a], found) == Extended(list, Some([a] + found.value))
  {
  }

  /** What a search from a source finds. */
  ghost function SearchFrom(comps: seq<Computation>, rank: string -> nat, source: string, target: string)
    : Option<seq<Computation>>
    requires Acyclic(comps, rank)
  {
    AllConsume(comps, source);
    SearchVia(comps, rank, source, Consumers(comps, source), target)
  }

  lemma SearchFromIsExact(comps: seq<Computation>, rank: string -> nat, source: string, target: string)
    requires Acyclic(comps, rank)
    ensures match SearchFrom(comps, rank, source, target)
            case Some(path) => path != [] && IsPath(comps, source, path) && EndOf(source, path) == target
            case None => Unreachable(comps, source, target)
  {
    AllConsume(comps, source);
    SearchViaIsExact(comps, rank, source, Consumers(comps, source), target);
    if SearchVia(comps, rank, source, Consumers(comps, source), target).None? {
      NoneViaConsumers(comps, source, target);
    }
  }

  lemma FoundFromSource(comps: seq<Computation>, rank: string -> nat, source: string, target: string,
                        list: seq<Computation>)
    requires Acyclic(comps, rank) && list == Extended([], SearchFrom(comps, rank, source, target))
    ensures SearchFrom(comps, rank, source, target).Some? ==>
              && SearchFrom(comps, rank, source, target) == Some(list)
              && list != [] && IsPath(comps, source, list) && EndOf(source, list) == target
              && FirstFound(comps, source, list, target)
    ensures SearchFrom(comps, rank, source, target).None? ==> list == [] && Unreachable(comps, source, target)
  {
    SearchFromIsExact(comps, rank, source, target);
    var found := SearchFrom(comps, rank, source, target);
    if found.Some? {
      assert [] + found.value == found.value;
      AllConsume(comps, source);
      assert Consumers(comps, source)[0..] == Consumers(comps, source);
      SearchViaTakesFirst(comps, rank, source, 0, target);
    }
  }

  lemma SearchViaStep(comps: seq<Computation>, rank: string -> nat, name: string, next: seq<Computation>, k: nat,
                      target: string)
    requires Acyclic(comps, rank) && (forall c :: c in next ==> c in comps && Consumes(c, name)) && k < |next|
    ensures next[k] in comps && Consumes(next[k], name)
    ensures SearchVia(comps, rank, name, next[k..], target) ==
            match Search(comps, rank, next[k].output.setName, target)
            case Some(path) => Some([next[k]] + path)
            case None => SearchVia(comps, rank, name, next[k + 1..], target)
  {
    assert next[k] in next && next[k..][0] == next[k] && next[k..][1..] == next[k + 1..];
  }

  /** The list of computations the search extends and cuts back. */
  class PathSearch {
    const plan: AtomicComputationList
    var listSoFar: seq<Computation>

    constructor (plan: AtomicComputationList)
      ensures this.plan == plan && listSoFar == []
    {
      this.plan, listSoFar := plan, [];
    }

    /** True exactly when the target can be reached from the end of the list, which then grows by the path
        found; the list is as before otherwise. */
    method Recurse(target: string, ghost rank: string -> nat) returns (found: bool)
      requires plan.Valid() && Acyclic(plan.added, rank) && |listSoFar| > 0
      modifies this`listSoFar
      ensures found <==> Search(plan.added, rank, old(EndOf("", listSoFar)), target).Some?
      ensures listSoFar == Extended(old(listSoFar), Search(plan.added, rank, old(EndOf("", listSoFar)), target))
      decreases rank(EndOf("", listSoFar)), 1, 0
    {
      var name := listSoFar[|listSoFar| - 1].output.setName;
      if name == target {
        return true;
      }
      var nextOnes := plan.GetConsumingAtomicComputations(name);
      AllConsume(plan.added, name);
      found := TryEach(name, nextOnes, target, rank);
    }

    /** The loop over the computations that may come next: each is pushed and, if it leads nowhere, popped. */
    method TryEach(name: string, nextOnes: seq<Computation>, target: string, ghost rank: string -> nat)
      returns (found: bool)
      requires plan.Valid() && Acyclic(plan.added, rank)
      requires forall c :: c in nextOnes ==> c in plan.added && Consumes(c, name)
      modifies this`listSoFar
      ensures found <==> SearchVia(plan.added, rank, name, nextOnes, target).Some?
      ensures listSoFar == Extended(old(listSoFar), SearchVia(plan.added, rank, name, nextOnes, target))
      decreases rank(name), 0, |nextOnes|
    {
      ghost var before := listSoFar;
      var k := 0;
      while k < |nextOnes|
        invariant 0 <= k <= |nextOnes| && listSoFar == before
        invariant SearchVia(plan.added, rank, name, nextOnes, target)
               == SearchVia(plan.added, rank, name, nextOnes[k..], target)
      {
        var a := nextOnes[k];
        SearchViaStep(plan.added, rank, name, nextOnes, k, target);
        ExtendedStep(before, a, Search(plan.added, rank, a.output.setName, target));
        listSoFar := listSoFar + [a];
        found := Recurse(target, rank);
        if found {
          return true;
        }
        listSoFar := listSoFar[..|listSoFar| - 1];
        k := k + 1;
      }
      return false;
    }

    method TryConsumers(source: string, target: string, ghost rank: string -> nat) returns (gotIt: bool)
      requires plan.Valid() && Acyclic(plan.added, rank)
      modifies this`listSoFar
      ensures gotIt <==> SearchFrom(plan.added, rank, source, target).Some?
      ensures listSoFar == Extended(old(listSoFar), SearchFrom(plan.added, rank, source, target))
    {
      AllConsume(plan.added, source);
      var nextOnes := plan.GetConsumingAtomicComputations(source);
      gotIt := TryEach(source, nextOnes, target, rank);
    }

    /** The computations that lead from a source tuple set to the target, if any do. */
    method FindPath(source: string, target: string, ghost rank: string -> nat) returns (gotIt: bool)
      requires plan.Valid() && Acyclic(plan.added, rank) && listSoFar == []
      modifies this`listSoFar
      ensures gotIt ==> listSoFar != [] && IsPath(plan.added, source, listSoFar) && EndOf(source, listSoFar) == target
      ensures gotIt ==> FirstFound(plan.added, source, listSoFar, target)
      ensures !gotIt ==> listSoFar == [] && Unreachable(plan.added, source, target)
      ensures SearchFrom(plan.added, rank, source, target) == if gotIt then Some(listSoFar) else None
    {
      gotIt := TryConsumers(source, target, rank);
      FoundFromSource(plan.added, rank, source, target, listSoFar);
    }
  }
}
