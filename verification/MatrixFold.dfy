/** Folding FFMatrixData::operator+ in place over the partial products of one key: the data, which does
    not depend on the order, and the bias, which does unless all or none of the operands have one. */
module MatrixFold {
  import opened Commons
  import opened MatrixBlocks
  import opened MatrixAggregation

  type Bias = Option<seq<real>>

  // ---------- what operator+ makes of the biases ----------

  function CellOf(b: Bias, t: int): real {
    if b.Some? && 0 <= t < |b.value| then b.value[t] else 0.0
  }

  /** Only a bias the left operand has is added to, and only if the right operand has one. */
  function AddBias(a: Bias, b: Bias): Bias {
    if a.Some? && b.Some? then Some(seq(|a.value|, t => CellOf(a, t) + CellOf(b, t))) else a
  }

  function FoldBias(bs: seq<Bias>): Bias {
    if bs == [] then None
    else if |bs| == 1 then bs[0]
    else AddBias(FoldBias(bs[..|bs| - 1]), bs[|bs| - 1])
  }

  function CellAt(t: int): Bias -> real {
    (b: Bias) => CellOf(b, t)
  }

  /** The sum of cell `t` over the biases there are. */
  function BiasSum(bs: seq<Bias>, t: int): real {
    SumOver(bs, CellAt(t))
  }

  /** Operands of one key have biases of one length, if any. */
  ghost predicate SameLength(bs: seq<Bias>, n: nat) {
    forall i :: 0 <= i < |bs| && bs[i].Some? ==> |bs[i].value| == n
  }

  /** The fold has a bias exactly when the first operand has, and then it is the sum of all biases. */
  lemma {:induction false} FoldBiasIsSum(bs: seq<Bias>, n: nat)
    requires bs != [] && SameLength(bs, n)
    ensures FoldBias(bs).Some? <==> bs[0].Some?
    ensures FoldBias(bs).Some? ==>
              && |FoldBias(bs).value| == n
              && forall t :: 0 <= t < n ==> FoldBias(bs).value[t] == BiasSum(bs, t)
  {
    if |bs| == 1 {
      forall t | 0 <= t < n && bs[0].Some? ensures bs[0].value[t] == BiasSum(bs, t) {
        assert BiasSum(bs, t) == SumOver(bs[..0], CellAt(t)) + CellAt(t)(bs[0]);
      }
    } else {
      var front := bs[..|bs| - 1];
      FoldBiasIsSum(front, n);
      forall t | 0 <= t < n ensures BiasSum(bs, t) == BiasSum(front, t) + CellOf(bs[|bs| - 1], t) {
      }
    }
  }

  lemma SameRecordsSameLength(a: seq<Bias>, b: seq<Bias>, n: nat)
    requires multiset(a) == multiset(b) && SameLength(a, n)
    ensures SameLength(b, n) && |a| == |b|
  {
    assert |a| == |multiset(a)| && |b| == |multiset(b)|;
    forall i | 0 <= i < |b| && b[i].Some? ensures |b[i].value| == n {
      assert b[i] in multiset(a);
      var j :| 0 <= j < |a| && a[j] == b[i];
    }
  }

  /** Two orders of the same operands give the same bias exactly when both begin with an operand that has
      one, or neither does. */
  lemma BiasOrders(a: seq<Bias>, b: seq<Bias>, n: nat)
    requires a != [] && b != [] && multiset(a) == multiset(b) && SameLength(a, n)
    ensures FoldBias(a) == FoldBias(b) <==> (a[0].Some? <==> b[0].Some?)
  {
    SameRecordsSameLength(a, b, n);
    FoldBiasIsSum(a, n);
    FoldBiasIsSum(b, n);
    if a[0].Some? && b[0].Some? {
      forall t | 0 <= t < n ensures FoldBias(a).value[t] == FoldBias(b).value[t] {
        SumOverPermutes(a, b, CellAt(t));
      }
      assert FoldBias(a).value == FoldBias(b).value;
    }
  }

  ghost predicate OrderIrrelevant(bs: seq<Bias>) {
    forall other :: multiset(other) == multiset(bs) ==> FoldBias(other) == FoldBias(bs)
  }

  predicate AllOrNone(bs: seq<Bias>) {
    (forall i :: 0 <= i < |bs| ==> bs[i].Some?) || (forall i :: 0 <= i < |bs| ==> bs[i].None?)
  }

  /** The order of the operands never matters to the bias exactly when all or none of them have one; the
      join's products have none. */
  lemma BiasOrderIrrelevantIff(bs: seq<Bias>, n: nat)
    requires SameLength(bs, n)
    ensures OrderIrrelevant(bs) <==> AllOrNone(bs)
  {
    if AllOrNone(bs) {
      forall other | multiset(other) == multiset(bs) ensures FoldBias(other) == FoldBias(bs) {
        AllOrNoneStays(bs, other, n);
      }
    } else {
      var i :| 0 <= i < |bs| && bs[i].None?;
      var j :| 0 <= j < |bs| && bs[j].Some?;
      MovedFirst(bs, i);
      MovedFirst(bs, j);
      BiasOrders(MoveFirst(bs, i), MoveFirst(bs, j), n) by {
        SameRecordsSameLength(bs, MoveFirst(bs, i), n);
      }
    }
  }

  lemma AllOrNoneStays(bs: seq<Bias>, other: seq<Bias>, n: nat)
    requires SameLength(bs, n) && AllOrNone(bs) && multiset(other) == multiset(bs)
    ensures FoldBias(other) == FoldBias(bs)
  {
    SameRecordsSameLength(bs, other, n);
    if bs != [] {
      assert other[0] in multiset(bs);
      BiasOrders(bs, other, n);
    }
  }

  function MoveFirst(bs: seq<Bias>, i: nat): seq<Bias>
    requires i < |bs|
  {
    [bs[i]] + bs[..i] + bs[i + 1..]
  }

  lemma MovedFirst(bs: seq<Bias>, i: nat)
    requires i < |bs|
    ensures multiset(MoveFirst(bs, i)) == multiset(bs) && MoveFirst(bs, i)[0] == bs[i]
  {
    assert bs == bs[..i] + [bs[i]] + bs[i + 1..];
  }

  /** Partial folds added up give the fold of the whole exactly when no bias is lost to a second part
      that begins without one. */
  lemma BiasGroups(a: seq<Bias>, b: seq<Bias>, n: nat)
    requires a != [] && b != [] && SameLength(a + b, n)
    ensures AddBias(FoldBias(a), FoldBias(b)) == FoldBias(a + b) <==>
              (a[0].Some? && b[0].None? ==> forall t :: 0 <= t < n ==> BiasSum(b, t) == 0.0)
  {
    var whole := a + b;
    assert SameLength(a, n) by {
      assert forall i :: 0 <= i < |a| ==> a[i] == whole[i];
    }
    assert SameLength(b, n) by {
      assert forall i :: 0 <= i < |b| ==> b[i] == whole[|a| + i];
    }
    FoldBiasIsSum(a, n);
    FoldBiasIsSum(b, n);
    FoldBiasIsSum(whole, n);
    if a[0].Some? {
      var sum, parts := FoldBias(whole).value, AddBias(FoldBias(a), FoldBias(b)).value;
      forall t | 0 <= t < n
        ensures sum[t] == BiasSum(a, t) + BiasSum(b, t)
        ensures parts[t] == BiasSum(a, t) + if b[0].Some? then BiasSum(b, t) else 0.0
      {
        SumOverConcat(a, b, CellAt(t));
      }
      assert (forall t :: 0 <= t < n ==> sum[t] == parts[t]) ==> sum == parts;
    }
  }

  // ---------- the fold in place ----------

  ghost function BiasOf(m: MatrixData): Bias
    reads if m.bias == null then {} else {m.bias}
  {
    if m.bias == null then None else Some(m.bias[..])
  }

  /** The record of key `k` an operand stands for. */
  ghost function RecordOf(m: MatrixData, k: Key): Block
    reads m.rawData, if m.bias == null then {} else {m.bias}
  {
    Block(k.0, k.1, m.rowNums, m.colNums, m.rawData[..], BiasOf(m))
  }

  ghost function Arrays(ms: seq<MatrixData>): set<object> {
    (set m | m in ms :: m.rawData) + (set m | m in ms && m.bias != null :: m.bias)
  }

  ghost function RecordsOf(ms: seq<MatrixData>, k: Key): seq<Block>
    reads Arrays(ms)
  {
    seq(|ms|, i requires 0 <= i < |ms| reads Arrays(ms) => RecordOf(ms[i], k))
  }

  ghost function BiasesOf(ms: seq<MatrixData>): seq<Bias>
    reads Arrays(ms)
  {
    seq(|ms|, i requires 0 <= i < |ms| reads Arrays(ms) => BiasOf(ms[i]))
  }

  /** The first operand's arrays are its own. */
  predicate Apart(ms: seq<MatrixData>)
    requires ms != []
  {
    && (ms[0].bias != null ==> ms[0].bias != ms[0].rawData)
    && forall i :: 1 <= i < |ms| ==>
         && ms[i].rawData != ms[0].rawData && ms[i].rawData != ms[0].bias && ms[i].bias != ms[0].rawData
         && (ms[i].bias != null ==> ms[i].bias != ms[0].bias)
  }

  predicate SameShape(ms: seq<MatrixData>, rows: nat, cols: nat, n: nat) {
    forall i :: 0 <= i < |ms| ==>
      && ms[i].rowNums == rows && ms[i].colNums == cols && ms[i].rawData.Length == rows * cols
      && (ms[i].bias != null ==> ms[i].bias.Length == n)
  }

  /** Every cell of `data` is the sum of that cell over the records of key `k`. */
  ghost predicate Sums(data: seq<real>, records: seq<Block>, k: Key) {
    forall t :: 0 <= t < |data| ==> data[t] == KeySum(records, k, t)
  }

  /** One use of operator+ in these terms. */
  method AddOne(acc: MatrixData, other: MatrixData, n: nat)
    requires Apart([acc, other]) && acc.rawData.Length == acc.rowNums * acc.colNums == other.rawData.Length
    requires (acc.bias != null ==> acc.bias.Length == n) && (other.bias != null ==> other.bias.Length == n)
    modifies acc.rawData, acc.bias
    ensures forall t :: 0 <= t < acc.rawData.Length ==> acc.rawData[t] == old(acc.rawData[t]) + other.rawData[t]
    ensures BiasOf(acc) == AddBias(old(BiasOf(acc)), BiasOf(other))
  {
    assert [acc, other][1] == other;
    ghost var data, before := acc.rawData[..], BiasOf(acc);
    acc.Add(other);
    assert acc.rawData[..] == AddData(data, other.rawData[..]);
    if acc.bias != null && other.bias != null {
      assert acc.bias[..] == acc.bias[..n] && other.bias[..] == other.bias[..n];
      assert BiasOf(acc).value == AddBias(before, BiasOf(other)).value;
    }
  }

  /** The operands of one key, added one after the other into the first: it ends with the sum of the data
      of all, cell by cell, and with the fold of the biases; the others are as they were. */
  method AddAll(ms: seq<MatrixData>, rows: nat, cols: nat, n: nat, ghost k: Key)
    requires ms != [] && Apart(ms) && SameShape(ms, rows, cols, n)
    modifies ms[0].rawData, ms[0].bias
    ensures Sums(ms[0].rawData[..], old(RecordsOf(ms, k)), k)
    ensures BiasOf(ms[0]) == FoldBias(old(BiasesOf(ms)))
    ensures forall i :: 1 <= i < |ms| ==>
              ms[i].rawData[..] == old(ms[i].rawData[..]) && BiasOf(ms[i]) == old(BiasOf(ms[i]))
    ensures Uniform(old(RecordsOf(ms, k))) && k in Aggregate(old(RecordsOf(ms, k)))
    ensures ms[0].rawData[..] == Aggregate(old(RecordsOf(ms, k)))[k].data
  {
    ghost var records, biases := RecordsOf(ms, k), BiasesOf(ms);
    AddInto(ms, rows, cols, n, records, biases, k);
    SumIsGroup(records, k, rows, cols, ms[0].rawData[..]);
  }

  /** The operands from number `from` on hold these data and biases. */
  ghost predicate Hold(ms: seq<MatrixData>, from: nat, records: seq<Block>, biases: seq<Bias>)
    reads Arrays(ms)
  {
    && |records| == |biases| == |ms|
    && forall i :: from <= i < |ms| ==> ms[i].rawData[..] == records[i].data && BiasOf(ms[i]) == biases[i]
  }

  /** The loop. */
  method AddInto(ms: seq<MatrixData>, rows: nat, cols: nat, n: nat, ghost records: seq<Block>,
                 ghost biases: seq<Bias>, ghost k: Key)
    requires ms != [] && Apart(ms) && SameShape(ms, rows, cols, n)
    requires Hold(ms, 0, records, biases) && forall i :: 0 <= i < |ms| ==> KeyOf(records[i]) == k
    modifies ms[0].rawData, ms[0].bias
    ensures Sums(ms[0].rawData[..], records, k)
    ensures BiasOf(ms[0]) == FoldBias(biases)
    ensures forall i :: 1 <= i < |ms| ==>
              ms[i].rawData[..] == old(ms[i].rawData[..]) && BiasOf(ms[i]) == old(BiasOf(ms[i]))
  {
    FirstRecord(records, k);
    for i := 1 to |ms|
      invariant Sums(ms[0].rawData[..], records[..i], k)
      invariant BiasOf(ms[0]) == FoldBias(biases[..i])
      invariant Hold(ms, 1, records, biases)
    {
      ghost var data := ms[0].rawData[..];
      AddOne(ms[0], ms[i], n);
      RecordAdded(records, i, k, data, ms[0].rawData[..]);
      BiasAdded(biases, i);
    }
    assert records[..|ms|] == records && biases[..|ms|] == biases;
  }

  /** The records of one key make one group, which holds their sum. */
  lemma SumIsGroup(records: seq<Block>, k: Key, rows: nat, cols: nat, data: seq<real>)
    requires records != [] && |data| == rows * cols
    requires forall i :: 0 <= i < |records| ==>
               && KeyOf(records[i]) == k && records[i].rows == rows && records[i].cols == cols
               && |records[i].data| == rows * cols
    requires Sums(data, records, k)
    ensures Uniform(records) && k in Aggregate(records) && Aggregate(records)[k].data == data
  {
    AggregateIsTable(records);
    assert records[0] in records;
  }

  lemma FirstRecord(records: seq<Block>, k: Key)
    requires records != [] && KeyOf(records[0]) == k
    ensures Sums(records[0].data, records[..1], k)
  {
    assert records[..1][..0] == [];
  }

  lemma BiasAdded(biases: seq<Bias>, i: nat)
    requires 0 < i < |biases|
    ensures FoldBias(biases[..i + 1]) == AddBias(FoldBias(biases[..i]), biases[i])
  {
    assert biases[..i + 1][..i] == biases[..i];
  }

  lemma RecordAdded(records: seq<Block>, i: nat, k: Key, before: seq<real>, after: seq<real>)
    requires i < |records| && KeyOf(records[i]) == k && |before| == |after| == |records[i].data|
    requires Sums(before, records[..i], k)
    requires forall t :: 0 <= t < |after| ==> after[t] == before[t] + records[i].data[t]
    ensures Sums(after, records[..i + 1], k)
  {
    assert records[..i + 1][..i] == records[..i];
  }
}
