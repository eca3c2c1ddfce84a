/** FFAggMatrix: group blocks by key and add them up, and the in-place addition it rests on. */
module MatrixAggregation {
  import opened MatrixBlocks

  // ---------- FFMatrixData ----------

  /** The values an FFMatrixData holds. */
  datatype MatrixValue = MatrixValue(rows: nat, cols: nat, data: seq<real>)

  function AddData(a: seq<real>, b: seq<real>): (c: seq<real>)
    requires |a| <= |b|
    ensures |c| == |a|
  {
    seq(|a|, i requires 0 <= i < |a| => a[i] + b[i])
  }

  class MatrixData {
    const rowNums: nat
    const colNums: nat
    const rawData: array<real>
    const bias: array?<real>

    constructor (rowNums: nat, colNums: nat, rawData: array<real>, bias: array?<real>)
      ensures this.rowNums == rowNums && this.colNums == colNums && this.rawData == rawData && this.bias == bias
    {
      this.rowNums, this.colNums, this.rawData, this.bias := rowNums, colNums, rawData, bias;
    }

    /** operator+: adds `other` into this object cell by cell, and the bias if both have one. */
    method Add(other: MatrixData)
      requires rawData.Length == rowNums * colNums <= other.rawData.Length
      requires bias != null && other.bias != null ==> bias.Length >= other.bias.Length
      requires bias != null ==> bias != rawData && bias != other.rawData
      requires other.bias != null ==> other.bias != rawData
      requires other.rawData != rawData && (other.bias != null ==> other.bias != bias)
      modifies rawData, bias
      ensures rawData[..] == AddData(old(rawData[..]), other.rawData[..])
      ensures bias != null && other.bias != null ==>
                && bias[..other.bias.Length] == AddData(other.bias[..], old(bias[..]))
                && bias[other.bias.Length..] == old(bias[other.bias.Length..])
      ensures bias != null && other.bias == null ==> bias[..] == old(bias[..])
      ensures other.rawData[..] == old(other.rawData[..])
      ensures other.bias != null ==> other.bias[..] == old(other.bias[..])
    {
      for i := 0 to rowNums * colNums
        invariant forall k :: 0 <= k < i ==> rawData[k] == old(rawData[k]) + other.rawData[k]
        invariant forall k :: i <= k < rawData.Length ==> rawData[k] == old(rawData[k])
        invariant bias != null ==> bias[..] == old(bias[..])
      {
        rawData[i] := rawData[i] + other.rawData[i];
      }
      if bias != null && other.bias != null {
        for i := 0 to other.bias.Length
          invariant rawData[..] == AddData(old(rawData[..]), other.rawData[..])
          invariant forall k :: 0 <= k < i ==> bias[k] == old(bias[k]) + other.bias[k]
          invariant forall k :: i <= k < bias.Length ==> bias[k] == old(bias[k])
        {
          bias[i] := bias[i] + other.bias[i];
        }
      }
    }
  }

  // ---------- FFAggMatrix ----------

  type Table = map<Key, MatrixValue>

  ghost predicate WellShaped(bs: seq<Block>) {
    forall b :: b in bs ==> |b.data| == b.rows * b.cols
  }

  /** Blocks with the same key have the same shape, so that they can be added. */
  ghost predicate Uniform(bs: seq<Block>) {
    && WellShaped(bs)
    && forall x, y :: x in bs && y in bs && KeyOf(x) == KeyOf(y) ==> x.rows == y.rows && x.cols == y.cols
  }

  ghost predicate Accepts(m: Table, b: Block) {
    KeyOf(b) in m ==> |m[KeyOf(b)].data| <= |b.data|
  }

  /** One record reaches the aggregation: it starts a group or is added to its group. */
  function Absorb(m: Table, b: Block): Table
    requires Accepts(m, b)
  {
    var k := KeyOf(b);
    m[k := if k in m then m[k].(data := AddData(m[k].data, b.data)) else MatrixValue(b.rows, b.cols, b.data)]
  }

  /** The table has exactly the groups of `bs`, each with the shape of its blocks. */
  ghost predicate Groups(m: Table, bs: seq<Block>) {
    && (forall k :: k in m ==> HasKey(bs, k))
    && forall b :: b in bs ==> KeyOf(b) in m && m[KeyOf(b)].rows == b.rows && m[KeyOf(b)].cols == b.cols
                                                && |m[KeyOf(b)].data| == |b.data|
  }

  function Aggregate(bs: seq<Block>): (m: Table)
    requires Uniform(bs)
    ensures Groups(m, bs)
  {
    if bs == [] then map[]
    else
      var n := |bs| - 1;
      assert bs == bs[..n] + [bs[n]];
      var m := Aggregate(bs[..n]);
      assert Accepts(m, bs[n]) by {
        if b :| b in bs[..n] && KeyOf(b) == KeyOf(bs[n]) {
        }
      }
      Absorb(m, bs[n])
  }

  /** The sum of `f` over a sequence. */
  function SumOver<T>(s: seq<T>, f: T -> real): real {
    if s == [] then 0.0 else SumOver(s[..|s| - 1], f) + f(s[|s| - 1])
  }

  /** What a block adds to cell `t` of the group of key `k`. */
  function Contribution(k: Key, t: int): Block -> real {
    (b: Block) => if KeyOf(b) == k && 0 <= t < |b.data| then b.data[t] else 0.0
  }

  /** The sum of cell `t` over the blocks with key `k`. */
  function KeySum(bs: seq<Block>, k: Key, t: int): real {
    if bs == [] then 0.0
    else
      var b := bs[|bs| - 1];
      KeySum(bs[..|bs| - 1], k, t) + if KeyOf(b) == k && 0 <= t < |b.data| then b.data[t] else 0.0
  }

  lemma {:induction false} KeySumIsSum(bs: seq<Block>, k: Key, t: int)
    ensures KeySum(bs, k, t) == SumOver(bs, Contribution(k, t))
  {
    if bs != [] {
      KeySumIsSum(bs[..|bs| - 1], k, t);
    }
  }

  /** Every cell of every group is the sum of that cell over the blocks of the group. */
  lemma {:induction false} AggregateSums(bs: seq<Block>, k: Key, t: int)
    requires Uniform(bs)
    ensures k in Aggregate(bs) <==> HasKey(bs, k)
    ensures k in Aggregate(bs) && 0 <= t < |Aggregate(bs)[k].data| ==> Aggregate(bs)[k].data[t] == KeySum(bs, k, t)
    ensures k !in Aggregate(bs) ==> KeySum(bs, k, t) == 0.0
  {
    if bs != [] {
      var n := |bs| - 1;
      assert bs == bs[..n] + [bs[n]];
      PrefixUniform(bs, n);
      AggregateSums(bs[..n], k, t);
      NextAccepted(bs, n);
      AbsorbedCell(Aggregate(bs[..n]), bs[n], k, t);
    }
  }

  /** What one record does to one cell of one group. */
  lemma AbsorbedCell(m: Table, b: Block, k: Key, t: int)
    requires Accepts(m, b) && (k in m && k == KeyOf(b) ==> |m[k].data| == |b.data|)
    ensures var m1 := Absorb(m, b);
            && (k in m1 <==> k in m || k == KeyOf(b))
            && (k in m1 && k != KeyOf(b) ==> m1[k] == m[k])
            && (k == KeyOf(b) && k !in m ==> m1[k].data == b.data)
            && (k == KeyOf(b) && k in m ==> |m1[k].data| == |b.data|)
            && (k == KeyOf(b) && k in m && 0 <= t < |b.data| ==> m1[k].data[t] == m[k].data[t] + b.data[t])
  {
  }

  lemma {:induction false} SumOverConcat<T>(a: seq<T>, b: seq<T>, f: T -> real)
    ensures SumOver(a + b, f) == SumOver(a, f) + SumOver(b, f)
  {
    if b == [] {
      assert a + b == a;
    } else {
      var n := |b| - 1;
      assert (a + b)[..|a + b| - 1] == a + b[..n];
      SumOverConcat(a, b[..n], f);
    }
  }

  lemma SameRest<T>(a: seq<T>, b: seq<T>, x: T)
    requires multiset(a) + multiset{x} == multiset(b) + multiset{x}
    ensures multiset(a) == multiset(b)
  {
    assert multiset(a) == (multiset(a) + multiset{x}) - multiset{x};
    assert multiset(b) == (multiset(b) + multiset{x}) - multiset{x};
  }

  /** A sum does not depend on the order of what is summed. */
  lemma {:induction false} SumOverPermutes<T>(a: seq<T>, b: seq<T>, f: T -> real)
    requires multiset(a) == multiset(b)
    ensures SumOver(a, f) == SumOver(b, f)
  {
    if a == [] {
      assert |b| == |multiset(b)| == |multiset(a)| == 0;
    } else {
      var n := |a| - 1;
      var x := a[n];
      assert a == a[..n] + [x];
      assert x in multiset(b);
      var m :| 0 <= m < |b| && b[m] == x;
      assert b == b[..m] + [x] + b[m + 1..];
      assert multiset(a) == multiset(a[..n]) + multiset{x};
      assert multiset(b) == multiset(b[..m] + b[m + 1..]) + multiset{x};
      SameRest(a[..n], b[..m] + b[m + 1..], x);
      SumOverPermutes(a[..n], b[..m] + b[m + 1..], f);
      SumOverConcat(b[..m] + [x], b[m + 1..], f);
      SumOverConcat(b[..m], [x], f);
      SumOverConcat(b[..m], b[m + 1..], f);
    }
  }

  lemma KeySumConcat(a: seq<Block>, b: seq<Block>, k: Key, t: int)
    ensures KeySum(a + b, k, t) == KeySum(a, k, t) + KeySum(b, k, t)
  {
    KeySumIsSum(a, k, t);
    KeySumIsSum(b, k, t);
    KeySumIsSum(a + b, k, t);
    SumOverConcat(a, b, Contribution(k, t));
  }

  lemma KeySumPermutes(a: seq<Block>, b: seq<Block>, k: Key, t: int)
    requires multiset(a) == multiset(b)
    ensures KeySum(a, k, t) == KeySum(b, k, t)
  {
    KeySumIsSum(a, k, t);
    KeySumIsSum(b, k, t);
    SumOverPermutes(a, b, Contribution(k, t));
  }

  lemma SameRecords(a: seq<Block>, b: seq<Block>)
    requires multiset(a) == multiset(b)
    ensures forall x :: x in a <==> x in b
  {
    forall x ensures x in a <==> x in b {
      assert x in a <==> x in multiset(a);
      assert x in b <==> x in multiset(b);
    }
  }

  /** `m` has the groups of `bs` and in each cell of a group the sum of that cell. */
  ghost predicate IsTableOf(m: Table, bs: seq<Block>) {
    && Groups(m, bs)
    && forall k, t :: k in m && 0 <= t < |m[k].data| ==> m[k].data[t] == KeySum(bs, k, t)
  }

  lemma AggregateIsTable(bs: seq<Block>)
    requires Uniform(bs)
    ensures IsTableOf(Aggregate(bs), bs)
  {
    forall k, t | k in Aggregate(bs) && 0 <= t < |Aggregate(bs)[k].data|
      ensures Aggregate(bs)[k].data[t] == KeySum(bs, k, t)
    {
      AggregateSums(bs, k, t);
    }
  }

  lemma TableIsUnique(m: Table, m': Table, bs: seq<Block>)
    requires IsTableOf(m, bs) && IsTableOf(m', bs)
    ensures m == m'
  {
    forall k | k in m || k in m' ensures k in m && k in m' && m[k] == m'[k] {
      var b :| b in bs && KeyOf(b) == k;
      assert m[k].data == m'[k].data;
    }
  }

  /** The result does not depend on the order in which records reach the aggregation. */
  lemma AggregationOrderDoesNotMatter(a: seq<Block>, b: seq<Block>)
    requires multiset(a) == multiset(b) && Uniform(a)
    ensures Uniform(b) && Aggregate(a) == Aggregate(b)
  {
    SameRecords(a, b);
    AggregateIsTable(a);
    AggregateIsTable(b);
    forall k, t ensures KeySum(a, k, t) == KeySum(b, k, t) {
      KeySumPermutes(a, b, k, t);
    }
    TableIsUnique(Aggregate(a), Aggregate(b), b);
  }

  /** Partial results of two parts of the input, combined group by group. */
  function Merge(m1: Table, m2: Table): Table
    requires forall k :: k in m1 && k in m2 ==> |m1[k].data| <= |m2[k].data|
  {
    map k | k in m1.Keys + m2.Keys ::
      if k in m1 && k in m2 then m1[k].(data := AddData(m1[k].data, m2[k].data))
      else if k in m1 then m1[k]
      else m2[k]
  }

  lemma PartsFit(a: seq<Block>, b: seq<Block>)
    requires Uniform(a + b)
    ensures Uniform(a) && Uniform(b)
    ensures forall k :: k in Aggregate(a) && k in Aggregate(b) ==> |Aggregate(a)[k].data| == |Aggregate(b)[k].data|
  {
    assert forall x :: x in a ==> x in a + b;
    assert forall x :: x in b ==> x in a + b;
    forall k | k in Aggregate(a) && k in Aggregate(b)
      ensures |Aggregate(a)[k].data| == |Aggregate(b)[k].data|
    {
      var x :| x in a && KeyOf(x) == k;
      var y :| y in b && KeyOf(y) == k;
    }
  }

  lemma MergedCell(m1: Table, m2: Table, a: seq<Block>, b: seq<Block>, k: Key, t: int)
    requires IsTableOf(m1, a) && IsTableOf(m2, b)
    requires forall j :: j in m1 && j in m2 ==> |m1[j].data| == |m2[j].data|
    requires k in Merge(m1, m2) && 0 <= t < |Merge(m1, m2)[k].data|
    requires k !in m1 ==> KeySum(a, k, t) == 0.0
    requires k !in m2 ==> KeySum(b, k, t) == 0.0
    ensures Merge(m1, m2)[k].data[t] == KeySum(a + b, k, t)
  {
    KeySumConcat(a, b, k, t);
  }

  lemma MergeGroups(m1: Table, m2: Table, a: seq<Block>, b: seq<Block>)
    requires Groups(m1, a) && Groups(m2, b) && Uniform(a + b)
    requires forall j :: j in m1 && j in m2 ==> |m1[j].data| == |m2[j].data|
    ensures Groups(Merge(m1, m2), a + b)
  {
    var m := Merge(m1, m2);
    forall k | k in m ensures HasKey(a + b, k) {
      var x :| x in a + b && KeyOf(x) == k;
    }
    forall x | x in a + b
      ensures KeyOf(x) in m && m[KeyOf(x)].rows == x.rows && m[KeyOf(x)].cols == x.cols
      ensures |m[KeyOf(x)].data| == |x.data|
    {
      if KeyOf(x) in m1 {
        var y :| y in a && KeyOf(y) == KeyOf(x);
        assert y in a + b;
      }
    }
  }

  /** Nor does it depend on how the input is grouped into partial aggregations. */
  lemma AggregationGroupingDoesNotMatter(a: seq<Block>, b: seq<Block>)
    requires Uniform(a + b)
    ensures Uniform(a) && Uniform(b)
    ensures forall k :: k in Aggregate(a) && k in Aggregate(b) ==> |Aggregate(a)[k].data| <= |Aggregate(b)[k].data|
    ensures Merge(Aggregate(a), Aggregate(b)) == Aggregate(a + b)
  {
    PartsFit(a, b);
    var m1, m2 := Aggregate(a), Aggregate(b);
    AggregateIsTable(a);
    AggregateIsTable(b);
    AggregateIsTable(a + b);
    MergeGroups(m1, m2, a, b);
    forall k, t | k in Merge(m1, m2) && 0 <= t < |Merge(m1, m2)[k].data|
      ensures Merge(m1, m2)[k].data[t] == KeySum(a + b, k, t)
    {
      AggregateSums(a, k, t);
      AggregateSums(b, k, t);
      MergedCell(m1, m2, a, b, k, t);
    }
    TableIsUnique(Merge(m1, m2), Aggregate(a + b), a + b);
  }

  lemma PrefixUniform(bs: seq<Block>, i: nat)
    requires Uniform(bs) && i <= |bs|
    ensures Uniform(bs[..i])
  {
  }

  lemma NextAccepted(bs: seq<Block>, i: nat)
    requires i < |bs| && Uniform(bs) && Uniform(bs[..i])
    ensures Accepts(Aggregate(bs[..i]), bs[i])
  {
    if KeyOf(bs[i]) in Aggregate(bs[..i]) {
      var x :| x in bs[..i] && KeyOf(x) == KeyOf(bs[i]);
      assert x in bs && bs[i] in bs;
    }
  }

  lemma AggregateStep(bs: seq<Block>, i: nat)
    requires Uniform(bs) && i < |bs|
    ensures Uniform(bs[..i]) && Uniform(bs[..i + 1]) && Accepts(Aggregate(bs[..i]), bs[i])
    ensures Aggregate(bs[..i + 1]) == Absorb(Aggregate(bs[..i]), bs[i])
  {
    PrefixUniform(bs, i);
    PrefixUniform(bs, i + 1);
    NextAccepted(bs, i);
    var longer := bs[..i + 1];
    assert longer[..|longer| - 1] == bs[..i] && longer[|longer| - 1] == bs[i];
  }

  /** The aggregation as it runs: one record after the other. */
  method AggregateAll(bs: seq<Block>) returns (m: Table)
    requires Uniform(bs)
    ensures IsTableOf(m, bs)
  {
    m := map[];
    for i := 0 to |bs|
      invariant Uniform(bs[..i]) && m == Aggregate(bs[..i])
    {
      AggregateStep(bs, i);
      m := Absorb(m, bs[i]);
    }
    assert bs[..|bs|] == bs;
    AggregateIsTable(bs);
  }
}
