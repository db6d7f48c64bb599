/** Transactions as the export service and the chart see them, and sums over them. */
module Transactions {
  import opened Wrappers

  datatype Kind = Expense | Income
  datatype Importance = Essential | Wants | Extra

  /** A transaction with its joined category name (`''` when it has no category).
      Amounts are whole numbers. */
  datatype Txn = Txn(kind: Kind, amount: int, categoryName: string, importance: Option<Importance>)

  /** `t.type` as the source spells it. */
  function KindName(k: Kind): (s: string)
    ensures s == "expense" || s == "income"
  {
    match k
    case Expense => "expense"
    case Income => "income"
  }

  /** The sum of the amounts, `reduce((sum, t) => sum + t.amount, 0)`. */
  function Sum(ts: seq<Txn>): int
  {
    if |ts| == 0 then 0 else ts[0].amount + Sum(ts[1..])
  }

  /** `filter(t => t.type === k)`, order kept. */
  function OfKind(ts: seq<Txn>, k: Kind): (r: seq<Txn>)
    ensures |r| <= |ts|
  {
    if |ts| == 0 then []
    else (if ts[0].kind == k then [ts[0]] else []) + OfKind(ts[1..], k)
  }

  /** The filter keeps exactly the transactions of the type. */
  lemma {:induction false} OfKindMembers(ts: seq<Txn>, k: Kind)
    ensures forall t :: t in OfKind(ts, k) <==> t in ts && t.kind == k
  {
    if |ts| > 0 {
      OfKindMembers(ts[1..], k);
      assert ts == [ts[0]] + ts[1..];
    }
  }

  /** The filter keeps every copy of a transaction of the type and no copy of any other. */
  lemma {:induction false} OfKindCounts(ts: seq<Txn>, k: Kind)
    ensures forall t :: multiset(OfKind(ts, k))[t] == if t.kind == k then multiset(ts)[t] else 0
  {
    if |ts| > 0 {
      OfKindCounts(ts[1..], k);
      assert ts == [ts[0]] + ts[1..];
      var h := if ts[0].kind == k then [ts[0]] else [];
      assert multiset(ts) == multiset([ts[0]]) + multiset(ts[1..]);
      assert multiset(OfKind(ts, k)) == multiset(h) + multiset(OfKind(ts[1..], k));
    }
  }

  lemma {:induction false} SumAppend(a: seq<Txn>, b: seq<Txn>)
    ensures Sum(a + b) == Sum(a) + Sum(b)
  {
    if |a| > 0 {
      assert (a + b)[1..] == a[1..] + b;
      SumAppend(a[1..], b);
    } else {
      assert a + b == b;
    }
  }

  lemma {:induction false} OfKindAppend(a: seq<Txn>, b: seq<Txn>, k: Kind)
    ensures OfKind(a + b, k) == OfKind(a, k) + OfKind(b, k)
  {
    if |a| > 0 {
      var h := if a[0].kind == k then [a[0]] else [];
      assert (a + b)[0] == a[0];
      assert (a + b)[1..] == a[1..] + b;
      OfKindAppend(a[1..], b, k);
      assert OfKind(a + b, k) == h + (OfKind(a[1..], k) + OfKind(b, k));
      assert OfKind(a, k) == h + OfKind(a[1..], k);
    } else {
      assert a + b == b;
    }
  }

  /** Every transaction is an income or an expense, so the two kind totals make up the
      whole sum. */
  lemma {:induction false} KindsPartition(ts: seq<Txn>)
    ensures Sum(OfKind(ts, Income)) + Sum(OfKind(ts, Expense)) == Sum(ts)
  {
    if |ts| > 0 {
      KindsPartition(ts[1..]);
      var h := [ts[0]];
      assert OfKind(ts, Income) == (if ts[0].kind == Income then h else []) + OfKind(ts[1..], Income);
      assert OfKind(ts, Expense) == (if ts[0].kind == Expense then h else []) + OfKind(ts[1..], Expense);
      SumAppend(if ts[0].kind == Income then h else [], OfKind(ts[1..], Income));
      SumAppend(if ts[0].kind == Expense then h else [], OfKind(ts[1..], Expense));
    }
  }

  // ---------------------------------------------------------------------------
  // Totals per key, the `acc[key] = (acc[key] || 0) + t.amount` idiom
  // ---------------------------------------------------------------------------

  /** `transaction.category?.name || 'Unknown'`. */
  function CategoryLabel(t: Txn): (s: string)
    ensures s != ""
  {
    if t.categoryName == "" then "Unknown" else t.categoryName
  }

  /** `categoryTotals[categoryName]`: the chart's key. */
  function ByName(t: Txn): string
  {
    t.categoryName
  }

  /** `` `${categoryName}_${transaction.type}` ``: the export's key. */
  function ByNameAndType(t: Txn): string
  {
    CategoryLabel(t) + "_" + KindName(t.kind)
  }

  /** One accumulated total. */
  datatype Bucket = Bucket(key: string, total: int)

  /** The transactions whose key is `k`, order kept. */
  function Matching(ts: seq<Txn>, keyOf: Txn -> string, k: string): seq<Txn>
  {
    if |ts| == 0 then []
    else (if keyOf(ts[0]) == k then [ts[0]] else []) + Matching(ts[1..], keyOf, k)
  }

  /** Where the bucket for `k` is, or -1. */
  function Find(bs: seq<Bucket>, k: string): (i: int)
    ensures -1 <= i < |bs|
    ensures i >= 0 ==> bs[i].key == k
    ensures i < 0 ==> forall j :: 0 <= j < |bs| ==> bs[j].key != k
  {
    if |bs| == 0 then -1
    else if bs[|bs| - 1].key == k then |bs| - 1
    else Find(bs[..|bs| - 1], k)
  }

  /** Adds one transaction: to its bucket if there is one, else in a new bucket at the end. */
  function AddTo(bs: seq<Bucket>, keyOf: Txn -> string, t: Txn): seq<Bucket>
  {
    var k := keyOf(t);
    var i := Find(bs, k);
    if i < 0 then bs + [Bucket(k, t.amount)]
    else bs[i := Bucket(k, bs[i].total + t.amount)]
  }

  /** The buckets after folding the transactions in order. */
  function Totals(ts: seq<Txn>, keyOf: Txn -> string): seq<Bucket>
  {
    if |ts| == 0 then [] else AddTo(Totals(ts[..|ts| - 1], keyOf), keyOf, ts[|ts| - 1])
  }

  /** No two buckets share a key. */
  predicate DistinctKeys(bs: seq<Bucket>)
  {
    forall i, j :: 0 <= i < j < |bs| ==> bs[i].key != bs[j].key
  }

  /** The sum of the bucket totals. */
  function SumTotals(bs: seq<Bucket>): int
  {
    if |bs| == 0 then 0 else bs[0].total + SumTotals(bs[1..])
  }

  lemma {:induction false} MatchingSnoc(ts: seq<Txn>, keyOf: Txn -> string, k: string, t: Txn)
    ensures Matching(ts + [t], keyOf, k) == Matching(ts, keyOf, k) + (if keyOf(t) == k then [t] else [])
  {
    var tail := if keyOf(t) == k then [t] else [];
    if |ts| == 0 {
      assert ts + [t] == [t];
      assert Matching([t], keyOf, k) == tail + Matching([], keyOf, k);
    } else {
      var head := if keyOf(ts[0]) == k then [ts[0]] else [];
      assert (ts + [t])[0] == ts[0];
      assert (ts + [t])[1..] == ts[1..] + [t];
      MatchingSnoc(ts[1..], keyOf, k, t);
      assert Matching(ts + [t], keyOf, k) == head + (Matching(ts[1..], keyOf, k) + tail);
      assert Matching(ts, keyOf, k) == head + Matching(ts[1..], keyOf, k);
    }
  }

  lemma {:induction false} MatchingNone(ts: seq<Txn>, keyOf: Txn -> string, k: string)
    requires forall i :: 0 <= i < |ts| ==> keyOf(ts[i]) != k
    ensures Matching(ts, keyOf, k) == []
  {
    if |ts| > 0 {
      MatchingNone(ts[1..], keyOf, k);
    }
  }

  lemma {:induction false} SumTotalsSnoc(bs: seq<Bucket>, b: Bucket)
    ensures SumTotals(bs + [b]) == SumTotals(bs) + b.total
  {
    if |bs| == 0 {
      assert bs + [b] == [b];
    } else {
      assert (bs + [b])[1..] == bs[1..] + [b];
      SumTotalsSnoc(bs[1..], b);
    }
  }

  lemma {:induction false} SumTotalsUpdate(bs: seq<Bucket>, i: int, b: Bucket)
    requires 0 <= i < |bs|
    ensures SumTotals(bs[i := b]) == SumTotals(bs) - bs[i].total + b.total
  {
    if i > 0 {
      assert bs[i := b][1..] == bs[1..][i - 1 := b];
      SumTotalsUpdate(bs[1..], i - 1, b);
    } else {
      assert bs[i := b][1..] == bs[1..];
    }
  }

  /** A key occurs among the transactions. */
  predicate Occurs(ts: seq<Txn>, keyOf: Txn -> string, k: string)
  {
    exists j :: 0 <= j < |ts| && keyOf(ts[j]) == k
  }

  /** Every transaction's key has a bucket. */
  predicate Covers(bs: seq<Bucket>, ts: seq<Txn>, keyOf: Txn -> string)
  {
    forall i :: 0 <= i < |ts| ==> Find(bs, keyOf(ts[i])) >= 0
  }

  /** Every bucket holds the sum of exactly the transactions with its key. */
  predicate TotalsRight(bs: seq<Bucket>, ts: seq<Txn>, keyOf: Txn -> string)
  {
    forall i :: 0 <= i < |bs| ==> bs[i].total == Sum(Matching(ts, keyOf, bs[i].key))
  }

  /** Every bucket's key occurs among the transactions. */
  predicate OnlyOccurring(bs: seq<Bucket>, ts: seq<Txn>, keyOf: Txn -> string)
  {
    forall i :: 0 <= i < |bs| ==> Occurs(ts, keyOf, bs[i].key)
  }

  lemma AddToDistinct(bs: seq<Bucket>, keyOf: Txn -> string, t: Txn)
    requires DistinctKeys(bs)
    ensures DistinctKeys(AddTo(bs, keyOf, t))
  {
  }

  lemma AddToSum(bs: seq<Bucket>, keyOf: Txn -> string, t: Txn)
    ensures SumTotals(AddTo(bs, keyOf, t)) == SumTotals(bs) + t.amount
  {
    var k := keyOf(t);
    var i := Find(bs, k);
    if i < 0 {
      SumTotalsSnoc(bs, Bucket(k, t.amount));
    } else {
      SumTotalsUpdate(bs, i, Bucket(k, bs[i].total + t.amount));
    }
  }

  lemma AddToCovers(bs: seq<Bucket>, p: seq<Txn>, keyOf: Txn -> string, t: Txn)
    requires Covers(bs, p, keyOf)
    ensures Covers(AddTo(bs, keyOf, t), p + [t], keyOf)
  {
    var ts, r := p + [t], AddTo(bs, keyOf, t);
    var k := keyOf(t);
    var i := Find(bs, k);
    forall j | 0 <= j < |ts| ensures Find(r, keyOf(ts[j])) >= 0 {
      if j < |p| {
        assert ts[j] == p[j];
        var f := Find(bs, keyOf(p[j]));
        assert r[f].key == keyOf(ts[j]);
      } else {
        assert ts[j] == t;
        if i < 0 {
          assert r[|bs|].key == k;
        } else {
          assert r[i].key == k;
        }
      }
    }
  }

  lemma AddToOccurring(bs: seq<Bucket>, p: seq<Txn>, keyOf: Txn -> string, t: Txn)
    requires OnlyOccurring(bs, p, keyOf)
    ensures OnlyOccurring(AddTo(bs, keyOf, t), p + [t], keyOf)
  {
    var ts, r := p + [t], AddTo(bs, keyOf, t);
    assert keyOf(ts[|p|]) == keyOf(t);
    forall b | 0 <= b < |r| ensures Occurs(ts, keyOf, r[b].key) {
      if b < |bs| && r[b].key == bs[b].key {
        var j :| 0 <= j < |p| && keyOf(p[j]) == bs[b].key;
        assert ts[j] == p[j];
      }
    }
  }

  lemma SumMatchingSnoc(p: seq<Txn>, keyOf: Txn -> string, t: Txn, c: string)
    ensures Sum(Matching(p + [t], keyOf, c))
         == Sum(Matching(p, keyOf, c)) + (if keyOf(t) == c then t.amount else 0)
  {
    MatchingSnoc(p, keyOf, c, t);
    SumAppend(Matching(p, keyOf, c), if keyOf(t) == c then [t] else []);
    assert Sum([t]) == t.amount;
  }

  lemma AddToTotals(bs: seq<Bucket>, p: seq<Txn>, keyOf: Txn -> string, t: Txn)
    requires DistinctKeys(bs) && Covers(bs, p, keyOf) && TotalsRight(bs, p, keyOf)
    ensures TotalsRight(AddTo(bs, keyOf, t), p + [t], keyOf)
  {
    var ts, r := p + [t], AddTo(bs, keyOf, t);
    var k := keyOf(t);
    var i := Find(bs, k);
    forall b | 0 <= b < |r| ensures r[b].total == Sum(Matching(ts, keyOf, r[b].key)) {
      SumMatchingSnoc(p, keyOf, t, r[b].key);
      if i < 0 && b == |bs| {
        forall j | 0 <= j < |p| ensures keyOf(p[j]) != k {
          assert Find(bs, keyOf(p[j])) >= 0;
        }
        MatchingNone(p, keyOf, k);
      }
    }
  }

  /** Folding keeps the keys distinct and gives every transaction's key a bucket. */
  lemma {:induction false} TotalsCover(ts: seq<Txn>, keyOf: Txn -> string)
    ensures DistinctKeys(Totals(ts, keyOf)) && Covers(Totals(ts, keyOf), ts, keyOf)
    decreases |ts|
  {
    if |ts| > 0 {
      var p, t := ts[..|ts| - 1], ts[|ts| - 1];
      assert ts == p + [t];
      TotalsCover(p, keyOf);
      AddToDistinct(Totals(p, keyOf), keyOf, t);
      AddToCovers(Totals(p, keyOf), p, keyOf, t);
    }
  }

  /** Folding makes a bucket only for a key that occurs. */
  lemma {:induction false} TotalsOnlyOccurring(ts: seq<Txn>, keyOf: Txn -> string)
    ensures OnlyOccurring(Totals(ts, keyOf), ts, keyOf)
    decreases |ts|
  {
    if |ts| > 0 {
      var p, t := ts[..|ts| - 1], ts[|ts| - 1];
      assert ts == p + [t];
      TotalsOnlyOccurring(p, keyOf);
      AddToOccurring(Totals(p, keyOf), p, keyOf, t);
    }
  }

  /** Each bucket holds the sum of exactly the transactions with its key. */
  lemma {:induction false} TotalsSums(ts: seq<Txn>, keyOf: Txn -> string)
    ensures TotalsRight(Totals(ts, keyOf), ts, keyOf)
    decreases |ts|
  {
    if |ts| > 0 {
      var p, t := ts[..|ts| - 1], ts[|ts| - 1];
      assert ts == p + [t];
      TotalsSums(p, keyOf);
      TotalsCover(p, keyOf);
      AddToTotals(Totals(p, keyOf), p, keyOf, t);
    }
  }

  /** The buckets together hold the sum of all transactions. */
  lemma {:induction false} TotalsConserve(ts: seq<Txn>, keyOf: Txn -> string)
    ensures SumTotals(Totals(ts, keyOf)) == Sum(ts)
    decreases |ts|
  {
    if |ts| > 0 {
      var p, t := ts[..|ts| - 1], ts[|ts| - 1];
      assert ts == p + [t];
      TotalsConserve(p, keyOf);
      AddToSum(Totals(p, keyOf), keyOf, t);
      SumAppend(p, [t]);
      assert Sum([t]) == t.amount;
    }
  }

  /** What folding in order builds: one bucket per key that occurs, no key twice, each
      bucket holding the sum of exactly the transactions with its key, and all buckets
      together the sum of all transactions. */
  lemma TotalsSpec(ts: seq<Txn>, keyOf: Txn -> string)
    ensures var bs := Totals(ts, keyOf);
      && DistinctKeys(bs)
      && TotalsRight(bs, ts, keyOf)
      && Covers(bs, ts, keyOf)
      && OnlyOccurring(bs, ts, keyOf)
      && SumTotals(bs) == Sum(ts)
  {
    TotalsCover(ts, keyOf);
    TotalsOnlyOccurring(ts, keyOf);
    TotalsSums(ts, keyOf);
    TotalsConserve(ts, keyOf);
  }

  // ---------------------------------------------------------------------------
  // Insertion order
  // ---------------------------------------------------------------------------

  /** Where key `k` first occurs, or `|ts|`. */
  function FirstIndex(ts: seq<Txn>, keyOf: Txn -> string, k: string): (n: nat)
    ensures n <= |ts|
    ensures n < |ts| ==> keyOf(ts[n]) == k
  {
    if |ts| == 0 then 0
    else if keyOf(ts[0]) == k then 0
    else 1 + FirstIndex(ts[1..], keyOf, k)
  }

  /** No earlier transaction has the key, so `FirstIndex` is `|ts|` exactly when the key
      does not occur. */
  lemma {:induction false} FirstIndexIsFirst(ts: seq<Txn>, keyOf: Txn -> string, k: string)
    ensures forall j :: 0 <= j < FirstIndex(ts, keyOf, k) ==> keyOf(ts[j]) != k
    ensures FirstIndex(ts, keyOf, k) < |ts| <==> Occurs(ts, keyOf, k)
  {
    if |ts| > 0 && keyOf(ts[0]) != k {
      FirstIndexIsFirst(ts[1..], keyOf, k);
      assert forall j :: 1 <= j < |ts| ==> ts[j] == ts[1..][j - 1];
    }
  }

  lemma FirstIndexSnoc(p: seq<Txn>, keyOf: Txn -> string, t: Txn, k: string)
    ensures FirstIndex(p + [t], keyOf, k) ==
      if FirstIndex(p, keyOf, k) < |p| then FirstIndex(p, keyOf, k)
      else if keyOf(t) == k then |p|
      else |p| + 1
  {
    var ts := p + [t];
    FirstIndexIsFirst(p, keyOf, k);
    FirstIndexIsFirst(ts, keyOf, k);
    assert forall j :: 0 <= j < |p| ==> ts[j] == p[j];
    assert ts[|p|] == t;
  }

  /** Adding a transaction keeps the existing keys where they are and at most appends
      the transaction's key, which then was not there before. */
  lemma AddToKeys(bs: seq<Bucket>, keyOf: Txn -> string, t: Txn)
    ensures var r := AddTo(bs, keyOf, t);
      && (|r| == |bs| || (|r| == |bs| + 1 && r[|bs|].key == keyOf(t) && Find(bs, keyOf(t)) < 0))
      && (forall i :: 0 <= i < |bs| ==> r[i].key == bs[i].key)
  {
  }

  /** Appending a transaction moves no key's first occurrence, for keys already met. */
  lemma KeptIndices(bs: seq<Bucket>, p: seq<Txn>, keyOf: Txn -> string, t: Txn)
    requires OnlyOccurring(bs, p, keyOf)
    ensures forall i :: 0 <= i < |bs| ==> FirstIndex(p + [t], keyOf, bs[i].key) == FirstIndex(p, keyOf, bs[i].key) < |p|
  {
    forall i | 0 <= i < |bs| ensures FirstIndex(p + [t], keyOf, bs[i].key) == FirstIndex(p, keyOf, bs[i].key) < |p| {
      assert Occurs(p, keyOf, bs[i].key);
      FirstIndexIsFirst(p, keyOf, bs[i].key);
      FirstIndexSnoc(p, keyOf, t, bs[i].key);
    }
  }

  /** A key without a bucket first occurs in the transaction appended. */
  lemma NewIndex(bs: seq<Bucket>, p: seq<Txn>, keyOf: Txn -> string, t: Txn)
    requires Covers(bs, p, keyOf) && Find(bs, keyOf(t)) < 0
    ensures FirstIndex(p + [t], keyOf, keyOf(t)) == |p|
  {
    assert !Occurs(p, keyOf, keyOf(t)) by {
      forall j | 0 <= j < |p| ensures keyOf(p[j]) != keyOf(t) {
        assert Find(bs, keyOf(p[j])) >= 0;
      }
    }
    FirstIndexIsFirst(p, keyOf, keyOf(t));
    FirstIndexSnoc(p, keyOf, t, keyOf(t));
  }

  /** The buckets stand in the order their keys first occur: a key is added at the end
      the first time it is met and never moves afterwards. */
  lemma {:induction false} TotalsFirstOccurrence(ts: seq<Txn>, keyOf: Txn -> string)
    ensures forall i, j :: 0 <= i < j < |Totals(ts, keyOf)| ==>
      FirstIndex(ts, keyOf, Totals(ts, keyOf)[i].key) < FirstIndex(ts, keyOf, Totals(ts, keyOf)[j].key)
    decreases |ts|
  {
    if |ts| > 0 {
      var p, t := ts[..|ts| - 1], ts[|ts| - 1];
      assert ts == p + [t];
      var bs, r := Totals(p, keyOf), Totals(ts, keyOf);
      TotalsFirstOccurrence(p, keyOf);
      assert r == AddTo(bs, keyOf, t);
      AddToKeys(bs, keyOf, t);
      TotalsOnlyOccurring(p, keyOf);
      KeptIndices(bs, p, keyOf, t);
      if |r| > |bs| {
        TotalsCover(p, keyOf);
        NewIndex(bs, p, keyOf, t);
      }
      forall i, j | 0 <= i < j < |r|
        ensures FirstIndex(ts, keyOf, r[i].key) < FirstIndex(ts, keyOf, r[j].key)
      {
        if j < |bs| {
          assert FirstIndex(p, keyOf, bs[i].key) < FirstIndex(p, keyOf, bs[j].key);
        } else {
          assert FirstIndex(ts, keyOf, r[j].key) == |p|;
        }
      }
    }
  }
}
