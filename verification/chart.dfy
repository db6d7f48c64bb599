/** The aggregations behind `ExpenseChart` (`src/components/ExpenseChart.tsx`):
    `processData`'s per-category totals with their colours, and the bar chart's totals
    per importance level. */
module Chart {
  import opened Wrappers
  import opened Strings
  import opened Transactions

  datatype ChartKind = Pie | Bar | Line

  /** A transaction is counted when it has a category name and, except on the pie
      chart, is an expense. */
  predicate Contributes(kind: ChartKind, t: Txn)
  {
    t.categoryName != "" && (kind == Pie || t.kind == Expense)
  }

  function Contributing(ts: seq<Txn>, kind: ChartKind): (r: seq<Txn>)
    ensures forall i :: 0 <= i < |r| ==> Contributes(kind, r[i]) && r[i] in ts
    ensures forall t :: t in ts && Contributes(kind, t) ==> t in r
  {
    if |ts| == 0 then []
    else (if Contributes(kind, ts[0]) then [ts[0]] else []) + Contributing(ts[1..], kind)
  }

  /** The filter keeps every copy of a counted transaction and no copy of any other. */
  lemma {:induction false} ContributingCounts(ts: seq<Txn>, kind: ChartKind)
    ensures forall t :: multiset(Contributing(ts, kind))[t] == if Contributes(kind, t) then multiset(ts)[t] else 0
  {
    if |ts| > 0 {
      ContributingCounts(ts[1..], kind);
      assert ts == [ts[0]] + ts[1..];
      var h := if Contributes(kind, ts[0]) then [ts[0]] else [];
      assert multiset(ts) == multiset([ts[0]]) + multiset(ts[1..]);
      assert multiset(Contributing(ts, kind)) == multiset(h) + multiset(Contributing(ts[1..], kind));
    }
  }

  lemma {:induction false} ContributingNone(ts: seq<Txn>, kind: ChartKind)
    requires forall t :: t in ts ==> !Contributes(kind, t)
    ensures Contributing(ts, kind) == []
  {
    if |ts| > 0 {
      assert ts[0] in ts;
      assert forall t :: t in ts[1..] ==> t in ts;
      ContributingNone(ts[1..], kind);
    }
  }

  // ---------------------------------------------------------------------------
  // Object.entries order
  // ---------------------------------------------------------------------------

  /** A property name that is an array index: the canonical decimal form of a number
      below 2^32 - 1. `Object.entries` lists such names first, in increasing numeric
      order, and all other names in the order they were added. */
  predicate IsArrayIndex(s: string)
  {
    && |s| >= 1
    && (forall i :: 0 <= i < |s| ==> '0' <= s[i] <= '9')
    && (s[0] != '0' || |s| == 1)
    && RadixValue(s, 10) < 0xFFFF_FFFF
  }

  function IndexKeyed(bs: seq<Bucket>): (r: seq<Bucket>)
    ensures forall i :: 0 <= i < |r| ==> IsArrayIndex(r[i].key)
  {
    if |bs| == 0 then []
    else (if IsArrayIndex(bs[0].key) then [bs[0]] else []) + IndexKeyed(bs[1..])
  }

  function NameKeyed(bs: seq<Bucket>): (r: seq<Bucket>)
    ensures forall i :: 0 <= i < |r| ==> !IsArrayIndex(r[i].key)
  {
    if |bs| == 0 then []
    else (if IsArrayIndex(bs[0].key) then [] else [bs[0]]) + NameKeyed(bs[1..])
  }

  lemma {:induction false} SplitByKeyKind(bs: seq<Bucket>)
    ensures multiset(IndexKeyed(bs)) + multiset(NameKeyed(bs)) == multiset(bs)
  {
    if |bs| > 0 {
      SplitByKeyKind(bs[1..]);
      assert bs == [bs[0]] + bs[1..];
    }
  }

  lemma {:induction false} NameKeyedAll(bs: seq<Bucket>)
    requires forall i :: 0 <= i < |bs| ==> !IsArrayIndex(bs[i].key)
    ensures NameKeyed(bs) == bs && IndexKeyed(bs) == []
  {
    if |bs| > 0 {
      NameKeyedAll(bs[1..]);
      assert bs == [bs[0]] + bs[1..];
    }
  }

  function IndexOf(b: Bucket): nat
  {
    RadixValue(b.key, 10)
  }

  /** Inserts before the first bucket with a larger index. */
  function InsertByIndex(b: Bucket, bs: seq<Bucket>): (r: seq<Bucket>)
    ensures |r| == |bs| + 1
    ensures r[0] == b || (|bs| > 0 && r[0] == bs[0])
    ensures multiset(r) == multiset(bs) + multiset{b}
  {
    if |bs| == 0 || IndexOf(b) <= IndexOf(bs[0]) then
      [b] + bs
    else
      assert bs == [bs[0]] + bs[1..];
      [bs[0]] + InsertByIndex(b, bs[1..])
  }

  /** Each index is at most the next one. */
  predicate IndexAscending(bs: seq<Bucket>)
  {
    forall i :: 0 <= i < |bs| - 1 ==> IndexOf(bs[i]) <= IndexOf(bs[i + 1])
  }

  lemma {:induction false} InsertByIndexAscending(b: Bucket, bs: seq<Bucket>)
    requires IndexAscending(bs)
    ensures IndexAscending(InsertByIndex(b, bs))
  {
    if |bs| > 0 && IndexOf(b) > IndexOf(bs[0]) {
      var rest := InsertByIndex(b, bs[1..]);
      InsertByIndexAscending(b, bs[1..]);
      var r := InsertByIndex(b, bs);
      assert r == [bs[0]] + rest;
      forall i | 0 <= i < |r| - 1 ensures IndexOf(r[i]) <= IndexOf(r[i + 1]) {
        if i > 0 {
          assert r[i] == rest[i - 1] && r[i + 1] == rest[i];
        }
      }
    }
  }

  function SortByIndex(bs: seq<Bucket>): (r: seq<Bucket>)
    ensures |r| == |bs|
    ensures multiset(r) == multiset(bs)
    ensures IndexAscending(r)
  {
    if |bs| == 0 then []
    else
      assert bs == [bs[0]] + bs[1..];
      InsertByIndexAscending(bs[0], SortByIndex(bs[1..]));
      InsertByIndex(bs[0], SortByIndex(bs[1..]))
  }

  /** `Object.entries` of an object whose own properties were added in the order of `bs`. */
  function Entries(bs: seq<Bucket>): seq<Bucket>
  {
    SortByIndex(IndexKeyed(bs)) + NameKeyed(bs)
  }

  /** `Object.entries` lists every property once; array-index names come first, in
      increasing numeric order, and the other names keep the order they were added in. */
  lemma EntriesSpec(bs: seq<Bucket>)
    ensures var es := Entries(bs);
      && multiset(es) == multiset(bs)
      && (forall i, j :: 0 <= i < j < |es| && IsArrayIndex(es[j].key) ==> IsArrayIndex(es[i].key))
      && |IndexKeyed(bs)| <= |es|
      && IndexAscending(es[..|IndexKeyed(bs)|])
      && es[|IndexKeyed(bs)|..] == NameKeyed(bs)
  {
    var es := Entries(bs);
    var sorted := SortByIndex(IndexKeyed(bs));
    SplitByKeyKind(bs);
    assert es[..|sorted|] == sorted;
    forall i, j | 0 <= i < j < |es| && IsArrayIndex(es[j].key) ensures IsArrayIndex(es[i].key) {
      assert j < |sorted|;
      assert es[i] == sorted[i];
      assert sorted[i] in multiset(IndexKeyed(bs));
    }
  }

  /** With no array-index names, `Object.entries` is the insertion order. */
  lemma EntriesInsertionOrder(bs: seq<Bucket>)
    requires forall i :: 0 <= i < |bs| ==> !IsArrayIndex(bs[i].key)
    ensures Entries(bs) == bs
  {
    NameKeyedAll(bs);
  }

  // ---------------------------------------------------------------------------
  // Permutations of buckets
  // ---------------------------------------------------------------------------

  lemma {:induction false} AtMostOnce(a: seq<Bucket>, x: Bucket)
    requires DistinctKeys(a)
    ensures multiset(a)[x] <= 1
  {
    if |a| > 0 {
      assert a == [a[0]] + a[1..];
      AtMostOnce(a[1..], x);
      if a[0] == x {
        assert forall j :: 0 <= j < |a[1..]| ==> a[1..][j] == a[j + 1];
        assert x !in a[1..];
      }
    }
  }

  lemma Twice(b: seq<Bucket>, i: int, j: int)
    requires 0 <= i < j < |b| && b[i] == b[j]
    ensures multiset(b)[b[i]] >= 2
  {
    assert b == b[..j] + [b[j]] + b[j + 1..];
    assert b[i] == b[..j][i];
    assert b[i] in multiset(b[..j]);
  }

  /** Reordering keeps keys distinct. */
  lemma PermutationKeepsDistinct(a: seq<Bucket>, b: seq<Bucket>)
    requires multiset(a) == multiset(b) && DistinctKeys(a)
    ensures DistinctKeys(b)
  {
    forall i, j | 0 <= i < j < |b| ensures b[i].key != b[j].key {
      if b[i] == b[j] {
        Twice(b, i, j);
        AtMostOnce(a, b[i]);
        assert false;
      } else {
        assert b[i] in multiset(a) && b[j] in multiset(a);
        var p :| 0 <= p < |a| && a[p] == b[i];
        var q :| 0 <= q < |a| && a[q] == b[j];
        assert p != q;
      }
    }
  }

  lemma {:induction false} SumTotalsAppend(a: seq<Bucket>, b: seq<Bucket>)
    ensures SumTotals(a + b) == SumTotals(a) + SumTotals(b)
  {
    if |a| > 0 {
      assert (a + b)[1..] == a[1..] + b;
      SumTotalsAppend(a[1..], b);
    } else {
      assert a + b == b;
    }
  }

  /** Taking out the bucket at `p` takes it out of the multiset ... */
  lemma RemoveAtMultiset(b: seq<Bucket>, p: int)
    requires 0 <= p < |b|
    ensures multiset(b[..p] + b[p + 1..]) == multiset(b) - multiset{b[p]}
  {
    var l, r := b[..p], b[p + 1..];
    assert b == (l + [b[p]]) + r;
    assert multiset(b) == multiset(l) + multiset{b[p]} + multiset(r);
  }

  /** ... and its total out of the sum. */
  lemma RemoveAtSum(b: seq<Bucket>, p: int)
    requires 0 <= p < |b|
    ensures SumTotals(b) == b[p].total + SumTotals(b[..p] + b[p + 1..])
  {
    var l, m, r := b[..p], b[p..], b[p + 1..];
    assert b == l + m;
    assert m[1..] == r;
    SumTotalsAppend(l, m);
    SumTotalsAppend(l, r);
  }

  /** Reordering keeps the sum of the totals. */
  lemma {:induction false} PermutationKeepsSum(a: seq<Bucket>, b: seq<Bucket>)
    requires multiset(a) == multiset(b)
    ensures SumTotals(a) == SumTotals(b)
    decreases |a|
  {
    if |a| == 0 {
      assert |multiset(b)| == 0;
    } else {
      assert a == [a[0]] + a[1..];
      assert multiset(a[1..]) == multiset(a) - multiset{a[0]};
      assert a[0] in multiset(b);
      var p :| 0 <= p < |b| && b[p] == a[0];
      RemoveAtMultiset(b, p);
      RemoveAtSum(b, p);
      PermutationKeepsSum(a[1..], b[..p] + b[p + 1..]);
    }
  }

  // ---------------------------------------------------------------------------
  // processData
  // ---------------------------------------------------------------------------

  const ChartColors: seq<string> := ["#FF6B6B", "#4ECDC4", "#45B7D1", "#96CEB4", "#FFEAA7",
    "#DDA0DD", "#98D8C8", "#F7DC6F", "#BB8FCE", "#85C1E9"]

  /** `{ x: name, y: amount, fill }` */
  datatype Point = Point(x: string, y: int, fill: string)

  /** `categoryTotals`, its properties in the order they were added. */
  function CategoryTotals(ts: seq<Txn>, kind: ChartKind): seq<Bucket>
  {
    Totals(Contributing(ts, kind), ByName)
  }

  function ToPoints(es: seq<Bucket>): (ps: seq<Point>)
    ensures |ps| == |es|
    ensures forall i :: 0 <= i < |es| ==> ps[i] == Point(es[i].key, es[i].total, ChartColors[i % 10])
  {
    seq(|es|, i requires 0 <= i < |es| => Point(es[i].key, es[i].total, ChartColors[i % |ChartColors|]))
  }

  /** `processData()` */
  function ProcessData(ts: seq<Txn>, kind: ChartKind): seq<Point>
  {
    ToPoints(Entries(CategoryTotals(ts, kind)))
  }

  function SumY(ps: seq<Point>): int
  {
    if |ps| == 0 then 0 else ps[0].y + SumY(ps[1..])
  }

  lemma {:induction false} SumYOfPoints(ps: seq<Point>, es: seq<Bucket>)
    requires |ps| == |es| && forall i :: 0 <= i < |es| ==> ps[i].y == es[i].total
    ensures SumY(ps) == SumTotals(es)
  {
    if |es| > 0 {
      SumYOfPoints(ps[1..], es[1..]);
    }
  }

  /** The points are a reordering of the category totals. */
  lemma PointsAreTotals(ts: seq<Txn>, kind: ChartKind)
    ensures var bs, es := CategoryTotals(ts, kind), Entries(CategoryTotals(ts, kind));
      && ProcessData(ts, kind) == ToPoints(es)
      && multiset(es) == multiset(bs)
      && SumY(ProcessData(ts, kind)) == SumTotals(bs)
      && DistinctKeys(es)
  {
    var bs := CategoryTotals(ts, kind);
    var es := Entries(bs);
    EntriesSpec(bs);
    SumYOfPoints(ToPoints(es), es);
    PermutationKeepsSum(es, bs);
    TotalsSpec(Contributing(ts, kind), ByName);
    PermutationKeepsDistinct(bs, es);
  }

  /** No category name has two points. */
  lemma ProcessDataDistinct(ts: seq<Txn>, kind: ChartKind)
    ensures var ps := ProcessData(ts, kind);
      forall i, j :: 0 <= i < j < |ps| ==> ps[i].x != ps[j].x
  {
    PointsAreTotals(ts, kind);
  }

  /** Each point is the category name of a counted transaction, and its `y` is the sum
      of that category's counted amounts. */
  lemma ProcessDataTotals(ts: seq<Txn>, kind: ChartKind)
    ensures var ps, cs := ProcessData(ts, kind), Contributing(ts, kind);
      forall i :: 0 <= i < |ps| ==>
        && ps[i].y == Sum(Matching(cs, ByName, ps[i].x))
        && exists t :: t in ts && Contributes(kind, t) && t.categoryName == ps[i].x
  {
    var cs, bs := Contributing(ts, kind), CategoryTotals(ts, kind);
    var es := Entries(bs);
    PointsAreTotals(ts, kind);
    TotalsSpec(cs, ByName);
    forall i | 0 <= i < |es|
      ensures es[i].total == Sum(Matching(cs, ByName, es[i].key))
      ensures exists t :: t in ts && Contributes(kind, t) && t.categoryName == es[i].key
    {
      assert es[i] in multiset(bs);
      var k :| 0 <= k < |bs| && bs[k] == es[i];
      assert Occurs(cs, ByName, bs[k].key);
      var j :| 0 <= j < |cs| && ByName(cs[j]) == bs[k].key;
      assert cs[j] in ts;
    }
  }

  /** Every bucket has an entry. */
  lemma EntriesKeep(bs: seq<Bucket>, k: int)
    requires 0 <= k < |bs|
    ensures exists i :: 0 <= i < |Entries(bs)| && Entries(bs)[i] == bs[k]
  {
    EntriesSpec(bs);
    assert bs[k] in multiset(Entries(bs));
  }

  lemma EntryOfKey(cs: seq<Txn>, t: Txn)
    requires t in cs
    ensures exists i :: 0 <= i < |Entries(Totals(cs, ByName))| && Entries(Totals(cs, ByName))[i].key == t.categoryName
  {
    var bs := Totals(cs, ByName);
    TotalsSpec(cs, ByName);
    var j :| 0 <= j < |cs| && cs[j] == t;
    EntriesKeep(bs, Find(bs, ByName(cs[j])));
  }

  /** Every counted transaction's category name has a point. */
  lemma ProcessDataCovers(ts: seq<Txn>, kind: ChartKind)
    ensures var ps := ProcessData(ts, kind);
      forall t :: t in ts && Contributes(kind, t) ==> exists i :: 0 <= i < |ps| && ps[i].x == t.categoryName
  {
    var cs := Contributing(ts, kind);
    var es := Entries(Totals(cs, ByName));
    var ps := ProcessData(ts, kind);
    assert ps == ToPoints(es);
    forall t | t in ts && Contributes(kind, t) ensures exists i :: 0 <= i < |ps| && ps[i].x == t.categoryName {
      EntryOfKey(cs, t);
      var i :| 0 <= i < |es| && es[i].key == t.categoryName;
      assert ps[i].x == t.categoryName;
    }
  }

  /** The points together hold every counted amount. */
  lemma ProcessDataConserves(ts: seq<Txn>, kind: ChartKind)
    ensures SumY(ProcessData(ts, kind)) == Sum(Contributing(ts, kind))
  {
    PointsAreTotals(ts, kind);
    TotalsSpec(Contributing(ts, kind), ByName);
  }

  /** The i-th point takes the i-th chart colour, cycling through the ten. */
  lemma PointColors(es: seq<Bucket>)
    ensures var ps := ToPoints(es);
      && (forall i :: 0 <= i < |ps| ==> ps[i].fill == ChartColors[i % 10])
      && (forall i :: 0 <= i < |ps| - 10 ==> ps[i].fill == ps[i + 10].fill)
      && (forall i, j :: 0 <= i < j < |ps| && j < 10 ==> ps[i].fill != ps[j].fill)
  {
    var ps := ToPoints(es);
    forall i | 0 <= i < |ps| - 10 ensures ps[i].fill == ps[i + 10].fill {
      assert (i + 10) % 10 == i % 10;
    }
  }

  /** When no counted category name is an array index, the points stand in the order
      their names first occur among the counted transactions. */
  lemma ProcessDataOrder(ts: seq<Txn>, kind: ChartKind)
    requires forall t :: t in ts && Contributes(kind, t) ==> !IsArrayIndex(t.categoryName)
    ensures var ps, cs := ProcessData(ts, kind), Contributing(ts, kind);
      forall i, j :: 0 <= i < j < |ps| ==> FirstIndex(cs, ByName, ps[i].x) < FirstIndex(cs, ByName, ps[j].x)
  {
    var cs := Contributing(ts, kind);
    var bs := CategoryTotals(ts, kind);
    TotalsSpec(cs, ByName);
    forall i | 0 <= i < |bs| ensures !IsArrayIndex(bs[i].key) {
      assert Occurs(cs, ByName, bs[i].key);
      var j :| 0 <= j < |cs| && ByName(cs[j]) == bs[i].key;
      assert cs[j] in ts;
    }
    EntriesInsertionOrder(bs);
    TotalsFirstOccurrence(cs, ByName);
  }

  /** What the component shows: the chart, or the no-data message when nothing was
      counted. */
  datatype View = NoData(message: string) | Plotted(points: seq<Point>)

  function Render(ts: seq<Txn>, kind: ChartKind): (v: View)
    ensures v.NoData? ==> v.message == "No expense data available"
  {
    var ps := ProcessData(ts, kind);
    if |ps| == 0 then NoData("No expense data available") else Plotted(ps)
  }

  /** The no-data branch is taken exactly when no transaction is counted. */
  lemma RenderNoData(ts: seq<Txn>, kind: ChartKind)
    ensures Render(ts, kind).NoData? <==> forall t :: t in ts ==> !Contributes(kind, t)
  {
    if exists t :: t in ts && Contributes(kind, t) {
      ProcessDataCovers(ts, kind);
    } else {
      ContributingNone(ts, kind);
      PointsAreTotals(ts, kind);
    }
  }

  // ---------------------------------------------------------------------------
  // categoryTotals as written: property lookups reach Object.prototype
  // ---------------------------------------------------------------------------

  /** What `categoryTotals[name]` can hold: a number, or the string `+` makes when one
      side is not a number. */
  datatype Value = Number(n: int) | Text

  datatype Property = Property(name: string, value: Value)

  /** The properties every object literal inherits from `Object.prototype`; reading
      them on `categoryTotals` gives a function (or, for `__proto__`, an object),
      both truthy. */
  const InheritedNames: set<string> := {"constructor", "hasOwnProperty", "isPrototypeOf",
    "propertyIsEnumerable", "toLocaleString", "toString", "valueOf", "__proto__",
    "__defineGetter__", "__defineSetter__", "__lookupGetter__", "__lookupSetter__"}

  /** Where the own property `name` is, or -1. */
  function OwnIndex(props: seq<Property>, name: string): (i: int)
    ensures -1 <= i < |props|
    ensures i >= 0 ==> props[i].name == name
  {
    if |props| == 0 then -1
    else if props[|props| - 1].name == name then |props| - 1
    else OwnIndex(props[..|props| - 1], name)
  }

  /** `categoryTotals[name] = (categoryTotals[name] || 0) + transaction.amount` as the
      language evaluates it: an inherited name reads a truthy non-number, `+` then
      concatenates, and an assignment of a string to `__proto__` is ignored. */
  function AddAsWritten(props: seq<Property>, t: Txn): seq<Property>
  {
    var name := t.categoryName;
    var i := OwnIndex(props, name);
    var prior := if i >= 0 then props[i].value else if name in InheritedNames then Text else Number(0);
    var sum := match prior
      case Number(n) => Number(n + t.amount)
      case Text => Text;
    if i >= 0 then props[i := Property(name, sum)]
    else if name == "__proto__" then props
    else props + [Property(name, sum)]
  }

  function FoldAsWritten(cs: seq<Txn>): seq<Property>
  {
    if |cs| == 0 then [] else AddAsWritten(FoldAsWritten(cs[..|cs| - 1]), cs[|cs| - 1])
  }

  /** The own properties of `categoryTotals` after the loops at lines 22-37. */
  function AccumulateAsWritten(ts: seq<Txn>, kind: ChartKind): seq<Property>
  {
    FoldAsWritten(Contributing(ts, kind))
  }

  function Lift(bs: seq<Bucket>): (ps: seq<Property>)
    ensures |ps| == |bs|
    ensures forall i :: 0 <= i < |bs| ==> ps[i] == Property(bs[i].key, Number(bs[i].total))
  {
    seq(|bs|, i requires 0 <= i < |bs| => Property(bs[i].key, Number(bs[i].total)))
  }

  lemma {:induction false} OwnIndexLift(bs: seq<Bucket>, k: string)
    ensures OwnIndex(Lift(bs), k) == Find(bs, k)
  {
    if |bs| > 0 && bs[|bs| - 1].key != k {
      OwnIndexLift(bs[..|bs| - 1], k);
      assert Lift(bs)[..|bs| - 1] == Lift(bs[..|bs| - 1]);
    }
  }

  lemma AddAsWrittenLift(bs: seq<Bucket>, t: Txn)
    requires t.categoryName !in InheritedNames
    ensures AddAsWritten(Lift(bs), t) == Lift(AddTo(bs, ByName, t))
  {
    OwnIndexLift(bs, t.categoryName);
    var i := Find(bs, t.categoryName);
    if i >= 0 {
      assert Lift(bs)[i := Property(t.categoryName, Number(bs[i].total + t.amount))]
          == Lift(bs[i := Bucket(t.categoryName, bs[i].total + t.amount)]);
    } else {
      assert Lift(bs) + [Property(t.categoryName, Number(t.amount))]
          == Lift(bs + [Bucket(t.categoryName, t.amount)]);
    }
  }

  /** Away from the inherited names the code as written computes the category totals:
      every property is a number, and the properties are the buckets. */
  lemma {:induction false} AsWrittenAgrees(cs: seq<Txn>)
    requires forall i :: 0 <= i < |cs| ==> cs[i].categoryName !in InheritedNames
    ensures FoldAsWritten(cs) == Lift(Totals(cs, ByName))
  {
    if |cs| > 0 {
      var p, t := cs[..|cs| - 1], cs[|cs| - 1];
      assert forall i :: 0 <= i < |p| ==> p[i] == cs[i];
      AsWrittenAgrees(p);
      AddAsWrittenLift(Totals(p, ByName), t);
    }
  }

  /** A category named `constructor` reads `Object` through the prototype: its total
      becomes a string, where the chart should show 50. */
  lemma ConstructorCategoryGarbled()
    ensures var t := Txn(Expense, 50, "constructor", None);
      && AccumulateAsWritten([t], Pie) == [Property("constructor", Text)]
      && ProcessData([t], Pie) == [Point("constructor", 50, "#FF6B6B")]
  {
    var t := Txn(Expense, 50, "constructor", None);
    assert [t][..0] == [];
    assert Contributing([t], Pie) == [t];
    assert "constructor" in InheritedNames;
    assert !IsArrayIndex("constructor");
    EntriesInsertionOrder([Bucket("constructor", 50)]);
  }

  /** A category named `__proto__` disappears from the chart: the assignment to
      `__proto__` does not create a property. */
  lemma ProtoCategoryDropped()
    ensures var t := Txn(Expense, 50, "__proto__", None);
      && AccumulateAsWritten([t], Pie) == []
      && ProcessData([t], Pie) == [Point("__proto__", 50, "#FF6B6B")]
  {
    var t := Txn(Expense, 50, "__proto__", None);
    assert [t][..0] == [];
    assert Contributing([t], Pie) == [t];
    assert "__proto__" in InheritedNames;
    assert !IsArrayIndex("__proto__");
    EntriesInsertionOrder([Bucket("__proto__", 50)]);
  }

  // ---------------------------------------------------------------------------
  // importanceData
  // ---------------------------------------------------------------------------

  /** An entry of `IMPORTANCE_LEVELS`. */
  datatype Level = Level(value: Importance, caption: string, color: string)

  const ImportanceLevels: seq<Level> := [
    Level(Essential, "Essential", "#FF6B6B"),
    Level(Wants, "Wants", "#4ECDC4"),
    Level(Extra, "Extra", "#45B7D1")]

  /** The position of a level in `IMPORTANCE_LEVELS`. */
  function Rank(i: Importance): nat
  {
    match i
    case Essential => 0
    case Wants => 1
    case Extra => 2
  }

  /** The expenses rated `imp`, with or without a category. */
  function Rated(ts: seq<Txn>, imp: Option<Importance>): seq<Txn>
  {
    if |ts| == 0 then []
    else (if ts[0].kind == Expense && ts[0].importance == imp then [ts[0]] else []) + Rated(ts[1..], imp)
  }

  datatype LevelTotal = LevelTotal(level: Level, total: int)

  /** The total of one level, with `.filter(item => item.total > 0)` applied. */
  function Kept(l: Level, ts: seq<Txn>): (r: seq<LevelTotal>)
    ensures |r| <= 1
  {
    var total := Sum(Rated(ts, Some(l.value)));
    if total > 0 then [LevelTotal(l, total)] else []
  }

  /** `importanceData`: the expense total of each level, in level order, keeping only
      the positive ones. */
  function ImportanceData(ts: seq<Txn>): seq<LevelTotal>
  {
    Kept(ImportanceLevels[0], ts) + Kept(ImportanceLevels[1], ts) + Kept(ImportanceLevels[2], ts)
  }

  /** Each bar is a level with a positive total equal to its rated expenses; a level
      has a bar exactly when that total is positive; bars follow the level order. */
  lemma ImportanceDataSpec(ts: seq<Txn>)
    ensures var bars := ImportanceData(ts);
      && (forall b :: b in bars ==> b.level in ImportanceLevels && b.total > 0 && b.total == Sum(Rated(ts, Some(b.level.value))))
      && (forall l :: l in ImportanceLevels ==>
            (LevelTotal(l, Sum(Rated(ts, Some(l.value)))) in bars <==> Sum(Rated(ts, Some(l.value))) > 0))
      && (forall i, j :: 0 <= i < j < |bars| ==> Rank(bars[i].level.value) < Rank(bars[j].level.value))
  {
    var k0, k1, k2 := Kept(ImportanceLevels[0], ts), Kept(ImportanceLevels[1], ts), Kept(ImportanceLevels[2], ts);
    var bars := ImportanceData(ts);
    assert forall b :: b in bars <==> b in k0 || b in k1 || b in k2;
    forall i, j | 0 <= i < j < |bars| ensures Rank(bars[i].level.value) < Rank(bars[j].level.value) {
      assert bars == k0 + k1 + k2;
    }
  }

  lemma {:induction false} RatedMembers(ts: seq<Txn>, imp: Option<Importance>)
    ensures forall t :: t in Rated(ts, imp) <==> t in ts && t.kind == Expense && t.importance == imp
  {
    if |ts| > 0 {
      RatedMembers(ts[1..], imp);
      assert ts == [ts[0]] + ts[1..];
    }
  }

  /** One transaction's share of a level total. */
  lemma RatedCons(ts: seq<Txn>, imp: Option<Importance>)
    requires |ts| > 0
    ensures Sum(Rated(ts, imp)) == (if ts[0].kind == Expense && ts[0].importance == imp then ts[0].amount else 0)
                                   + Sum(Rated(ts[1..], imp))
  {
    var h := if ts[0].kind == Expense && ts[0].importance == imp then [ts[0]] else [];
    assert Rated(ts, imp) == h + Rated(ts[1..], imp);
    SumAppend(h, Rated(ts[1..], imp));
  }

  lemma OfKindCons(ts: seq<Txn>, k: Kind)
    requires |ts| > 0
    ensures Sum(OfKind(ts, k)) == (if ts[0].kind == k then ts[0].amount else 0) + Sum(OfKind(ts[1..], k))
  {
    var h := if ts[0].kind == k then [ts[0]] else [];
    assert OfKind(ts, k) == h + OfKind(ts[1..], k);
    SumAppend(h, OfKind(ts[1..], k));
  }

  /** The three level totals and the unrated expenses make up all expenses. */
  lemma {:induction false} ImportancePartition(ts: seq<Txn>)
    ensures Sum(Rated(ts, Some(Essential))) + Sum(Rated(ts, Some(Wants))) + Sum(Rated(ts, Some(Extra)))
          + Sum(Rated(ts, None)) == Sum(OfKind(ts, Expense))
  {
    if |ts| > 0 {
      ImportancePartition(ts[1..]);
      RatedCons(ts, Some(Essential));
      RatedCons(ts, Some(Wants));
      RatedCons(ts, Some(Extra));
      RatedCons(ts, None);
      OfKindCons(ts, Expense);
      match ts[0].importance {
        case None =>
        case Some(Essential) =>
        case Some(Wants) =>
        case Some(Extra) =>
      }
    }
  }

  lemma {:induction false} PositiveSum(ts: seq<Txn>)
    requires forall i :: 0 <= i < |ts| ==> ts[i].amount > 0
    ensures Sum(ts) > 0 <==> |ts| > 0
  {
    if |ts| > 0 {
      PositiveSum(ts[1..]);
    }
  }

  /** With positive amounts, as the transaction schema requires, a level has a bar
      exactly when some expense is rated with it. */
  lemma LevelShownIffRated(ts: seq<Txn>, l: Level)
    requires forall t :: t in ts ==> t.amount > 0
    requires l in ImportanceLevels
    ensures LevelTotal(l, Sum(Rated(ts, Some(l.value)))) in ImportanceData(ts)
      <==> exists t :: t in ts && t.kind == Expense && t.importance == Some(l.value)
  {
    var r := Rated(ts, Some(l.value));
    ImportanceDataSpec(ts);
    RatedMembers(ts, Some(l.value));
    assert forall i :: 0 <= i < |r| ==> r[i] in r;
    PositiveSum(r);
    if |r| > 0 {
      assert r[0] in r;
    }
  }
}
