/**
 The per-category breakdown: the transactions grouped by category, the amounts
 of each group summed (ignored transactions included), and the groups ordered
 by ascending sum. Grouping gives one entry per distinct category; the order
 among equal sums is not fixed by the breakdown, and the insertion sort here
 is one admissible order.
 */
module CategoryTotals {
  import opened Records

  /** One line of the breakdown: a category and the sum of its amounts. */
  datatype CategoryTotal = CategoryTotal(category: string, total: int)

  /** The sum of the amounts of the rows in category `c`, ignored or not. */
  function CategorySum(rows: seq<Transaction>, c: string): int
  {
    if rows == [] then 0
    else (if rows[0].category == c then rows[0].amount else 0) + CategorySum(rows[1..], c)
  }

  /** The sum of all amounts. */
  function TotalAmount(rows: seq<Transaction>): int
  {
    if rows == [] then 0 else rows[0].amount + TotalAmount(rows[1..])
  }

  /** The sum of the totals of a breakdown. */
  function SumTotals(gs: seq<CategoryTotal>): int
  {
    if gs == [] then 0 else gs[0].total + SumTotals(gs[1..])
  }

  /** The categories that occur among the rows. */
  function RowCategories(rows: seq<Transaction>): set<string>
  {
    set t | t in rows :: t.category
  }

  /** The categories that have an entry in a breakdown. */
  function Categories(gs: seq<CategoryTotal>): set<string>
  {
    set g | g in gs :: g.category
  }

  /** No category has two entries. */
  predicate DistinctCategories(gs: seq<CategoryTotal>)
  {
    forall i, j :: 0 <= i < j < |gs| ==> gs[i].category != gs[j].category
  }

  /** Entries in ascending order of their sums. */
  predicate SortedByTotal(gs: seq<CategoryTotal>)
  {
    forall i, j :: 0 <= i < j < |gs| ==> gs[i].total <= gs[j].total
  }

  /** The total of the first entry for `c`, or 0 when `c` has none. */
  function Lookup(gs: seq<CategoryTotal>, c: string): int
  {
    if gs == [] then 0 else if gs[0].category == c then gs[0].total else Lookup(gs[1..], c)
  }

  /** Adds one row to a breakdown: into its category's entry if there is one,
      otherwise as a new entry at the end. */
  function AddRow(gs: seq<CategoryTotal>, t: Transaction): (r: seq<CategoryTotal>)
    ensures |gs| <= |r| <= |gs| + 1
  {
    if gs == [] then [CategoryTotal(t.category, t.amount)]
    else if gs[0].category == t.category then [gs[0].(total := gs[0].total + t.amount)] + gs[1..]
    else [gs[0]] + AddRow(gs[1..], t)
  }

  /** Groups the rows by category and sums each group. There are no more
      groups than rows, and none exactly when there are no rows. */
  function GroupByCategory(rows: seq<Transaction>): (gs: seq<CategoryTotal>)
    ensures |gs| <= |rows|
    ensures gs == [] <==> rows == []
  {
    if rows == [] then [] else AddRow(GroupByCategory(rows[1..]), rows[0])
  }

  /** Inserts an entry before the first entry with a sum at least as large. */
  function InsertByTotal(g: CategoryTotal, gs: seq<CategoryTotal>): (r: seq<CategoryTotal>)
    ensures |r| == |gs| + 1
  {
    if gs == [] || g.total <= gs[0].total then [g] + gs else [gs[0]] + InsertByTotal(g, gs[1..])
  }

  /** Orders entries by ascending sum, keeping their number. */
  function SortByTotal(gs: seq<CategoryTotal>): (r: seq<CategoryTotal>)
    ensures |r| == |gs|
  {
    if gs == [] then [] else InsertByTotal(gs[0], SortByTotal(gs[1..]))
  }

  /** The category breakdown the ledger shows: grouped, summed and sorted.
      It has no more lines than there are rows, and none exactly when there
      are no rows. */
  function Aggregate(rows: seq<Transaction>): (r: seq<CategoryTotal>)
    ensures |r| <= |rows|
    ensures r == [] <==> rows == []
  {
    SortByTotal(GroupByCategory(rows))
  }

  // Adding a row

  lemma {:induction false} AddRowLookup(gs: seq<CategoryTotal>, t: Transaction, c: string)
    ensures Lookup(AddRow(gs, t), c) == Lookup(gs, c) + (if c == t.category then t.amount else 0)
  {
    if gs != [] && gs[0].category != t.category {
      AddRowLookup(gs[1..], t, c);
    }
  }

  lemma {:induction false} AddRowCategories(gs: seq<CategoryTotal>, t: Transaction)
    ensures Categories(AddRow(gs, t)) == Categories(gs) + {t.category}
  {
    if gs != [] {
      var r := AddRow(gs, t);
      assert gs == [gs[0]] + gs[1..];
      if gs[0].category == t.category {
        assert r == [gs[0].(total := gs[0].total + t.amount)] + gs[1..];
        assert Categories(r) == {gs[0].category} + Categories(gs[1..]);
      } else {
        AddRowCategories(gs[1..], t);
        assert Categories(r) == {gs[0].category} + Categories(AddRow(gs[1..], t));
      }
      assert Categories(gs) == {gs[0].category} + Categories(gs[1..]);
    }
  }

  lemma {:induction false} AddRowDistinct(gs: seq<CategoryTotal>, t: Transaction)
    requires DistinctCategories(gs)
    ensures DistinctCategories(AddRow(gs, t))
  {
    if gs != [] {
      var r := AddRow(gs, t);
      if gs[0].category != t.category {
        var rest := AddRow(gs[1..], t);
        AddRowDistinct(gs[1..], t);
        AddRowCategories(gs[1..], t);
        forall j | 0 < j < |r| ensures r[0].category != r[j].category {
          assert r[j] == rest[j - 1];
          assert r[j].category in Categories(rest);
          if r[j].category != t.category {
            var g :| g in gs[1..] && g.category == r[j].category;
            var m :| 0 <= m < |gs[1..]| && gs[1..][m] == g;
            assert gs[m + 1] == g;
          }
        }
      } else {
        assert forall j :: 0 <= j < |r| ==> r[j].category == gs[j].category;
      }
    }
  }

  lemma {:induction false} AddRowSum(gs: seq<CategoryTotal>, t: Transaction)
    ensures SumTotals(AddRow(gs, t)) == SumTotals(gs) + t.amount
  {
    if gs == [] {
    } else if gs[0].category == t.category {
      assert AddRow(gs, t)[1..] == gs[1..];
    } else {
      AddRowSum(gs[1..], t);
      assert AddRow(gs, t)[1..] == AddRow(gs[1..], t);
    }
  }

  /** In a breakdown with distinct categories, looking up an entry's category
      gives that entry's total. */
  lemma {:induction false} LookupEntry(gs: seq<CategoryTotal>, k: int)
    requires DistinctCategories(gs) && 0 <= k < |gs|
    ensures Lookup(gs, gs[k].category) == gs[k].total
  {
    if k > 0 {
      LookupEntry(gs[1..], k - 1);
    }
  }

  /** Grouping gives one entry per category of the rows, the entry for `c`
      holds the sum of `c`'s amounts, and the entries together sum to the
      total of all amounts. */
  lemma {:induction false} GroupSummarises(rows: seq<Transaction>)
    ensures DistinctCategories(GroupByCategory(rows))
    ensures Categories(GroupByCategory(rows)) == RowCategories(rows)
    ensures forall c :: Lookup(GroupByCategory(rows), c) == CategorySum(rows, c)
    ensures SumTotals(GroupByCategory(rows)) == TotalAmount(rows)
  {
    if rows != [] {
      var g := GroupByCategory(rows[1..]);
      GroupSummarises(rows[1..]);
      AddRowDistinct(g, rows[0]);
      AddRowCategories(g, rows[0]);
      AddRowSum(g, rows[0]);
      forall c ensures Lookup(GroupByCategory(rows), c) == CategorySum(rows, c) {
        AddRowLookup(g, rows[0], c);
      }
      assert rows == [rows[0]] + rows[1..];
      assert RowCategories(rows) == {rows[0].category} + RowCategories(rows[1..]);
    }
  }

  lemma GroupEntrySums(rows: seq<Transaction>)
    ensures forall g :: g in GroupByCategory(rows) ==> g.total == CategorySum(rows, g.category)
  {
    var gs := GroupByCategory(rows);
    GroupSummarises(rows);
    forall g | g in gs ensures g.total == CategorySum(rows, g.category) {
      var k :| 0 <= k < |gs| && gs[k] == g;
      LookupEntry(gs, k);
    }
  }

  // Sorting

  lemma {:induction false} InsertByTotalMultiset(g: CategoryTotal, gs: seq<CategoryTotal>)
    ensures multiset(InsertByTotal(g, gs)) == multiset(gs) + multiset{g}
    ensures forall x :: x in InsertByTotal(g, gs) <==> x == g || x in gs
  {
    if gs != [] && g.total > gs[0].total {
      InsertByTotalMultiset(g, gs[1..]);
      assert gs == [gs[0]] + gs[1..];
    }
    var r := InsertByTotal(g, gs);
    forall x ensures x in r <==> x == g || x in gs {
      assert x in r <==> x in multiset(r);
      assert x in gs <==> x in multiset(gs);
    }
  }

  lemma {:induction false} InsertByTotalSum(g: CategoryTotal, gs: seq<CategoryTotal>)
    ensures SumTotals(InsertByTotal(g, gs)) == g.total + SumTotals(gs)
  {
    if gs == [] || g.total <= gs[0].total {
      assert InsertByTotal(g, gs)[1..] == gs;
    } else {
      InsertByTotalSum(g, gs[1..]);
      assert InsertByTotal(g, gs)[1..] == InsertByTotal(g, gs[1..]);
    }
  }

  lemma InsertByTotalCategories(g: CategoryTotal, gs: seq<CategoryTotal>)
    ensures Categories(InsertByTotal(g, gs)) == Categories(gs) + {g.category}
  {
    InsertByTotalMultiset(g, gs);
  }

  lemma {:induction false} InsertByTotalSorted(g: CategoryTotal, gs: seq<CategoryTotal>)
    requires SortedByTotal(gs)
    ensures SortedByTotal(InsertByTotal(g, gs))
  {
    if gs != [] && g.total > gs[0].total {
      var r := InsertByTotal(g, gs);
      var rest := InsertByTotal(g, gs[1..]);
      InsertByTotalSorted(g, gs[1..]);
      InsertByTotalMultiset(g, gs[1..]);
      assert r[1..] == rest;
      forall j | 0 < j < |r| ensures r[0].total <= r[j].total {
        assert r[j] in rest;
        if r[j] != g {
          var m :| 0 <= m < |gs[1..]| && gs[1..][m] == r[j];
          assert gs[m + 1] == r[j];
        }
      }
    }
  }

  lemma {:induction false} InsertByTotalDistinct(g: CategoryTotal, gs: seq<CategoryTotal>)
    requires DistinctCategories(gs) && g.category !in Categories(gs)
    ensures DistinctCategories(InsertByTotal(g, gs))
  {
    var r := InsertByTotal(g, gs);
    if gs == [] || g.total <= gs[0].total {
      assert r[1..] == gs;
      forall j | 0 < j < |r| ensures r[0].category != r[j].category {
        assert r[j] in gs;
      }
    } else {
      var rest := InsertByTotal(g, gs[1..]);
      assert gs == [gs[0]] + gs[1..];
      assert Categories(gs) == {gs[0].category} + Categories(gs[1..]);
      InsertByTotalDistinct(g, gs[1..]);
      InsertByTotalMultiset(g, gs[1..]);
      assert r[1..] == rest;
      forall j | 0 < j < |r| ensures r[0].category != r[j].category {
        assert r[j] in rest;
        if r[j] != g {
          var m :| 0 <= m < |gs[1..]| && gs[1..][m] == r[j];
          assert gs[m + 1] == r[j];
        } else {
          assert gs[0] in gs;
        }
      }
    }
  }

  lemma {:induction false} SortByTotalPermutes(gs: seq<CategoryTotal>)
    ensures multiset(SortByTotal(gs)) == multiset(gs)
    ensures SortedByTotal(SortByTotal(gs))
  {
    if gs != [] {
      var rest := SortByTotal(gs[1..]);
      SortByTotalPermutes(gs[1..]);
      InsertByTotalMultiset(gs[0], rest);
      InsertByTotalSorted(gs[0], rest);
      assert gs == [gs[0]] + gs[1..];
    }
  }

  lemma {:induction false} SortByTotalSum(gs: seq<CategoryTotal>)
    ensures SumTotals(SortByTotal(gs)) == SumTotals(gs)
  {
    if gs != [] {
      SortByTotalSum(gs[1..]);
      InsertByTotalSum(gs[0], SortByTotal(gs[1..]));
    }
  }

  lemma {:induction false} SortByTotalCategories(gs: seq<CategoryTotal>)
    ensures Categories(SortByTotal(gs)) == Categories(gs)
  {
    if gs != [] {
      SortByTotalCategories(gs[1..]);
      InsertByTotalCategories(gs[0], SortByTotal(gs[1..]));
      assert gs == [gs[0]] + gs[1..];
      assert Categories(gs) == {gs[0].category} + Categories(gs[1..]);
    }
  }

  lemma {:induction false} SortByTotalDistinct(gs: seq<CategoryTotal>)
    requires DistinctCategories(gs)
    ensures DistinctCategories(SortByTotal(gs))
  {
    if gs != [] {
      var rest := SortByTotal(gs[1..]);
      SortByTotalDistinct(gs[1..]);
      SortByTotalCategories(gs[1..]);
      InsertByTotalDistinct(gs[0], rest);
    }
  }

  // The breakdown

  /** The breakdown is in ascending order of sums and is a reordering of the
      grouped entries. */
  lemma AggregateSorted(rows: seq<Transaction>)
    ensures SortedByTotal(Aggregate(rows))
    ensures multiset(Aggregate(rows)) == multiset(GroupByCategory(rows))
  {
    SortByTotalPermutes(GroupByCategory(rows));
  }

  /** Exactly one entry per distinct category of the rows. */
  lemma AggregateOnePerCategory(rows: seq<Transaction>)
    ensures DistinctCategories(Aggregate(rows))
    ensures Categories(Aggregate(rows)) == RowCategories(rows)
  {
    GroupSummarises(rows);
    SortByTotalCategories(GroupByCategory(rows));
    SortByTotalDistinct(GroupByCategory(rows));
  }

  /** Each entry holds the sum of the amounts of all rows in its category,
      ignored rows included. */
  lemma AggregateEntrySums(rows: seq<Transaction>)
    ensures forall k :: 0 <= k < |Aggregate(rows)| ==>
      Aggregate(rows)[k].total == CategorySum(rows, Aggregate(rows)[k].category)
  {
    var a := Aggregate(rows);
    SortByTotalPermutes(GroupByCategory(rows));
    GroupEntrySums(rows);
    forall k | 0 <= k < |a| ensures a[k].total == CategorySum(rows, a[k].category) {
      assert a[k] in multiset(a);
    }
  }

  /** Conservation: the entries together sum to the total of all amounts. */
  lemma AggregateConservation(rows: seq<Transaction>)
    ensures SumTotals(Aggregate(rows)) == TotalAmount(rows)
  {
    GroupSummarises(rows);
    SortByTotalSum(GroupByCategory(rows));
  }
}
