/**
 Read-only views of a ledger: the spending total, the row colours of the
 transaction table, and the range of dates. A ledger's state is given here as
 its transactions and the parallel sequence of "Ignore" flags.
 */
module Queries {
  import opened Text
  import opened Records
  import CategoryTotals

  // Spending total

  predicate IsDebit(t: Transaction)
  {
    t.ttype == "debit"
  }

  /** The total spent: the amounts of the debit rows that are not ignored.
      With amounts in cents the two-decimal rounding changes nothing. Mint
      exports amounts without sign, and for such amounts the total lies
      between 0 and the sum of all amounts. */
  function SumValidDebits(rows: seq<Transaction>, ignore: seq<bool>): (r: int)
    requires |rows| == |ignore|
    ensures (forall k :: 0 <= k < |rows| ==> rows[k].amount >= 0) ==> 0 <= r <= CategoryTotals.TotalAmount(rows)
  {
    if rows == [] then 0
    else
      (if IsDebit(rows[0]) && !ignore[0] then rows[0].amount else 0)
      + SumValidDebits(rows[1..], ignore[1..])
  }

  /** The positions of the rows that count towards the total (debits that are
      not ignored), in ascending order. */
  function CountedIndices(rows: seq<Transaction>, ignore: seq<bool>): (ix: seq<nat>)
    requires |rows| == |ignore|
    ensures forall j :: 0 <= j < |ix| ==> ix[j] < |rows| && IsDebit(rows[ix[j]]) && !ignore[ix[j]]
    ensures forall j, j' :: 0 <= j < j' < |ix| ==> ix[j] < ix[j']
  {
    if rows == [] then []
    else
      var rest := CountedIndices(rows[1..], ignore[1..]);
      var shifted := seq(|rest|, j requires 0 <= j < |rest| => rest[j] + 1);
      if IsDebit(rows[0]) && !ignore[0] then [0] + shifted else shifted
  }

  /** Every debit row that is not ignored has its position listed. */
  lemma {:induction false} CountedIndicesComplete(rows: seq<Transaction>, ignore: seq<bool>, k: int)
    requires |rows| == |ignore| && 0 <= k < |rows|
    requires IsDebit(rows[k]) && !ignore[k]
    ensures k in CountedIndices(rows, ignore)
  {
    if k > 0 {
      var rest := CountedIndices(rows[1..], ignore[1..]);
      CountedIndicesComplete(rows[1..], ignore[1..], k - 1);
      var j :| 0 <= j < |rest| && rest[j] == k - 1;
      var ix := CountedIndices(rows, ignore);
      if IsDebit(rows[0]) && !ignore[0] {
        assert ix[j + 1] == k;
      } else {
        assert ix[j] == k;
      }
    }
  }

  /** The rows that count towards the total: exactly the debit rows that are
      not ignored, each once, in ledger order. */
  function CountedDebits(rows: seq<Transaction>, ignore: seq<bool>): (cs: seq<Transaction>)
    requires |rows| == |ignore|
    ensures |cs| == |CountedIndices(rows, ignore)|
    ensures forall j :: 0 <= j < |cs| ==> cs[j] == rows[CountedIndices(rows, ignore)[j]]
    ensures forall t :: t in cs ==> IsDebit(t)
  {
    if rows == [] then []
    else
      (if IsDebit(rows[0]) && !ignore[0] then [rows[0]] else [])
      + CountedDebits(rows[1..], ignore[1..])
  }

  /** The total spent is the sum of the amounts of the counted debit rows. */
  lemma {:induction false} SumValidDebitsIsCountedSum(rows: seq<Transaction>, ignore: seq<bool>)
    requires |rows| == |ignore|
    ensures SumValidDebits(rows, ignore) == CategoryTotals.TotalAmount(CountedDebits(rows, ignore))
  {
    if rows != [] {
      SumValidDebitsIsCountedSum(rows[1..], ignore[1..]);
      var head := if IsDebit(rows[0]) && !ignore[0] then [rows[0]] else [];
      TotalAmountAppend(head, CountedDebits(rows[1..], ignore[1..]));
    }
  }

  lemma {:induction false} TotalAmountAppend(a: seq<Transaction>, b: seq<Transaction>)
    ensures CategoryTotals.TotalAmount(a + b)
      == CategoryTotals.TotalAmount(a) + CategoryTotals.TotalAmount(b)
  {
    if a == [] {
      assert a + b == b;
    } else {
      assert (a + b)[1..] == a[1..] + b;
      TotalAmountAppend(a[1..], b);
    }
  }

  /** The total is 0 when every debit row is ignored, and so for an empty
      ledger or one with only credits. */
  lemma {:induction false} NoCountedDebitsZero(rows: seq<Transaction>, ignore: seq<bool>)
    requires |rows| == |ignore|
    requires forall k :: 0 <= k < |rows| && IsDebit(rows[k]) ==> ignore[k]
    ensures SumValidDebits(rows, ignore) == 0
  {
    if rows != [] {
      NoCountedDebitsZero(rows[1..], ignore[1..]);
    }
  }

  /** A credit row never contributes: replacing it by any other non-debit row
      and setting its flag either way leaves the total as it was. */
  lemma {:induction false} NonDebitIrrelevant(rows: seq<Transaction>, ignore: seq<bool>, i: int, t: Transaction, b: bool)
    requires |rows| == |ignore| && 0 <= i < |rows|
    requires !IsDebit(rows[i]) && !IsDebit(t)
    ensures SumValidDebits(rows[i := t], ignore[i := b]) == SumValidDebits(rows, ignore)
  {
    if i > 0 {
      assert rows[i := t][1..] == rows[1..][i - 1 := t];
      assert ignore[i := b][1..] == ignore[1..][i - 1 := b];
      NonDebitIrrelevant(rows[1..], ignore[1..], i - 1, t, b);
    } else {
      assert rows[i := t][1..] == rows[1..];
      assert ignore[i := b][1..] == ignore[1..];
    }
  }

  // Toggling a flag

  /** The flags with the one at `i` inverted and every other one kept. */
  function Flip(ignore: seq<bool>, i: int): (r: seq<bool>)
    requires 0 <= i < |ignore|
    ensures |r| == |ignore| && r[i] == !ignore[i]
    ensures forall j :: 0 <= j < |ignore| && j != i ==> r[j] == ignore[j]
  {
    ignore[i := !ignore[i]]
  }

  /** How much toggling row `t`, whose flag was `wasIgnored`, moves the total:
      a debit is added back when it was ignored and taken out when it was
      counted; a credit moves nothing. */
  function ToggleDelta(t: Transaction, wasIgnored: bool): int
  {
    if !IsDebit(t) then 0 else if wasIgnored then t.amount else -t.amount
  }

  /** Toggling one flag moves the total by exactly that row's delta. */
  lemma {:induction false} FlipDelta(rows: seq<Transaction>, ignore: seq<bool>, i: int)
    requires |rows| == |ignore| && 0 <= i < |rows|
    ensures SumValidDebits(rows, Flip(ignore, i)) == SumValidDebits(rows, ignore) + ToggleDelta(rows[i], ignore[i])
  {
    if i > 0 {
      assert Flip(ignore, i)[1..] == Flip(ignore[1..], i - 1);
      FlipDelta(rows[1..], ignore[1..], i - 1);
    } else {
      assert Flip(ignore, i)[1..] == ignore[1..];
    }
  }

  /** Toggling the same row twice restores its flag and the total. */
  lemma DoubleFlipRestores(rows: seq<Transaction>, ignore: seq<bool>, i: int)
    requires |rows| == |ignore| && 0 <= i < |rows|
    ensures Flip(Flip(ignore, i), i) == ignore
    ensures SumValidDebits(rows, Flip(Flip(ignore, i), i)) == SumValidDebits(rows, ignore)
  {
    FlipDelta(rows, ignore, i);
    FlipDelta(rows, Flip(ignore, i), i);
  }

  // Row colours

  /** One `(index, colour)` pair per row, indices in order: "salmon" for an
      ignored row, "grey" for a counted one. */
  function ColorsForIgnored(ignore: seq<bool>): (r: seq<(int, string)>)
    ensures |r| == |ignore|
    ensures forall k :: 0 <= k < |r| ==> r[k].0 == k
    ensures forall k :: 0 <= k < |r| ==> (r[k].1 == "salmon" <==> ignore[k])
    ensures forall k :: 0 <= k < |r| ==> (r[k].1 == "grey" <==> !ignore[k])
  {
    seq(|ignore|, k requires 0 <= k < |ignore| => (k, if ignore[k] then "salmon" else "grey"))
  }

  /** The highlight of one row when a category is selected. */
  function MapColor(curCat: string, selectedCat: string, ignored: bool): (c: string)
    ensures c == "MediumOrchid" <==> curCat == selectedCat && ignored
    ensures c == "MediumSlateBlue" <==> curCat == selectedCat && !ignored
    ensures c == "grey" <==> curCat != selectedCat
  {
    if curCat == selectedCat then
      if ignored then "MediumOrchid" else "MediumSlateBlue"
    else
      "grey"
  }

  /** One `(index, colour)` pair per row, indices in order, each row coloured
      by `MapColor` against the selected category. */
  function ColorsForCategory(rows: seq<Transaction>, ignore: seq<bool>, category: string): (r: seq<(int, string)>)
    requires |rows| == |ignore|
    ensures |r| == |rows|
    ensures forall k :: 0 <= k < |r| ==> r[k].0 == k
    ensures forall k :: 0 <= k < |r| ==> (r[k].1 != "grey" <==> rows[k].category == category)
    ensures forall k :: 0 <= k < |r| ==> (r[k].1 == "MediumOrchid" <==> rows[k].category == category && ignore[k])
    ensures forall k :: 0 <= k < |r| ==> (r[k].1 == "MediumSlateBlue" <==> rows[k].category == category && !ignore[k])
  {
    seq(|rows|, k requires 0 <= k < |rows| => (k, MapColor(rows[k].category, category, ignore[k])))
  }

  /** Inside the selected category the highlight tells ignored rows from
      counted ones just as the ignore colouring does. */
  lemma CategoryHighlightMatchesIgnored(rows: seq<Transaction>, ignore: seq<bool>, category: string, k: int)
    requires |rows| == |ignore| && 0 <= k < |rows| && rows[k].category == category
    ensures ColorsForCategory(rows, ignore, category)[k].1 == "MediumOrchid"
      <==> ColorsForIgnored(ignore)[k].1 == "salmon"
  {
  }

  // Date range

  /** The reported range of a ledger: its least and greatest `Date` value. */
  datatype DateSpan = DateSpan(first: string, last: string)

  /** The least date, comparing dates as strings. */
  function MinDate(rows: seq<Transaction>): (d: string)
    requires |rows| > 0
    ensures exists k :: 0 <= k < |rows| && rows[k].date == d
  {
    if |rows| == 1 then rows[0].date
    else
      var m := MinDate(rows[1..]);
      if LexLe(rows[0].date, m) then rows[0].date else m
  }

  /** The greatest date, comparing dates as strings. */
  function MaxDate(rows: seq<Transaction>): (d: string)
    requires |rows| > 0
    ensures exists k :: 0 <= k < |rows| && rows[k].date == d
  {
    if |rows| == 1 then rows[0].date
    else
      var m := MaxDate(rows[1..]);
      if LexLe(m, rows[0].date) then rows[0].date else m
  }

  /** The date range of a ledger, `None` for a ledger with no rows. Dates are
      the strings of the export's `Date` column, compared as strings. */
  function DateRange(rows: seq<Transaction>): (r: Option<DateSpan>)
    ensures r.None? <==> rows == []
    ensures r.Some? ==> exists k :: 0 <= k < |rows| && rows[k].date == r.value.first
    ensures r.Some? ==> exists k :: 0 <= k < |rows| && rows[k].date == r.value.last
  {
    if rows == [] then None else Some(DateSpan(MinDate(rows), MaxDate(rows)))
  }

  lemma {:induction false} MinDateLeast(rows: seq<Transaction>)
    requires |rows| > 0
    ensures forall k :: 0 <= k < |rows| ==> LexLe(MinDate(rows), rows[k].date)
  {
    if |rows| > 1 {
      var m := MinDate(rows[1..]);
      MinDateLeast(rows[1..]);
      LexLeTotal(rows[0].date, m);
      forall k | 0 <= k < |rows| ensures LexLe(MinDate(rows), rows[k].date) {
        if k == 0 {
          LexLeTotal(rows[0].date, rows[0].date);
        } else {
          assert rows[k] == rows[1..][k - 1];
          if LexLe(rows[0].date, m) {
            LexLeTransitive(rows[0].date, m, rows[k].date);
          }
        }
      }
    } else {
      LexLeTotal(rows[0].date, rows[0].date);
    }
  }

  lemma {:induction false} MaxDateGreatest(rows: seq<Transaction>)
    requires |rows| > 0
    ensures forall k :: 0 <= k < |rows| ==> LexLe(rows[k].date, MaxDate(rows))
  {
    if |rows| > 1 {
      var m := MaxDate(rows[1..]);
      MaxDateGreatest(rows[1..]);
      LexLeTotal(rows[0].date, m);
      forall k | 0 <= k < |rows| ensures LexLe(rows[k].date, MaxDate(rows)) {
        if k == 0 {
          LexLeTotal(rows[0].date, rows[0].date);
        } else {
          assert rows[k] == rows[1..][k - 1];
          if LexLe(m, rows[0].date) {
            LexLeTransitive(rows[k].date, m, rows[0].date);
          }
        }
      }
    } else {
      LexLeTotal(rows[0].date, rows[0].date);
    }
  }

  /** A ledger with rows has a range whose ends are dates of its rows, with
      every date between them in string order; an empty ledger has none. */
  lemma DateRangeBounds(rows: seq<Transaction>)
    ensures DateRange(rows).None? <==> rows == []
    ensures DateRange(rows).Some? ==>
      var span := DateRange(rows).value;
      && LexLe(span.first, span.last)
      && (exists k :: 0 <= k < |rows| && rows[k].date == span.first)
      && (exists k :: 0 <= k < |rows| && rows[k].date == span.last)
      && (forall k :: 0 <= k < |rows| ==> LexLe(span.first, rows[k].date) && LexLe(rows[k].date, span.last))
  {
    if rows != [] {
      MinDateLeast(rows);
      MaxDateGreatest(rows);
      LexLeTransitive(MinDate(rows), rows[0].date, MaxDate(rows));
    }
  }
}
