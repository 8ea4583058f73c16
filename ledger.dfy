/**
 The ledger of one loaded export: the transactions in file order, their
 "Ignore" flags, and the category breakdown computed once when the export is
 loaded. Loading a file builds a new ledger; the only change made to a
 ledger afterwards is toggling one flag.
 */
module Engine {
  import opened Records
  import opened Normalizer
  import opened Classifier
  import opened CategoryTotals
  import opened Queries

  class Ledger {
    /** The transactions, in the export's row order. */
    const rows: array<Transaction>
    /** `ignore[i]` is the "Ignore" flag of `rows[i]`. */
    const ignore: array<bool>
    /** The category breakdown, sorted by ascending sum; fixed at load time, so
        toggling a flag never changes it. */
    const categoryTotals: seq<CategoryTotal>

    ghost predicate Valid()
      reads rows
    {
      && ignore.Length == rows.Length
      && categoryTotals == Aggregate(rows[..])
    }

    /** The transactions as a sequence. */
    ghost function Transactions(): seq<Transaction>
      reads rows
    {
      rows[..]
    }

    /** The flags as a sequence. */
    ghost function Flags(): seq<bool>
      reads ignore
    {
      ignore[..]
    }

    /** Loads an export: strips the card prefixes from every description,
        drops the unused columns, flags likely transfers by their stripped
        description, and builds the category breakdown. */
    constructor Load(raw: seq<RawRow>)
      ensures Valid()
      ensures fresh(rows) && fresh(ignore)
      ensures rows[..] == Normalize(raw, CARD_PREFIXES)
      ensures forall i :: 0 <= i < ignore.Length ==> ignore[i] == IsTransfer(rows[i].description)
      ensures categoryTotals == Aggregate(rows[..])
    {
      var n := |raw|;
      var table := new RawRow[n](i requires 0 <= i < n => raw[i]);
      StripDescriptions(table, CARD_PREFIXES);
      var stripped := table[..];
      var txs := new Transaction[n](i requires 0 <= i < n => DropColumns(stripped[i]));
      var flags := new bool[n](i requires 0 <= i < n => IsTransfer(stripped[i].description));
      rows := txs;
      ignore := flags;
      categoryTotals := Aggregate(txs[..]);
      new;
      assert rows[..] == Normalize(raw, CARD_PREFIXES);
    }

    /** The toggle event: `selection` is the list of selected table rows. Its
        first index has its flag inverted; an empty selection, or a first
        index that is not a row of this ledger, changes nothing, and
        `toggled` reports which happened. The transactions, the breakdown and
        every other flag stay as they were, and the spending total moves by
        exactly the toggled row's delta. */
    method ToggleSelected(selection: seq<int>) returns (toggled: bool)
      requires Valid()
      modifies ignore
      ensures Valid()
      ensures toggled <==> |selection| > 0 && 0 <= selection[0] < ignore.Length
      ensures toggled ==> Flags() == Flip(old(Flags()), selection[0])
      ensures !toggled ==> Flags() == old(Flags())
      ensures Transactions() == old(Transactions())
      ensures SumValidDebits(Transactions(), Flags())
        == old(SumValidDebits(Transactions(), Flags()))
          + (if toggled then ToggleDelta(rows[selection[0]], old(ignore[selection[0]])) else 0)
    {
      if |selection| == 0 || !(0 <= selection[0] < ignore.Length) {
        return false;
      }
      var i := selection[0];
      FlipDelta(rows[..], ignore[..], i);
      if ignore[i] {
        ignore[i] := false;
      } else {
        ignore[i] := true;
      }
      toggled := true;
    }
  }
}
