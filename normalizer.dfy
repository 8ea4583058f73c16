/**
 Description clean-up: every card-number prefix is deleted from every
 description, the prefixes taken in list order, and then the unused columns
 are dropped.
 */
module Normalizer {
  import opened Text
  import opened Records

  /** The card-number prefixes stripped from descriptions, in the order applied. */
  const CARD_PREFIXES: seq<string> := ["Debit Purchase -visa Card 4845", "Debit Purchase Card 4845"]

  /** Deletes every occurrence of each prefix in turn, first prefix first.
      Stripping never lengthens a description. */
  function StripPrefixes(d: string, prefixes: seq<string>): (r: string)
    ensures |r| <= |d|
    decreases |prefixes|
  {
    if prefixes == [] then d else StripPrefixes(RemoveAll(d, prefixes[0]), prefixes[1..])
  }

  /** A description in which no prefix occurs is left unchanged. */
  lemma {:induction false} StripPrefixesAbsent(d: string, prefixes: seq<string>)
    requires forall k :: 0 <= k < |prefixes| ==> !Contains(d, prefixes[k])
    ensures StripPrefixes(d, prefixes) == d
    decreases |prefixes|
  {
    if prefixes != [] {
      RemoveAllAbsent(d, prefixes[0]);
      StripPrefixesAbsent(d, prefixes[1..]);
    }
  }

  /** Applying one more prefix is one more `RemoveAll` on the result so far:
      the step the per-prefix loop takes. */
  lemma {:induction false} StripPrefixesSnoc(d: string, prefixes: seq<string>, p: string)
    ensures StripPrefixes(d, prefixes + [p]) == RemoveAll(StripPrefixes(d, prefixes), p)
    decreases |prefixes|
  {
    if prefixes != [] {
      assert (prefixes + [p])[1..] == prefixes[1..] + [p];
      StripPrefixesSnoc(RemoveAll(d, prefixes[0]), prefixes[1..], p);
    }
  }

  /** A row with its description stripped of the given prefixes. */
  function StripRow(r: RawRow, prefixes: seq<string>): RawRow
  {
    r.(description := StripPrefixes(r.description, prefixes))
  }

  /** The transactions the ledger keeps of an export: row order kept, each
      description stripped, the unused columns dropped. */
  function Normalize(raw: seq<RawRow>, prefixes: seq<string>): (ts: seq<Transaction>)
    ensures |ts| == |raw|
    ensures forall i :: 0 <= i < |raw| ==> ts[i] == DropColumns(StripRow(raw[i], prefixes))
  {
    if raw == [] then [] else [DropColumns(StripRow(raw[0], prefixes))] + Normalize(raw[1..], prefixes)
  }

  /** Normalising keeps every column but the description as it was, and never
      lengthens a description. */
  lemma NormalizeKeepsFields(raw: seq<RawRow>, prefixes: seq<string>, i: int)
    requires 0 <= i < |raw|
    ensures Normalize(raw, prefixes)[i].date == raw[i].date
    ensures Normalize(raw, prefixes)[i].amount == raw[i].amount
    ensures Normalize(raw, prefixes)[i].ttype == raw[i].ttype
    ensures Normalize(raw, prefixes)[i].category == raw[i].category
    ensures |Normalize(raw, prefixes)[i].description| <= |raw[i].description|
  {
  }

  /** Strips the descriptions of a table in place, one prefix at a time over
      the whole column, as the column is reassigned once per prefix. */
  method StripDescriptions(table: array<RawRow>, prefixes: seq<string>)
    modifies table
    ensures forall j :: 0 <= j < table.Length ==> table[j] == StripRow(old(table[j]), prefixes)
  {
    for k := 0 to |prefixes|
      invariant forall j :: 0 <= j < table.Length ==> table[j] == StripRow(old(table[j]), prefixes[..k])
    {
      for j := 0 to table.Length
        invariant forall m :: 0 <= m < j ==> table[m] == StripRow(old(table[m]), prefixes[..k + 1])
        invariant forall m :: j <= m < table.Length ==> table[m] == StripRow(old(table[m]), prefixes[..k])
      {
        assert prefixes[..k + 1] == prefixes[..k] + [prefixes[k]];
        StripPrefixesSnoc(old(table[j]).description, prefixes[..k], prefixes[k]);
        table[j] := table[j].(description := RemoveAll(table[j].description, prefixes[k]));
      }
    }
    assert prefixes[..|prefixes|] == prefixes;
  }
}
