/**
 The transfer heuristic: the initial "Ignore" flag of a transaction, decided
 from keywords in its (already stripped) description.
 */
module Classifier {
  import opened Text

  /** True when the description looks like a transfer or a card payment. The
      first clause looks for "Payment" in lower-cased text, exactly as the
      heuristic is written; `PaymentClauseDead` shows it never fires, so the
      flag is "payment" in any letter case, or "Web Authorized" or "Transfer"
      exactly as capitalised. */
  function IsTransfer(d: string): (b: bool)
    ensures b <==>
      Contains(Lower(d), "payment") || Contains(d, "Web Authorized") || Contains(d, "Transfer")
  {
    PaymentClauseDead(d);
    || Contains(Lower(d), "Payment")
    || Contains(Lower(d), "payment")
    || Contains(d, "Web Authorized")
    || Contains(d, "Transfer")
  }

  /** Lower-cased text has no capital letter, so it never contains "Payment". */
  lemma PaymentClauseDead(d: string)
    ensures !Contains(Lower(d), "Payment")
  {
    MissingCharNoMatch(Lower(d), "Payment", 0);
  }

  /** Any capitalisation of "payment" flags the transaction; e.g. "Payment"
      and "PAYMENT" both do. */
  lemma PaymentAnyCase(d: string, w: string)
    requires Lower(w) == "payment"
    requires Contains(d, w)
    ensures IsTransfer(d)
  {
    ContainsLower(d, w);
  }

  /** "Web Authorized" and "Transfer" are matched case-sensitively: a
      description with neither of them and no "payment" in any case is
      counted, even if it says "TRANSFER". */
  lemma TransferCaseSensitive()
    ensures !IsTransfer("TRANSFER")
    ensures IsTransfer("Transfer")
  {
    var d := "TRANSFER";
    assert Lower(d) == "transfer";
    MissingCharNoMatch(Lower(d), "payment", 0);
    MissingCharNoMatch(d, "Web Authorized", 0);
    MissingCharNoMatch(d, "Transfer", 1);
    PaymentClauseDead(d);
    assert StartsWith("Transfer", "Transfer");
  }
}
