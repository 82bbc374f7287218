/** How many units of a batch are still available. The source computes this in
    three different ways; each is modelled as written, and lemmas relate them. */
module Balance {
  import opened Schema

  /** Sum of the quantities of the transaction rows against batch `id` whose type is in `kinds`. */
  function Debited(id: nat, txns: seq<Transaction>, kinds: set<TxnKind>): int
  {
    if txns == [] then 0
    else
      var t := txns[|txns| - 1];
      Debited(id, txns[..|txns| - 1], kinds) + (if t.batchId == id && t.kind in kinds then t.quantity else 0)
  }

  /** Sum of the quantities of the disposal rows against batch `id`. */
  function Disposed(id: nat, disps: seq<Disposal>): int
  {
    if disps == [] then 0
    else
      var d := disps[|disps| - 1];
      Disposed(id, disps[..|disps| - 1]) + (if d.batchId == id then d.quantity else 0)
  }

  const AllKinds: set<TxnKind> := {Issue, Transfer, Return}

  /** The balance used by the SQL queries of the issue dialog, the main stock register and
      the disposal candidate query: quantity − (Issue + Transfer + Return) − disposed. */
  function LedgerAvail(b: Batch, txns: seq<Transaction>, disps: seq<Disposal>): int
  {
    b.quantity - Debited(b.id, txns, AllKinds) - Disposed(b.id, disps)
  }

  /** `IssueTransferDialog.get_available_quantity`: quantity − (Issue + Return) + 0 − disposed. */
  function IssueReturnAvail(b: Batch, txns: seq<Transaction>, disps: seq<Disposal>): int
  {
    b.quantity - Debited(b.id, txns, {Issue, Return}) + 0 - Disposed(b.id, disps)
  }

  /** `DisposalDialog.get_available_quantity`: quantity − (Issue + Transfer) + Return − disposed. */
  function DisposalAvail(b: Batch, txns: seq<Transaction>, disps: seq<Disposal>): int
  {
    b.quantity - Debited(b.id, txns, {Issue, Transfer}) + Debited(b.id, txns, {Return}) - Disposed(b.id, disps)
  }

  /** The disposal dialog's per-batch query by id: the first row with that id, and 0 when there is none. */
  function DisposalAvailById(id: nat, batches: seq<Batch>, txns: seq<Transaction>, disps: seq<Disposal>): int
  {
    if batches == [] then 0
    else if batches[0].id == id then DisposalAvail(batches[0], txns, disps)
    else DisposalAvailById(id, batches[1..], txns, disps)
  }

  /** The query by id reads the first batch with that id, and 0 when no batch has it. */
  lemma {:induction false} DisposalAvailByIdFinds(id: nat, batches: seq<Batch>, txns: seq<Transaction>, disps: seq<Disposal>, k: int)
    requires k == -1 ==> forall i :: 0 <= i < |batches| ==> batches[i].id != id
    requires k != -1 ==> 0 <= k < |batches| && batches[k].id == id && forall i :: 0 <= i < k ==> batches[i].id != id
    ensures k == -1 ==> DisposalAvailById(id, batches, txns, disps) == 0
    ensures k != -1 ==> DisposalAvailById(id, batches, txns, disps) == DisposalAvail(batches[k], txns, disps)
  {
    if batches != [] && batches[0].id != id {
      assert forall i :: 1 <= i < |batches| ==> batches[i] == batches[1..][i - 1];
      DisposalAvailByIdFinds(id, batches[1..], txns, disps, if k == -1 then -1 else k - 1);
    }
  }

  ghost predicate NoTransferRows(txns: seq<Transaction>)
  {
    forall i :: 0 <= i < |txns| ==> txns[i].kind != Transfer
  }

  /** No Return row debits batch `id`. */
  ghost predicate NoReturnAgainst(id: nat, txns: seq<Transaction>)
  {
    forall i :: 0 <= i < |txns| ==> !(txns[i].batchId == id && txns[i].kind == Return)
  }

  lemma {:induction false} DebitedSplit(id: nat, txns: seq<Transaction>, a: set<TxnKind>, b: set<TxnKind>)
    requires a !! b
    ensures Debited(id, txns, a + b) == Debited(id, txns, a) + Debited(id, txns, b)
  {
    if txns != [] {
      DebitedSplit(id, txns[..|txns| - 1], a, b);
    }
  }

  /** Transaction rows carry positive quantities, so debits never go below zero. */
  lemma {:induction false} DebitedNonNegative(id: nat, txns: seq<Transaction>, kinds: set<TxnKind>)
    requires forall i :: 0 <= i < |txns| ==> txns[i].quantity > 0
    ensures Debited(id, txns, kinds) >= 0
  {
    if txns != [] {
      DebitedNonNegative(id, txns[..|txns| - 1], kinds);
    }
  }

  lemma {:induction false} DebitedNone(id: nat, txns: seq<Transaction>, kinds: set<TxnKind>)
    requires forall i :: 0 <= i < |txns| ==> !(txns[i].batchId == id && txns[i].kind in kinds)
    ensures Debited(id, txns, kinds) == 0
  {
    if txns != [] {
      DebitedNone(id, txns[..|txns| - 1], kinds);
    }
  }

  /** The issue dialog's own formula exceeds the ledger formula by exactly the Transfer debits. */
  lemma IssueReturnAvailGap(b: Batch, txns: seq<Transaction>, disps: seq<Disposal>)
    ensures IssueReturnAvail(b, txns, disps) == LedgerAvail(b, txns, disps) + Debited(b.id, txns, {Transfer})
  {
    assert AllKinds == {Issue, Return} + {Transfer};
    DebitedSplit(b.id, txns, {Issue, Return}, {Transfer});
  }

  /** The disposal dialog's formula exceeds the ledger formula by twice the Return debits. */
  lemma DisposalAvailGap(b: Batch, txns: seq<Transaction>, disps: seq<Disposal>)
    ensures DisposalAvail(b, txns, disps) == LedgerAvail(b, txns, disps) + 2 * Debited(b.id, txns, {Return})
  {
    assert AllKinds == {Issue, Transfer} + {Return};
    DebitedSplit(b.id, txns, {Issue, Transfer}, {Return});
  }

  /** Since no Transfer row is ever posted, the issue dialog's formula is the ledger formula. */
  lemma IssueReturnAvailAgrees(b: Batch, txns: seq<Transaction>, disps: seq<Disposal>)
    requires NoTransferRows(txns)
    ensures IssueReturnAvail(b, txns, disps) == LedgerAvail(b, txns, disps)
  {
    IssueReturnAvailGap(b, txns, disps);
    DebitedNone(b.id, txns, {Transfer});
  }

  /** For a batch no Return row debits (every Store batch), the disposal formula is the ledger formula. */
  lemma DisposalAvailAgrees(b: Batch, txns: seq<Transaction>, disps: seq<Disposal>)
    requires NoReturnAgainst(b.id, txns)
    ensures DisposalAvail(b, txns, disps) == LedgerAvail(b, txns, disps)
  {
    DisposalAvailGap(b, txns, disps);
    DebitedNone(b.id, txns, {Return});
  }

  /** No Return row leaves the branch that is, as the tables stand, the Store: a Return takes
      stock back from a branch to the Store, and the form refuses the Store as that branch. */
  ghost predicate NoStoreReturns(branches: seq<Branch>, txns: seq<Transaction>)
  {
    forall i :: 0 <= i < |txns| && txns[i].kind == Return && txns[i].fromBranch.Some? ==>
      !IsStoreId(branches, txns[i].fromBranch.value)
  }

  /** Some Return row leaves branch `id`. */
  predicate ReturnsFrom(txns: seq<Transaction>, id: nat)
  {
    exists i :: 0 <= i < |txns| && txns[i].kind == Return && txns[i].fromBranch == Some(id)
  }

  /** What the handlers keep on top of the table invariant: no Return row leaves the Store, and
      no lot's ledger balance is negative. */
  ghost predicate StockSound(branches: seq<Branch>, batches: seq<Batch>, txns: seq<Transaction>, disps: seq<Disposal>)
  {
    && NoStoreReturns(branches, txns)
    && forall i :: 0 <= i < |batches| ==> LedgerAvail(batches[i], txns, disps) >= 0
  }

  /** Return rows debit only lots away from the Store: every row debits a lot held at its
      from-branch, and no Return row leaves the Store, so no Return row debits a Store lot. */
  lemma StoreBatchHasNoReturns(branches: seq<Branch>, batches: seq<Batch>, txns: seq<Transaction>, k: nat)
    requires k < |batches| && IsStoreId(branches, batches[k].branchId)
    requires BatchIdsArePositions(batches) && TxnRefsExist(txns, |batches|)
    requires forall i :: 0 <= i < |txns| ==> txns[i].fromBranch == Some(batches[txns[i].batchId - 1].branchId)
    requires NoStoreReturns(branches, txns)
    ensures NoReturnAgainst(batches[k].id, txns)
  {
  }

  /** Appending a row that does not debit `id` leaves its debits unchanged. */
  lemma {:induction false} DebitedAppend(id: nat, txns: seq<Transaction>, t: Transaction, kinds: set<TxnKind>)
    ensures Debited(id, txns + [t], kinds) ==
            Debited(id, txns, kinds) + (if t.batchId == id && t.kind in kinds then t.quantity else 0)
  {
    assert (txns + [t])[..|txns|] == txns;
  }

  lemma {:induction false} DisposedAppend(id: nat, disps: seq<Disposal>, d: Disposal)
    ensures Disposed(id, disps + [d]) == Disposed(id, disps) + (if d.batchId == id then d.quantity else 0)
  {
    assert (disps + [d])[..|disps|] == disps;
  }

  lemma {:induction false} DisposedNone(id: nat, disps: seq<Disposal>)
    requires forall i :: 0 <= i < |disps| ==> disps[i].batchId != id
    ensures Disposed(id, disps) == 0
  {
    if disps != [] {
      DisposedNone(id, disps[..|disps| - 1]);
    }
  }
}
