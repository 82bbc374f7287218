/** The acquisition form: one new lot at the Store branch. */
module AcquisitionDialog {
  import opened Schema
  import opened Balance
  import opened Database
  import opened Conservation

  /** The lot the form describes, under the next ledger key. */
  function NewLot(id: nat, item: nat, store: nat, date: string, acqMethod: string, source: string, quantity: int,
                  cost: real, authorityRef: string, remarks: string, year: string): Batch
  {
    Batch(id, item, store, date, acqMethod, source, quantity, Some(cost), authorityRef, remarks, Some(year))
  }

  /** The form is saved only with an item, a Store branch, a method and a year. */
  predicate Complete(item: Option<nat>, store: Option<Branch>, acqMethod: string, year: string)
  {
    item.Some? && store.Some? && acqMethod != "" && year != ""
  }

  /** A lot nothing refers to yet adds its whole quantity to every balance that selects it. */
  lemma {:induction false} NewLotBalance(bs: seq<Batch>, txns: seq<Transaction>, disps: seq<Disposal>, nb: Batch,
                                            item: nat, branch: Option<nat>)
    requires forall i :: 0 <= i < |txns| ==> txns[i].batchId != nb.id
    requires forall i :: 0 <= i < |disps| ==> disps[i].batchId != nb.id
    ensures Selected(nb, item, branch) ==>
              BalanceOf(bs + [nb], txns, disps, item, branch) == BalanceOf(bs, txns, disps, item, branch) + nb.quantity
    ensures !Selected(nb, item, branch) ==>
              BalanceOf(bs + [nb], txns, disps, item, branch) == BalanceOf(bs, txns, disps, item, branch)
  {
    var after := bs + [nb];
    assert after[..|bs|] == bs && after[|bs|] == nb;
    FreshBatchAvail(nb, txns, disps);
  }

  /** A new lot under the next key, at an existing branch, for an existing item, keeps the ledger
      invariant and every reference resolvable; no ledger row refers to it yet. */
  lemma NewLotLedger(items: seq<Item>, branches: seq<Branch>, bs: seq<Batch>, ts: seq<Transaction>, ds: seq<Disposal>,
                     lot: Batch)
    requires LedgerOk(bs, ts, ds) && lot.id == |bs| + 1 && lot.quantity > 0
    requires HasKey(items, ItemId, lot.itemId) && HasKey(branches, BranchId, lot.branchId)
    ensures LedgerOk(bs + [lot], ts, ds)
    ensures References(items, branches, bs, ts) ==> References(items, branches, bs + [lot], ts)
    ensures forall i :: 0 <= i < |ts| ==> ts[i].batchId != lot.id
    ensures forall i :: 0 <= i < |ds| ==> ds[i].batchId != lot.id
    ensures StockSound(branches, bs, ts, ds) ==> StockSound(branches, bs + [lot], ts, ds)
  {
    var after := bs + [lot];
    forall i | 0 <= i < |ts| ensures ts[i].fromBranch == Some(after[ts[i].batchId - 1].branchId) {
      assert after[ts[i].batchId - 1] == bs[ts[i].batchId - 1];
    }
    FreshBatchAvail(lot, ts, ds);
    assert after[|bs|] == lot;
  }

  /** Stores the lot table with one lot appended. */
  method AppendLot(db: AssetDatabase, lot: Batch)
    requires db.Valid()
    requires LedgerOk(db.batches + [lot], db.transactions, db.disposals)
    requires db.Linked() ==> References(db.items, db.branches, db.batches + [lot], db.transactions)
    modifies db
    ensures db.Valid() && db.MastersUnchanged()
    ensures db.transactions == old(db.transactions) && db.disposals == old(db.disposals)
    ensures old(db.Linked()) ==> db.Linked()
    ensures db.batches == old(db.batches) + [lot]
  {
    db.batches := db.batches + [lot];
  }

  /** Save: the branch is whatever branch is named Store (the picker is fixed to it). An incomplete
      form posts nothing; otherwise exactly one lot is appended, carrying every field of the form,
      and the item's Store balance rises by the quantity. */
  method Save(db: AssetDatabase, item: Option<nat>, date: string, acqMethod: string, source: string, quantity: int,
              cost: real, authorityRef: string, remarks: string, year: string) returns (outcome: Outcome)
    requires db.Valid()
    requires item.Some? ==> HasKey(db.items, ItemId, item.value)
    requires quantity >= 1 && cost >= 0.0
    modifies db
    ensures db.Valid() && db.MastersUnchanged()
    ensures db.transactions == old(db.transactions) && db.disposals == old(db.disposals)
    ensures old(db.Linked()) ==> db.Linked()
    ensures old(db.Sound()) ==> db.Sound()
    ensures var store := BranchNamed(old(db.branches), StoreName);
            outcome == if Complete(item, store, acqMethod, year) then Done else MissingFields
    ensures outcome != Done ==> db.batches == old(db.batches)
    ensures outcome == Done ==>
              var store := BranchNamed(old(db.branches), StoreName).value.id;
              && db.batches == old(db.batches) + [NewLot(|old(db.batches)| + 1, item.value, store, date, acqMethod, source,
                                                         quantity, cost, authorityRef, remarks, year)]
              && BalanceOf(db.batches, db.transactions, db.disposals, item.value, Some(store)) ==
                 BalanceOf(old(db.batches), db.transactions, db.disposals, item.value, Some(store)) + quantity
  {
    var store := BranchNamed(db.branches, StoreName);
    if !Complete(item, store, acqMethod, year) {
      return MissingFields;
    }
    var lot := NewLot(|db.batches| + 1, item.value, store.value.id, date, acqMethod, source, quantity, cost,
                      authorityRef, remarks, year);
    assert store.value in db.branches;
    NewLotLedger(db.items, db.branches, db.batches, db.transactions, db.disposals, lot);
    NewLotBalance(db.batches, db.transactions, db.disposals, lot, item.value, Some(store.value.id));
    AppendLot(db, lot);
    outcome := Done;
  }
}
