/** Issue and Return move units; they neither create nor destroy them. The derived batch at the
    destination gains exactly what the consumed source batches lose. */
module Conservation {
  import opened Schema
  import opened Balance
  import opened Movement
  import Fifo

  /** A batch of `item`, at `branch` when one is given. */
  predicate Selected(b: Batch, item: nat, branch: Option<nat>)
  {
    b.itemId == item && (branch.None? || b.branchId == branch.value)
  }

  /** Ledger balance summed over the selected batches. */
  function BalanceOf(bs: seq<Batch>, txns: seq<Transaction>, disps: seq<Disposal>, item: nat, branch: Option<nat>): int
  {
    if bs == [] then 0
    else
      var b := bs[|bs| - 1];
      BalanceOf(bs[..|bs| - 1], txns, disps, item, branch) + (if Selected(b, item, branch) then LedgerAvail(b, txns, disps) else 0)
  }

  /** What one transaction row debits from the selected batches. */
  function DebitOn(bs: seq<Batch>, t: Transaction, item: nat, branch: Option<nat>): int
  {
    if bs == [] then 0
    else
      var b := bs[|bs| - 1];
      DebitOn(bs[..|bs| - 1], t, item, branch) + (if Selected(b, item, branch) && b.id == t.batchId then t.quantity else 0)
  }

  /** Units taken from selected candidates. */
  function Moved(cands: seq<Batch>, takes: seq<int>, item: nat, branch: Option<nat>): int
    requires |takes| <= |cands|
  {
    if takes == [] then 0
    else
      var j := |takes| - 1;
      Moved(cands, takes[..j], item, branch) + (if Selected(cands[j], item, branch) then takes[j] else 0)
  }

  /** Units that arrive in selected new batches. */
  function Arrived(ds: seq<Batch>, item: nat, branch: Option<nat>): int
  {
    if ds == [] then 0
    else
      var d := ds[|ds| - 1];
      Arrived(ds[..|ds| - 1], item, branch) + (if Selected(d, item, branch) then d.quantity else 0)
  }

  lemma {:induction false} BalanceAppendTxn(bs: seq<Batch>, txns: seq<Transaction>, disps: seq<Disposal>,
                                            t: Transaction, item: nat, branch: Option<nat>)
    ensures BalanceOf(bs, txns + [t], disps, item, branch) == BalanceOf(bs, txns, disps, item, branch) - DebitOn(bs, t, item, branch)
  {
    if bs != [] {
      var b := bs[|bs| - 1];
      BalanceAppendTxn(bs[..|bs| - 1], txns, disps, t, item, branch);
      DebitedAppend(b.id, txns, t, AllKinds);
      assert t.kind in AllKinds by {
        match t.kind
        case Issue =>
        case Transfer =>
        case Return =>
      }
    }
  }

  lemma {:induction false} DebitOnNone(bs: seq<Batch>, t: Transaction, item: nat, branch: Option<nat>)
    requires forall i :: 0 <= i < |bs| ==> bs[i].id != t.batchId
    ensures DebitOn(bs, t, item, branch) == 0
  {
    if bs != [] {
      DebitOnNone(bs[..|bs| - 1], t, item, branch);
    }
  }

  /** With unique ids a row debits exactly the one batch it names. */
  lemma {:induction false} DebitOnUnique(bs: seq<Batch>, t: Transaction, item: nat, branch: Option<nat>)
    requires BatchIdsArePositions(bs) && 1 <= t.batchId <= |bs|
    ensures DebitOn(bs, t, item, branch) == if Selected(bs[t.batchId - 1], item, branch) then t.quantity else 0
  {
    var init := bs[..|bs| - 1];
    if t.batchId == |bs| {
      DebitOnNone(init, t, item, branch);
    } else {
      DebitOnUnique(init, t, item, branch);
    }
  }

  /** A batch no row references has its whole quantity available. */
  lemma FreshBatchAvail(nb: Batch, txns: seq<Transaction>, disps: seq<Disposal>)
    requires forall i :: 0 <= i < |txns| ==> txns[i].batchId != nb.id
    requires forall i :: 0 <= i < |disps| ==> disps[i].batchId != nb.id
    ensures LedgerAvail(nb, txns, disps) == nb.quantity
  {
    DebitedNone(nb.id, txns, AllKinds);
    DisposedNone(nb.id, disps);
  }

  /** One posting step: a row debiting batch `c` and a fresh batch `d` receiving the same quantity. */
  lemma MoveStep(bs: seq<Batch>, txns: seq<Transaction>, disps: seq<Disposal>,
                 r: Transaction, d: Batch, c: Batch, item: nat, branch: Option<nat>)
    requires BatchIdsArePositions(bs + [d])
    requires 1 <= r.batchId <= |bs| && bs[r.batchId - 1] == c
    requires forall i :: 0 <= i < |txns| ==> txns[i].batchId <= |bs|
    requires DisposalRefsExist(disps, |bs|)
    requires d.quantity == r.quantity
    ensures BalanceOf(bs + [d], txns + [r], disps, item, branch) ==
            BalanceOf(bs, txns, disps, item, branch) - (if Selected(c, item, branch) then r.quantity else 0)
            + (if Selected(d, item, branch) then d.quantity else 0)
  {
    assert BatchIdsArePositions(bs) by {
      forall i | 0 <= i < |bs| ensures bs[i].id == i + 1 {
        assert (bs + [d])[i] == bs[i];
      }
    }
    assert d.id == |bs| + 1 by {
      assert (bs + [d])[|bs|] == d;
    }
    BalanceAppendTxn(bs, txns, disps, r, item, branch);
    DebitOnUnique(bs, r, item, branch);
    FreshBatchAvail(d, txns + [r], disps);
    assert (bs + [d])[..|bs|] == bs;
  }

  /** Every row of a move debits a batch of `bs`. */
  lemma MoveRowsRefs(bs: seq<Batch>, cands: seq<Batch>, takes: seq<int>, req: MoveRequest, src: nat, dst: nat, firstId: nat)
    requires BatchIdsArePositions(bs)
    requires |takes| <= |cands|
    requires forall j :: 0 <= j < |cands| ==> cands[j] in bs
    ensures var rows := MoveRows(cands, takes, req, src, dst, firstId);
            forall i :: 0 <= i < |rows| ==> 1 <= rows[i].batchId <= |bs| && bs[rows[i].batchId - 1] == cands[i]
  {
    var rows := MoveRows(cands, takes, req, src, dst, firstId);
    MoveRowsAt(cands, takes, req, src, dst, firstId);
    forall i | 0 <= i < |rows| ensures 1 <= rows[i].batchId <= |bs| && bs[rows[i].batchId - 1] == cands[i] {
      var m :| 0 <= m < |bs| && bs[m] == cands[i];
    }
  }

  lemma MoveRowsSnoc(cands: seq<Batch>, takes: seq<int>, req: MoveRequest, src: nat, dst: nat, firstId: nat)
    requires 0 < |takes| <= |cands|
    ensures var k := |takes| - 1;
            MoveRows(cands, takes, req, src, dst, firstId) ==
            MoveRows(cands, takes[..k], req, src, dst, firstId) + [MoveRow(cands[k], takes[k], req, src, dst, firstId + k)]
  {
  }

  lemma DerivedSnoc(cands: seq<Batch>, takes: seq<int>, req: MoveRequest, dst: nat, dstName: string, firstId: nat)
    requires 0 < |takes| <= |cands|
    ensures var k := |takes| - 1;
            DerivedBatches(cands, takes, req, dst, dstName, firstId) ==
            DerivedBatches(cands, takes[..k], req, dst, dstName, firstId) + [DerivedBatch(cands[k], takes[k], req, dst, dstName, firstId + k)]
  {
  }

  lemma DerivedIdsArePositions(bs: seq<Batch>, cands: seq<Batch>, takes: seq<int>, req: MoveRequest, dst: nat, dstName: string)
    requires BatchIdsArePositions(bs) && |takes| <= |cands|
    ensures BatchIdsArePositions(bs + DerivedBatches(cands, takes, req, dst, dstName, |bs| + 1))
  {
    DerivedAt(cands, takes, req, dst, dstName, |bs| + 1);
  }

  /** Posting the first |takes| (transaction, derived batch) pairs of a move changes the
      selected balance by what arrived minus what was moved out. */
  lemma {:induction false} MoveBalance(bs: seq<Batch>, txns: seq<Transaction>, disps: seq<Disposal>,
                                       cands: seq<Batch>, takes: seq<int>, req: MoveRequest,
                                       src: nat, dst: nat, dstName: string, item: nat, branch: Option<nat>)
    requires BatchIdsArePositions(bs) && TxnRefsExist(txns, |bs|) && DisposalRefsExist(disps, |bs|)
    requires |takes| <= |cands|
    requires forall j :: 0 <= j < |cands| ==> cands[j] in bs
    ensures BalanceOf(bs + DerivedBatches(cands, takes, req, dst, dstName, |bs| + 1),
                      txns + MoveRows(cands, takes, req, src, dst, |txns| + 1), disps, item, branch) ==
            BalanceOf(bs, txns, disps, item, branch) - Moved(cands, takes, item, branch)
            + Arrived(DerivedBatches(cands, takes, req, dst, dstName, |bs| + 1), item, branch)
  {
    if takes == [] {
      assert bs + DerivedBatches(cands, takes, req, dst, dstName, |bs| + 1) == bs;
      assert txns + MoveRows(cands, takes, req, src, dst, |txns| + 1) == txns;
    } else {
      MoveBalance(bs, txns, disps, cands, takes[..|takes| - 1], req, src, dst, dstName, item, branch);
      MoveBalanceStep(bs, txns, disps, cands, takes, req, src, dst, dstName, item, branch);
    }
  }

  /** The last pair of a posted move: the tables are the earlier pairs plus this one, and the
      balance changes by what this pair moves. */
  lemma LastPair(bs: seq<Batch>, txns: seq<Transaction>, disps: seq<Disposal>, cands: seq<Batch>, takes: seq<int>,
                 req: MoveRequest, src: nat, dst: nat, dstName: string, item: nat, branch: Option<nat>)
    requires BatchIdsArePositions(bs) && TxnRefsExist(txns, |bs|) && DisposalRefsExist(disps, |bs|)
    requires 0 < |takes| <= |cands|
    requires forall j :: 0 <= j < |cands| ==> cands[j] in bs
    ensures var k := |takes| - 1;
            var rows0 := MoveRows(cands, takes[..k], req, src, dst, |txns| + 1);
            var derived0 := DerivedBatches(cands, takes[..k], req, dst, dstName, |bs| + 1);
            var r := MoveRow(cands[k], takes[k], req, src, dst, |txns| + 1 + k);
            var d := DerivedBatch(cands[k], takes[k], req, dst, dstName, |bs| + 1 + k);
            && MoveRows(cands, takes, req, src, dst, |txns| + 1) == rows0 + [r]
            && DerivedBatches(cands, takes, req, dst, dstName, |bs| + 1) == derived0 + [d]
            && BalanceOf(bs + (derived0 + [d]), txns + (rows0 + [r]), disps, item, branch) ==
               BalanceOf(bs + derived0, txns + rows0, disps, item, branch)
               - (if Selected(cands[k], item, branch) then takes[k] else 0) + (if Selected(d, item, branch) then d.quantity else 0)
  {
    var k := |takes| - 1;
    var rows0 := MoveRows(cands, takes[..k], req, src, dst, |txns| + 1);
    var derived0 := DerivedBatches(cands, takes[..k], req, dst, dstName, |bs| + 1);
    var r := MoveRow(cands[k], takes[k], req, src, dst, |txns| + 1 + k);
    var d := DerivedBatch(cands[k], takes[k], req, dst, dstName, |bs| + 1 + k);
    DerivedIdsArePositions(bs, cands, takes, req, dst, dstName);
    MoveRowsRefs(bs, cands, takes, req, src, dst, |txns| + 1);
    MoveRowsAt(cands, takes, req, src, dst, |txns| + 1);
    MoveRowsRefs(bs, cands, takes[..k], req, src, dst, |txns| + 1);
    PairStep(bs, txns, disps, derived0, rows0, d, r, cands[k], item, branch);
  }

  lemma MoveBalanceStep(bs: seq<Batch>, txns: seq<Transaction>, disps: seq<Disposal>,
                        cands: seq<Batch>, takes: seq<int>, req: MoveRequest,
                        src: nat, dst: nat, dstName: string, item: nat, branch: Option<nat>)
    requires BatchIdsArePositions(bs) && TxnRefsExist(txns, |bs|) && DisposalRefsExist(disps, |bs|)
    requires 0 < |takes| <= |cands|
    requires forall j :: 0 <= j < |cands| ==> cands[j] in bs
    requires var init := takes[..|takes| - 1];
             BalanceOf(bs + DerivedBatches(cands, init, req, dst, dstName, |bs| + 1),
                       txns + MoveRows(cands, init, req, src, dst, |txns| + 1), disps, item, branch) ==
             BalanceOf(bs, txns, disps, item, branch) - Moved(cands, init, item, branch)
             + Arrived(DerivedBatches(cands, init, req, dst, dstName, |bs| + 1), item, branch)
    ensures BalanceOf(bs + DerivedBatches(cands, takes, req, dst, dstName, |bs| + 1),
                      txns + MoveRows(cands, takes, req, src, dst, |txns| + 1), disps, item, branch) ==
            BalanceOf(bs, txns, disps, item, branch) - Moved(cands, takes, item, branch)
            + Arrived(DerivedBatches(cands, takes, req, dst, dstName, |bs| + 1), item, branch)
  {
    var k := |takes| - 1;
    var derived0 := DerivedBatches(cands, takes[..k], req, dst, dstName, |bs| + 1);
    var d := DerivedBatch(cands[k], takes[k], req, dst, dstName, |bs| + 1 + k);
    LastPair(bs, txns, disps, cands, takes, req, src, dst, dstName, item, branch);
    assert (derived0 + [d])[..k] == derived0;
  }

  /** Appending one more (row, derived batch) pair to a partially posted move. */
  lemma PairStep(bs: seq<Batch>, txns: seq<Transaction>, disps: seq<Disposal>,
                 derived0: seq<Batch>, rows0: seq<Transaction>, d: Batch, r: Transaction, c: Batch,
                 item: nat, branch: Option<nat>)
    requires BatchIdsArePositions(bs + (derived0 + [d]))
    requires TxnRefsExist(txns, |bs|) && DisposalRefsExist(disps, |bs|)
    requires 1 <= r.batchId <= |bs| && bs[r.batchId - 1] == c
    requires forall i :: 0 <= i < |rows0| ==> rows0[i].batchId <= |bs|
    requires d.quantity == r.quantity
    ensures BalanceOf(bs + (derived0 + [d]), txns + (rows0 + [r]), disps, item, branch) ==
            BalanceOf(bs + derived0, txns + rows0, disps, item, branch)
            - (if Selected(c, item, branch) then r.quantity else 0) + (if Selected(d, item, branch) then d.quantity else 0)
  {
    var bsK := bs + derived0;
    var txK := txns + rows0;
    assert bs + (derived0 + [d]) == bsK + [d] && txns + (rows0 + [r]) == txK + [r];
    assert bsK[r.batchId - 1] == c;
    assert forall i :: 0 <= i < |txK| ==> txK[i].batchId <= |bsK| by {
      forall i | 0 <= i < |txK| ensures txK[i].batchId <= |bsK| {
        if i < |txns| { assert txK[i] == txns[i]; } else { assert txK[i] == rows0[i - |txns|]; }
      }
    }
    assert DisposalRefsExist(disps, |bsK|);
    MoveStep(bsK, txK, disps, r, d, c, item, branch);
  }

  lemma {:induction false} MovedEqualsArrived(cands: seq<Batch>, takes: seq<int>, req: MoveRequest,
                                              dst: nat, dstName: string, firstId: nat, item: nat)
    requires |takes| <= |cands|
    ensures Moved(cands, takes, item, None) == Arrived(DerivedBatches(cands, takes, req, dst, dstName, firstId), item, None)
  {
    if takes != [] {
      var k := |takes| - 1;
      MovedEqualsArrived(cands, takes[..k], req, dst, dstName, firstId, item);
      var derived := DerivedBatches(cands, takes, req, dst, dstName, firstId);
      assert derived[..k] == DerivedBatches(cands, takes[..k], req, dst, dstName, firstId);
    }
  }

  lemma {:induction false} MovedFromSource(cands: seq<Batch>, takes: seq<int>, item: nat, src: nat)
    requires |takes| <= |cands|
    requires forall j :: 0 <= j < |cands| ==> cands[j].itemId == item && cands[j].branchId == src
    ensures Moved(cands, takes, item, Some(src)) == Fifo.Sum(takes)
  {
    if takes != [] {
      MovedFromSource(cands, takes[..|takes| - 1], item, src);
    }
  }

  lemma {:induction false} NothingMovedFrom(cands: seq<Batch>, takes: seq<int>, item: nat, dst: nat)
    requires |takes| <= |cands|
    requires forall j :: 0 <= j < |cands| ==> cands[j].branchId != dst
    ensures Moved(cands, takes, item, Some(dst)) == 0
  {
    if takes != [] {
      NothingMovedFrom(cands, takes[..|takes| - 1], item, dst);
    }
  }

  lemma {:induction false} ArrivedAtDestination(cands: seq<Batch>, takes: seq<int>, req: MoveRequest,
                                                dst: nat, dstName: string, firstId: nat, item: nat, other: nat)
    requires |takes| <= |cands|
    requires forall j :: 0 <= j < |cands| ==> cands[j].itemId == item
    ensures Arrived(DerivedBatches(cands, takes, req, dst, dstName, firstId), item, Some(dst)) == Fifo.Sum(takes)
    ensures other != dst ==> Arrived(DerivedBatches(cands, takes, req, dst, dstName, firstId), item, Some(other)) == 0
  {
    if takes != [] {
      var k := |takes| - 1;
      ArrivedAtDestination(cands, takes[..k], req, dst, dstName, firstId, item, other);
      var derived := DerivedBatches(cands, takes, req, dst, dstName, firstId);
      assert derived[..k] == DerivedBatches(cands, takes[..k], req, dst, dstName, firstId);
    }
  }

  /** Issue/Return conserve units: the item's balance over all branches is unchanged, the
      source branch loses exactly the posted total and the destination gains exactly it. */
  lemma MoveConserves(bs: seq<Batch>, txns: seq<Transaction>, disps: seq<Disposal>,
                      cands: seq<Batch>, takes: seq<int>, req: MoveRequest, src: nat, dst: nat, dstName: string)
    requires BatchIdsArePositions(bs) && TxnRefsExist(txns, |bs|) && DisposalRefsExist(disps, |bs|)
    requires |takes| <= |cands| && src != dst
    requires forall j :: 0 <= j < |cands| ==> cands[j] in bs && cands[j].itemId == req.item && cands[j].branchId == src
    ensures var after := bs + DerivedBatches(cands, takes, req, dst, dstName, |bs| + 1);
            var txAfter := txns + MoveRows(cands, takes, req, src, dst, |txns| + 1);
            && BalanceOf(after, txAfter, disps, req.item, None) == BalanceOf(bs, txns, disps, req.item, None)
            && BalanceOf(after, txAfter, disps, req.item, Some(src)) == BalanceOf(bs, txns, disps, req.item, Some(src)) - Fifo.Sum(takes)
            && BalanceOf(after, txAfter, disps, req.item, Some(dst)) == BalanceOf(bs, txns, disps, req.item, Some(dst)) + Fifo.Sum(takes)
  {
    var derived := DerivedBatches(cands, takes, req, dst, dstName, |bs| + 1);
    MoveBalance(bs, txns, disps, cands, takes, req, src, dst, dstName, req.item, None);
    MovedEqualsArrived(cands, takes, req, dst, dstName, |bs| + 1, req.item);
    MoveBalance(bs, txns, disps, cands, takes, req, src, dst, dstName, req.item, Some(src));
    MovedFromSource(cands, takes, req.item, src);
    ArrivedAtDestination(cands, takes, req, dst, dstName, |bs| + 1, req.item, src);
    MoveBalance(bs, txns, disps, cands, takes, req, src, dst, dstName, req.item, Some(dst));
    NothingMovedFrom(cands, takes, req.item, dst);
  }
}
