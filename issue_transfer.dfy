/** The issue/return form: pre-check against the year's ledger availability, then the FIFO
    posting loop that writes one transaction row and one derived lot per consumed lot. */
module IssueDialog {
  import opened Schema
  import opened Balance
  import opened Movement
  import opened Conservation
  import opened Database
  import Fifo

  /** What the form holds when OK is pressed. The type picker offers Issue and Return only;
      `branch` is the non-Store branch picker and `year` the year picker, either of which may be empty. */
  datatype IssueForm = IssueForm(item: Option<nat>, kind: TxnKind, branch: Option<nat>, year: Option<string>,
                                 date: string, quantity: int, authorityRef: string, remarks: string)

  /** Source and destination: an Issue leaves the Store, a Return goes back to it. */
  function Route(kind: TxnKind, store: nat, branch: nat): (nat, nat)
  {
    if kind == Issue then (store, branch) else (branch, store)
  }

  function Request(form: IssueForm): MoveRequest
    requires form.item.Some? && form.year.Some?
  {
    MoveRequest(form.item.value, form.kind, form.date, form.quantity, form.authorityRef, form.remarks, form.year.value)
  }

  predicate Filled(form: IssueForm)
  {
    form.item.Some? && form.branch.Some? && form.year.Some? && form.year.value != ""
  }

  /** The lots the save would draw from, given the form. */
  function SourceLots(branches: seq<Branch>, batches: seq<Batch>, txns: seq<Transaction>, disps: seq<Disposal>,
                      form: IssueForm): seq<Batch>
    requires BranchNamed(branches, StoreName).Some? && Filled(form)
  {
    var src := Route(form.kind, BranchNamed(branches, StoreName).value.id, form.branch.value).0;
    Candidates(batches, txns, disps, form.item.value, src, form.year.value)
  }

  /** The save's decision, in the order the handler checks: the Store lookup (the handler stops
      with an error when there is none), required fields, the Store as counterpart, then the
      year's total availability at the source. */
  function Decide(branches: seq<Branch>, batches: seq<Batch>, txns: seq<Transaction>, disps: seq<Disposal>,
                  form: IssueForm): Outcome
  {
    var store := BranchNamed(branches, StoreName);
    if store.None? then NoStore
    else if !Filled(form) then MissingFields
    else if form.branch.value == store.value.id then SameAsStore
    else
      var total := TotalAvail(SourceLots(branches, batches, txns, disps, form), txns, disps);
      if form.quantity > total then InsufficientStock(total) else Done
  }

  /** A save that passes the pre-check can always be posted in full: the FIFO plan over the
      source lots takes exactly the requested quantity, each part positive and within its lot. */
  lemma DoneMeansCovered(branches: seq<Branch>, batches: seq<Batch>, txns: seq<Transaction>, disps: seq<Disposal>,
                         form: IssueForm)
    requires NoTransferRows(txns) && form.quantity >= 1
    requires Decide(branches, batches, txns, disps, form) == Done
    ensures var cands := SourceLots(branches, batches, txns, disps, form);
            var plan := Plan(cands, txns, disps, form.quantity);
            && Fifo.Sum(plan) == form.quantity
            && forall j :: 0 <= j < |plan| ==> 0 < plan[j] <= LedgerAvail(cands[j], txns, disps)
  {
    var src := Route(form.kind, BranchNamed(branches, StoreName).value.id, form.branch.value).0;
    PlanMeetsRequest(batches, txns, disps, form.item.value, src, form.year.value, form.quantity);
  }

  /** Posting one row and its derived lot keeps the ledger invariant. */
  lemma PostOneLedger(bs: seq<Batch>, ts: seq<Transaction>, ds: seq<Disposal>, c: Batch, take: int,
                      req: MoveRequest, src: nat, dst: nat, dstName: string)
    requires LedgerOk(bs, ts, ds)
    requires c in bs && c.branchId == src && take > 0 && req.kind != Transfer
    ensures LedgerOk(bs + [DerivedBatch(c, take, req, dst, dstName, |bs| + 1)],
                     ts + [MoveRow(c, take, req, src, dst, |ts| + 1)], ds)
  {
    var k :| 0 <= k < |bs| && bs[k] == c;
    var bs' := bs + [DerivedBatch(c, take, req, dst, dstName, |bs| + 1)];
    var ts' := ts + [MoveRow(c, take, req, src, dst, |ts| + 1)];
    forall i | 0 <= i < |ts'| ensures ts'[i].fromBranch == Some(bs'[ts'[i].batchId - 1].branchId) {
      if i < |ts| {
        assert ts'[i] == ts[i];
      } else {
        assert bs'[c.id - 1] == c;
      }
    }
  }

  /** Posting one row and its derived lot keeps every reference resolvable. */
  lemma PostOneReferences(items: seq<Item>, branches: seq<Branch>, bs: seq<Batch>, ts: seq<Transaction>, c: Batch,
                          take: int, req: MoveRequest, src: nat, dst: nat, dstName: string)
    requires References(items, branches, bs, ts)
    requires HasKey(branches, BranchId, src) && HasKey(branches, BranchId, dst) && HasKey(items, ItemId, c.itemId)
    ensures References(items, branches, bs + [DerivedBatch(c, take, req, dst, dstName, |bs| + 1)],
                       ts + [MoveRow(c, take, req, src, dst, |ts| + 1)])
  {
  }

  /** Where the posting loop stands after `i` lots: what it took so far is a prefix of the
      lot-by-lot plan read against the tables as they were, and the rows it wrote have not
      touched the lots still to come. */
  ghost predicate OnPlan(cands: seq<Batch>, t0: seq<Transaction>, disps: seq<Disposal>, quantity: int,
                         taken: seq<int>, i: nat, remaining: int, txns: seq<Transaction>)
  {
    && i <= |cands| && |taken| == i
    && LotByLot(cands, t0, disps, 0, quantity) == taken + LotByLot(cands, t0, disps, i, remaining)
    && forall k :: i <= k < |cands| ==> IssueReturnAvail(cands[k], txns, disps) == IssueReturnAvail(cands[k], t0, disps)
  }

  /** One pass of the loop keeps it on the plan: a row against lot i changes nothing the
      later lots report, since their keys differ. */
  lemma PlanStep(cands: seq<Batch>, t0: seq<Transaction>, disps: seq<Disposal>, quantity: int,
                 taken: seq<int>, i: nat, remaining: int, txns: seq<Transaction>, t: int, row: Transaction)
    requires OnPlan(cands, t0, disps, quantity, taken, i, remaining, txns)
    requires AscendingIds(cands) && i < |cands| && remaining > 0 && row.batchId == cands[i].id
    requires t == Fifo.Min(remaining, IssueReturnAvail(cands[i], txns, disps))
    ensures OnPlan(cands, t0, disps, quantity, taken + [t], i + 1, remaining - t, txns + [row])
  {
    forall k | i < k < |cands|
      ensures IssueReturnAvail(cands[k], txns + [row], disps) == IssueReturnAvail(cands[k], t0, disps)
    {
      DebitedAppend(cands[k].id, txns, row, {Issue, Return});
    }
  }

  /** The transaction table, one row further on. */
  lemma TxnsStep(cands: seq<Batch>, t0: seq<Transaction>, taken: seq<int>, t: int, req: MoveRequest, src: nat, dst: nat,
                 txns: seq<Transaction>)
    requires |taken| < |cands| && txns == t0 + MoveRows(cands, taken, req, src, dst, |t0| + 1)
    ensures txns + [MoveRow(cands[|taken|], t, req, src, dst, |txns| + 1)] ==
            t0 + MoveRows(cands, taken + [t], req, src, dst, |t0| + 1)
  {
    assert (taken + [t])[..|taken|] == taken;
    MoveRowsSnoc(cands, taken + [t], req, src, dst, |t0| + 1);
    assert t0 + (MoveRows(cands, taken, req, src, dst, |t0| + 1) + [MoveRow(cands[|taken|], t, req, src, dst, |txns| + 1)])
        == txns + [MoveRow(cands[|taken|], t, req, src, dst, |txns| + 1)];
  }

  /** The lot table, one derived lot further on. */
  lemma LotsStep(cands: seq<Batch>, b0: seq<Batch>, taken: seq<int>, t: int, req: MoveRequest, dst: nat, dstName: string,
                 lots: seq<Batch>)
    requires |taken| < |cands| && lots == b0 + DerivedBatches(cands, taken, req, dst, dstName, |b0| + 1)
    ensures lots + [DerivedBatch(cands[|taken|], t, req, dst, dstName, |lots| + 1)] ==
            b0 + DerivedBatches(cands, taken + [t], req, dst, dstName, |b0| + 1)
  {
    assert (taken + [t])[..|taken|] == taken;
    DerivedSnoc(cands, taken + [t], req, dst, dstName, |b0| + 1);
    assert b0 + (DerivedBatches(cands, taken, req, dst, dstName, |b0| + 1) + [DerivedBatch(cands[|taken|], t, req, dst, dstName, |lots| + 1)])
        == lots + [DerivedBatch(cands[|taken|], t, req, dst, dstName, |lots| + 1)];
  }

  /** When the loop stops, it has taken the whole plan. */
  lemma LoopDone(cands: seq<Batch>, t0: seq<Transaction>, disps: seq<Disposal>, quantity: int,
                 taken: seq<int>, i: nat, remaining: int, txns: seq<Transaction>)
    requires OnPlan(cands, t0, disps, quantity, taken, i, remaining, txns)
    requires i == |cands| || remaining <= 0
    ensures taken == Plan(cands, t0, disps, quantity)
  {
    LotByLotIsPlan(cands, t0, disps, 0, quantity);
    assert IssueReturnAvails(cands, t0, disps)[0..] == IssueReturnAvails(cands, t0, disps);
  }

  /** Posting a whole run of takes, row by row, keeps the ledger invariant. */
  lemma {:induction false} PostedLedger(b0: seq<Batch>, t0: seq<Transaction>, ds: seq<Disposal>, cands: seq<Batch>,
                                        taken: seq<int>, req: MoveRequest, src: nat, dst: nat, dstName: string)
    requires LedgerOk(b0, t0, ds) && req.kind != Transfer && |taken| <= |cands|
    requires forall j :: 0 <= j < |cands| ==> cands[j] in b0 && cands[j].branchId == src
    requires forall j :: 0 <= j < |taken| ==> taken[j] > 0
    ensures LedgerOk(b0 + DerivedBatches(cands, taken, req, dst, dstName, |b0| + 1),
                     t0 + MoveRows(cands, taken, req, src, dst, |t0| + 1), ds)
    decreases |taken|
  {
    if taken == [] {
      assert b0 + [] == b0 && t0 + [] == t0;
    } else {
      var p, t := taken[..|taken| - 1], taken[|taken| - 1];
      assert p + [t] == taken;
      PostedLedger(b0, t0, ds, cands, p, req, src, dst, dstName);
      var bs := b0 + DerivedBatches(cands, p, req, dst, dstName, |b0| + 1);
      var ts := t0 + MoveRows(cands, p, req, src, dst, |t0| + 1);
      TxnsStep(cands, t0, p, t, req, src, dst, ts);
      LotsStep(cands, b0, p, t, req, dst, dstName, bs);
      assert cands[|p|] in bs;
      PostOneLedger(bs, ts, ds, cands[|p|], t, req, src, dst, dstName);
    }
  }

  /** Posting a whole run of takes between existing branches keeps every reference resolvable. */
  lemma {:induction false} PostedReferences(items: seq<Item>, branches: seq<Branch>, b0: seq<Batch>, t0: seq<Transaction>,
                                            cands: seq<Batch>, taken: seq<int>, req: MoveRequest, src: nat, dst: nat,
                                            dstName: string)
    requires References(items, branches, b0, t0) && |taken| <= |cands|
    requires forall j :: 0 <= j < |cands| ==> cands[j] in b0
    requires HasKey(branches, BranchId, src) && HasKey(branches, BranchId, dst)
    ensures References(items, branches, b0 + DerivedBatches(cands, taken, req, dst, dstName, |b0| + 1),
                       t0 + MoveRows(cands, taken, req, src, dst, |t0| + 1))
    decreases |taken|
  {
    if taken == [] {
      assert b0 + [] == b0 && t0 + [] == t0;
    } else {
      var p, t := taken[..|taken| - 1], taken[|taken| - 1];
      assert p + [t] == taken;
      PostedReferences(items, branches, b0, t0, cands, p, req, src, dst, dstName);
      var bs := b0 + DerivedBatches(cands, p, req, dst, dstName, |b0| + 1);
      var ts := t0 + MoveRows(cands, p, req, src, dst, |t0| + 1);
      TxnsStep(cands, t0, p, t, req, src, dst, ts);
      LotsStep(cands, b0, p, t, req, dst, dstName, bs);
      var k :| 0 <= k < |b0| && b0[k] == cands[|p|];
      PostOneReferences(items, branches, bs, ts, cands[|p|], t, req, src, dst, dstName);
    }
  }

  /** Posting a plan whose every take lies within its lot's ledger balance leaves lot i of
      the table, if it was not overdrawn, still not overdrawn. */
  lemma PostedKeepsLot(bs: seq<Batch>, ts: seq<Transaction>, ds: seq<Disposal>, cands: seq<Batch>, plan: seq<int>,
                       req: MoveRequest, src: nat, dst: nat, i: nat)
    requires BatchIdsArePositions(bs)
    requires AscendingIds(cands) && |plan| <= |cands| && forall j :: 0 <= j < |cands| ==> cands[j] in bs
    requires forall j :: 0 <= j < |plan| ==> plan[j] <= LedgerAvail(cands[j], ts, ds)
    requires i < |bs| && LedgerAvail(bs[i], ts, ds) >= 0
    ensures LedgerAvail(bs[i], ts + MoveRows(cands, plan, req, src, dst, |ts| + 1), ds) >= 0
  {
    DebitedAfterMoves(bs[i].id, ts, cands, plan, req, src, dst, |ts| + 1, AllKinds);
    if j :| 0 <= j < |cands| && cands[j].id == bs[i].id {
      var k :| 0 <= k < |bs| && bs[k] == cands[j];
      TakenFromLot(cands, plan, j);
    } else {
      TakenFromOther(cands, plan, bs[i].id);
    }
  }

  /** A derived lot holds its whole take: no row refers to it yet. */
  lemma PostedDerivedLot(bs: seq<Batch>, ts: seq<Transaction>, ds: seq<Disposal>, cands: seq<Batch>, plan: seq<int>,
                         req: MoveRequest, src: nat, dst: nat, dstName: string, j: nat)
    requires LedgerOk(bs, ts, ds)
    requires |plan| <= |cands| && forall k :: 0 <= k < |cands| ==> cands[k] in bs
    requires j < |plan| && plan[j] > 0
    ensures LedgerAvail(DerivedBatches(cands, plan, req, dst, dstName, |bs| + 1)[j],
                        ts + MoveRows(cands, plan, req, src, dst, |ts| + 1), ds) > 0
  {
    DerivedAt(cands, plan, req, dst, dstName, |bs| + 1);
    var d := DerivedBatches(cands, plan, req, dst, dstName, |bs| + 1)[j];
    forall k | 0 <= k < |cands| ensures cands[k].id != d.id {
      var m :| 0 <= m < |bs| && bs[m] == cands[k];
    }
    TakenFromOther(cands, plan, d.id);
    DebitedAfterMoves(d.id, ts, cands, plan, req, src, dst, |ts| + 1, AllKinds);
    DebitedNone(d.id, ts, AllKinds);
    DisposedNone(d.id, ds);
  }

  /** Posting a plan whose every take lies within its lot's ledger balance, with Return rows
      leaving a non-Store branch, keeps the stock sound: the drawn lots stay non-negative,
      the derived lots hold their whole take, and no Return row leaves the Store. */
  lemma PostedSound(branches: seq<Branch>, bs: seq<Batch>, ts: seq<Transaction>, ds: seq<Disposal>,
                    cands: seq<Batch>, plan: seq<int>, req: MoveRequest, src: nat, dst: nat, dstName: string)
    requires LedgerOk(bs, ts, ds) && StockSound(branches, bs, ts, ds)
    requires AscendingIds(cands) && |plan| <= |cands| && forall j :: 0 <= j < |cands| ==> cands[j] in bs
    requires forall j :: 0 <= j < |plan| ==> 0 < plan[j] <= LedgerAvail(cands[j], ts, ds)
    requires req.kind == Return ==> !IsStoreId(branches, src)
    ensures StockSound(branches, bs + DerivedBatches(cands, plan, req, dst, dstName, |bs| + 1),
                       ts + MoveRows(cands, plan, req, src, dst, |ts| + 1), ds)
  {
    var rows := MoveRows(cands, plan, req, src, dst, |ts| + 1);
    var derived := DerivedBatches(cands, plan, req, dst, dstName, |bs| + 1);
    var bs', ts' := bs + derived, ts + rows;
    MoveRowsAt(cands, plan, req, src, dst, |ts| + 1);
    forall i | 0 <= i < |ts'| && ts'[i].kind == Return && ts'[i].fromBranch.Some?
      ensures !IsStoreId(branches, ts'[i].fromBranch.value)
    {
      if i < |ts| {
        assert ts'[i] == ts[i];
      } else {
        assert ts'[i] == rows[i - |ts|];
      }
    }
    forall i | 0 <= i < |bs'| ensures LedgerAvail(bs'[i], ts', ds) >= 0 {
      if i < |bs| {
        assert bs'[i] == bs[i];
        PostedKeepsLot(bs, ts, ds, cands, plan, req, src, dst, i);
      } else {
        assert bs'[i] == derived[i - |bs|];
        PostedDerivedLot(bs, ts, ds, cands, plan, req, src, dst, dstName, i - |bs|);
      }
    }
  }

  /** The posting loop, over the tables' values: the lots in ascending key order, each giving
      the smaller of what is still wanted and what `get_available_quantity` reports for it
      against the rows written so far, until the request is met. The rows it writes are exactly
      those of the FIFO plan computed up front. */
  method PostRows(t0: seq<Transaction>, b0: seq<Batch>, disps: seq<Disposal>,
                  cands: seq<Batch>, req: MoveRequest, src: nat, dst: nat, dstName: string)
    returns (txns: seq<Transaction>, lots: seq<Batch>)
    requires AscendingIds(cands)
    requires forall k :: 0 <= k < |cands| ==> IssueReturnAvail(cands[k], t0, disps) > 0
    ensures var plan := Plan(cands, t0, disps, req.quantity);
            && (forall j :: 0 <= j < |plan| ==> plan[j] > 0)
            && txns == t0 + MoveRows(cands, plan, req, src, dst, |t0| + 1)
            && lots == b0 + DerivedBatches(cands, plan, req, dst, dstName, |b0| + 1)
  {
    txns, lots := t0, b0;
    ghost var taken: seq<int> := [];
    var remaining := req.quantity;
    var i := 0;
    while i < |cands| && remaining > 0
      invariant OnPlan(cands, t0, disps, req.quantity, taken, i, remaining, txns)
      invariant txns == t0 + MoveRows(cands, taken, req, src, dst, |t0| + 1)
      invariant lots == b0 + DerivedBatches(cands, taken, req, dst, dstName, |b0| + 1)
      invariant forall j :: 0 <= j < |taken| ==> taken[j] > 0
    {
      var c := cands[i];
      var avail := IssueReturnAvail(c, txns, disps);
      var take := Fifo.Min(remaining, avail);
      var row := MoveRow(c, take, req, src, dst, |txns| + 1);
      PlanStep(cands, t0, disps, req.quantity, taken, i, remaining, txns, take, row);
      TxnsStep(cands, t0, taken, take, req, src, dst, txns);
      LotsStep(cands, b0, taken, take, req, dst, dstName, lots);
      txns := txns + [row];
      lots := lots + [DerivedBatch(c, take, req, dst, dstName, |lots| + 1)];
      taken := taken + [take];
      remaining := remaining - take;
      i := i + 1;
    }
    LoopDone(cands, t0, disps, req.quantity, taken, i, remaining, txns);
  }

  /** The posting loop with what it keeps: the ledger stays well formed and, between existing
      branches, every reference keeps resolving. */
  method PostPlan(items: seq<Item>, branches: seq<Branch>, t0: seq<Transaction>, b0: seq<Batch>, disps: seq<Disposal>,
                  cands: seq<Batch>, req: MoveRequest, src: nat, dst: nat, dstName: string)
    returns (txns: seq<Transaction>, lots: seq<Batch>)
    requires LedgerOk(b0, t0, disps)
    requires AscendingIds(cands)
    requires forall j :: 0 <= j < |cands| ==> cands[j] in b0 && cands[j].branchId == src
    requires forall k :: 0 <= k < |cands| ==> IssueReturnAvail(cands[k], t0, disps) > 0
    requires req.kind != Transfer
    requires HasKey(branches, BranchId, src) && HasKey(branches, BranchId, dst)
    ensures LedgerOk(lots, txns, disps)
    ensures References(items, branches, b0, t0) ==> References(items, branches, lots, txns)
    ensures var plan := Plan(cands, t0, disps, req.quantity);
            && txns == t0 + MoveRows(cands, plan, req, src, dst, |t0| + 1)
            && lots == b0 + DerivedBatches(cands, plan, req, dst, dstName, |b0| + 1)
  {
    txns, lots := PostRows(t0, b0, disps, cands, req, src, dst, dstName);
    ghost var plan := Plan(cands, t0, disps, req.quantity);
    PostedLedger(b0, t0, disps, cands, plan, req, src, dst, dstName);
    if References(items, branches, b0, t0) {
      PostedReferences(items, branches, b0, t0, cands, plan, req, src, dst, dstName);
    }
  }

  /** Stores the posted transaction and lot tables; the master tables and the disposals are
      untouched. */
  method Commit(db: AssetDatabase, txns: seq<Transaction>, lots: seq<Batch>)
    requires db.Valid()
    requires LedgerOk(lots, txns, db.disposals)
    requires db.Linked() ==> References(db.items, db.branches, lots, txns)
    modifies db
    ensures db.Valid() && db.MastersUnchanged() && db.disposals == old(db.disposals)
    ensures old(db.Linked()) ==> db.Linked()
    ensures db.transactions == txns && db.batches == lots
  {
    db.transactions, db.batches := txns, lots;
  }

  /** What a save that passes the pre-check does to the balances, stated on the tables' values:
      the source lots are positive, ascending and at the source, and posting the FIFO plan over
      them moves exactly the requested quantity from source to destination. */
  lemma IssueEffect(bs: seq<Batch>, ts: seq<Transaction>, ds: seq<Disposal>, cands: seq<Batch>,
                    req: MoveRequest, src: nat, dst: nat, dstName: string)
    requires LedgerOk(bs, ts, ds) && src != dst
    requires cands == Candidates(bs, ts, ds, req.item, src, req.year)
    requires 0 <= req.quantity <= TotalAvail(cands, ts, ds)
    ensures AscendingIds(cands)
    ensures forall j :: 0 <= j < |cands| ==> cands[j] in bs && cands[j].branchId == src
    ensures forall k :: 0 <= k < |cands| ==> IssueReturnAvail(cands[k], ts, ds) > 0
    ensures var plan := Plan(cands, ts, ds, req.quantity);
            var after := bs + DerivedBatches(cands, plan, req, dst, dstName, |bs| + 1);
            var txAfter := ts + MoveRows(cands, plan, req, src, dst, |ts| + 1);
            && BalanceOf(after, txAfter, ds, req.item, Some(src)) == BalanceOf(bs, ts, ds, req.item, Some(src)) - req.quantity
            && BalanceOf(after, txAfter, ds, req.item, Some(dst)) == BalanceOf(bs, ts, ds, req.item, Some(dst)) + req.quantity
            && BalanceOf(after, txAfter, ds, req.item, None) == BalanceOf(bs, ts, ds, req.item, None)
  {
    assert AscendingIds(bs);
    assert forall j :: 0 <= j < |cands| ==> cands[j] in cands;
    CandidatesPositive(cands, ts, ds);
    var avails := IssueReturnAvails(cands, ts, ds);
    assert forall k :: 0 <= k < |cands| ==> avails[k] > 0;
    PlanMeetsRequest(bs, ts, ds, req.item, src, req.year, req.quantity);
    MoveConserves(bs, ts, ds, cands, Plan(cands, ts, ds, req.quantity), req, src, dst, dstName);
  }

  /** What a posted save leaves behind, from the tables before (`bs`, `ts`, `ds`) to the
      tables after (`bs'`, `ts'`): one transaction row and one derived lot per lot of the FIFO
      plan, after which the source branch holds exactly `quantity` fewer units of the item, the
      destination exactly `quantity` more, and the item's total over all branches is unchanged. */
  ghost predicate Posted(branches: seq<Branch>, bs: seq<Batch>, ts: seq<Transaction>, ds: seq<Disposal>,
                         bs': seq<Batch>, ts': seq<Transaction>, form: IssueForm)
    requires BranchNamed(branches, StoreName).Some? && Filled(form)
  {
    var route := Route(form.kind, BranchNamed(branches, StoreName).value.id, form.branch.value);
    var cands := SourceLots(branches, bs, ts, ds, form);
    var plan := Plan(cands, ts, ds, form.quantity);
    var item := form.item.value;
    && BranchWithId(branches, route.1).Some?
    && ts' == ts + MoveRows(cands, plan, Request(form), route.0, route.1, |ts| + 1)
    && bs' == bs + DerivedBatches(cands, plan, Request(form), route.1, BranchWithId(branches, route.1).value.name, |bs| + 1)
    && BalanceOf(bs', ts', ds, item, Some(route.0)) == BalanceOf(bs, ts, ds, item, Some(route.0)) - form.quantity
    && BalanceOf(bs', ts', ds, item, Some(route.1)) == BalanceOf(bs, ts, ds, item, Some(route.1)) + form.quantity
    && BalanceOf(bs', ts', ds, item, None) == BalanceOf(bs, ts, ds, item, None)
  }

  /** The tables the posting writes are the ones `Posted` describes. */
  lemma PostedTables(branches: seq<Branch>, bs: seq<Batch>, ts: seq<Transaction>, ds: seq<Disposal>,
                     bs': seq<Batch>, ts': seq<Transaction>, form: IssueForm, store: Branch, dstName: string)
    requires LedgerOk(bs, ts, ds) && form.quantity >= 1
    requires BranchNamed(branches, StoreName) == Some(store) && Filled(form) && form.branch.value != store.id
    requires form.quantity <= TotalAvail(SourceLots(branches, bs, ts, ds, form), ts, ds)
    requires var route := Route(form.kind, store.id, form.branch.value);
             && BranchWithId(branches, route.1).Some? && BranchWithId(branches, route.1).value.name == dstName
             && var cands := SourceLots(branches, bs, ts, ds, form);
                var plan := Plan(cands, ts, ds, form.quantity);
                && ts' == ts + MoveRows(cands, plan, Request(form), route.0, route.1, |ts| + 1)
                && bs' == bs + DerivedBatches(cands, plan, Request(form), route.1, dstName, |bs| + 1)
    ensures Posted(branches, bs, ts, ds, bs', ts', form)
  {
    var route := Route(form.kind, store.id, form.branch.value);
    IssueEffect(bs, ts, ds, SourceLots(branches, bs, ts, ds, form), Request(form), route.0, route.1, dstName);
  }

  /** A passed pre-check posts a plan that keeps the stock sound when branch names are unique:
      the form refuses the Store as the branch of a Return, and no other branch is the Store. */
  lemma PlanSound(branches: seq<Branch>, bs: seq<Batch>, ts: seq<Transaction>, ds: seq<Disposal>,
                  form: IssueForm, store: Branch, dstName: string)
    requires LedgerOk(bs, ts, ds) && StockSound(branches, bs, ts, ds) && Unique(branches, BranchName)
    requires form.kind != Transfer && form.quantity >= 1
    requires BranchNamed(branches, StoreName) == Some(store) && Filled(form) && form.branch.value != store.id
    requires form.quantity <= TotalAvail(SourceLots(branches, bs, ts, ds, form), ts, ds)
    ensures var route := Route(form.kind, store.id, form.branch.value);
            var cands := Candidates(bs, ts, ds, form.item.value, route.0, form.year.value);
            var plan := Plan(cands, ts, ds, form.quantity);
            StockSound(branches, bs + DerivedBatches(cands, plan, Request(form), route.1, dstName, |bs| + 1),
                       ts + MoveRows(cands, plan, Request(form), route.0, route.1, |ts| + 1), ds)
  {
    var route := Route(form.kind, store.id, form.branch.value);
    var src, dst := route.0, route.1;
    var cands := Candidates(bs, ts, ds, form.item.value, src, form.year.value);
    PlanMeetsRequest(bs, ts, ds, form.item.value, src, form.year.value, form.quantity);
    if form.kind == Return && IsStoreId(branches, src) {
      OnlyStore(branches, store, src);
    }
    PostedSound(branches, bs, ts, ds, cands, Plan(cands, ts, ds, form.quantity), Request(form), src, dst, dstName);
  }

  /** The posting half of the save on the tables' values, once every check has passed. */
  method PostValues(items: seq<Item>, branches: seq<Branch>, bs: seq<Batch>, ts: seq<Transaction>, ds: seq<Disposal>,
                    form: IssueForm, store: Branch)
    returns (txns: seq<Transaction>, lots: seq<Batch>)
    requires LedgerOk(bs, ts, ds)
    requires form.kind != Transfer && form.quantity >= 1
    requires form.branch.Some? ==> HasKey(branches, BranchId, form.branch.value)
    requires BranchNamed(branches, StoreName) == Some(store) && Filled(form) && form.branch.value != store.id
    requires form.quantity <= TotalAvail(SourceLots(branches, bs, ts, ds, form), ts, ds)
    ensures LedgerOk(lots, txns, ds)
    ensures References(items, branches, bs, ts) ==> References(items, branches, lots, txns)
    ensures Posted(branches, bs, ts, ds, lots, txns, form)
    ensures StockSound(branches, bs, ts, ds) && Unique(branches, BranchName) ==> StockSound(branches, lots, txns, ds)
  {
    var route := Route(form.kind, store.id, form.branch.value);
    var src, dst := route.0, route.1;
    assert store in branches;
    assert HasKey(branches, BranchId, store.id);
    var dstName := BranchWithId(branches, dst).value.name;
    var req := Request(form);
    var cands := Candidates(bs, ts, ds, form.item.value, src, form.year.value);
    IssueEffect(bs, ts, ds, cands, req, src, dst, dstName);
    txns, lots := PostPlan(items, branches, ts, bs, ds, cands, req, src, dst, dstName);
    PostedTables(branches, bs, ts, ds, lots, txns, form, store, dstName);
    if StockSound(branches, bs, ts, ds) && Unique(branches, BranchName) {
      PlanSound(branches, bs, ts, ds, form, store, dstName);
    }
  }

  /** The posting half of the save: post on the values, then store the two ledger tables. */
  method PostIssue(db: AssetDatabase, form: IssueForm, store: Branch)
    requires db.Valid()
    requires form.kind != Transfer && form.quantity >= 1
    requires form.branch.Some? ==> HasKey(db.branches, BranchId, form.branch.value)
    requires BranchNamed(db.branches, StoreName) == Some(store) && Filled(form) && form.branch.value != store.id
    requires form.quantity <= TotalAvail(SourceLots(db.branches, db.batches, db.transactions, db.disposals, form),
                                         db.transactions, db.disposals)
    modifies db
    ensures db.Valid() && db.MastersUnchanged() && db.disposals == old(db.disposals)
    ensures old(db.Linked()) ==> db.Linked()
    ensures Posted(old(db.branches), old(db.batches), old(db.transactions), old(db.disposals),
                   db.batches, db.transactions, form)
    ensures old(db.Sound()) ==> db.Sound()
  {
    var txns, lots := PostValues(db.items, db.branches, db.batches, db.transactions, db.disposals, form, store);
    Commit(db, txns, lots);
  }

  /** OK on the form. Anything but Done leaves the ledger untouched; Done posts the FIFO plan as
      `Posted` describes. */
  method Save(db: AssetDatabase, form: IssueForm) returns (outcome: Outcome)
    requires db.Valid()
    requires form.kind != Transfer && form.quantity >= 1
    requires form.branch.Some? ==> HasKey(db.branches, BranchId, form.branch.value)
    modifies db
    ensures db.Valid() && db.MastersUnchanged() && db.disposals == old(db.disposals)
    ensures old(db.Linked()) ==> db.Linked()
    ensures outcome == Decide(old(db.branches), old(db.batches), old(db.transactions), old(db.disposals), form)
    ensures outcome != Done ==> db.LedgerUnchanged()
    ensures old(db.Sound()) ==> db.Sound()
    ensures outcome == Done ==> Posted(old(db.branches), old(db.batches), old(db.transactions), old(db.disposals),
                                       db.batches, db.transactions, form)
  {
    var store := BranchNamed(db.branches, StoreName);
    if store.None? {
      return NoStore;
    }
    if !Filled(form) {
      return MissingFields;
    }
    var branch := form.branch.value;
    if branch == store.value.id {
      return SameAsStore;
    }
    var route := Route(form.kind, store.value.id, branch);
    var cands := Candidates(db.batches, db.transactions, db.disposals, form.item.value, route.0, form.year.value);
    var total := TotalAvail(cands, db.transactions, db.disposals);
    if form.quantity > total {
      return InsufficientStock(total);
    }
    PostIssue(db, form, store.value);
    outcome := Done;
  }
}
