/** The disposal dialog's `dispose_selected`: the entered quantities are checked against the
    table on screen, and each selected (item, year) row is then disposed of from that item's
    Store batches first in, first out, one disposal row per batch touched. */
module DisposalDialog {
  import opened Schema
  import opened Balance
  import opened Database
  import opened Disposals
  import Fifo
  import Movement
  import Grouping
  import Reports

  // ---------------------------------------------------------------------------------------
  // One selected row

  /** What the walk takes from each candidate batch for one pick. */
  function PickTakes(batches: seq<Batch>, branches: seq<Branch>, txns: seq<Transaction>, disps: seq<Disposal>,
                     item: nat, yearText: string, quantity: int): seq<int>
  {
    Fifo.Takes(DisposalAvails(DisposalCandidates(batches, branches, txns, disps, item, yearText), txns, disps), quantity)
  }

  /** The disposal rows one pick posts, numbered on from the rows already in the table. */
  function PickRows(batches: seq<Batch>, branches: seq<Branch>, txns: seq<Transaction>, disps: seq<Disposal>,
                    item: nat, yearText: string, quantity: int, details: Details): seq<Disposal>
  {
    var cands := DisposalCandidates(batches, branches, txns, disps, item, yearText);
    DisposalRows(cands, PickTakes(batches, branches, txns, disps, item, yearText, quantity), details, |disps| + 1)
  }

  /** Every candidate of a pick is a batch of the table with positive ledger availability, so
      under the disposal dialog's formula (which adds Return debits back) it is positive too. */
  lemma CandidatesPositive(batches: seq<Batch>, branches: seq<Branch>, txns: seq<Transaction>, disps: seq<Disposal>,
                           item: nat, yearText: string)
    requires LedgerOk(batches, txns, disps)
    ensures var cands := DisposalCandidates(batches, branches, txns, disps, item, yearText);
            && AscendingIds(cands)
            && (forall j :: 0 <= j < |cands| ==> cands[j] in batches && 1 <= cands[j].id <= |batches|)
            && Fifo.AllPositive(DisposalAvails(cands, txns, disps))
  {
    var cands := DisposalCandidates(batches, branches, txns, disps, item, yearText);
    assert AscendingIds(batches);
    forall j | 0 <= j < |cands|
      ensures cands[j] in batches && 1 <= cands[j].id <= |batches| && DisposalAvail(cands[j], txns, disps) > 0
    {
      assert cands[j] in cands;
      var k :| 0 <= k < |batches| && batches[k] == cands[j];
      DisposalAvailGap(cands[j], txns, disps);
      DebitedNonNegative(cands[j].id, txns, {Return});
    }
  }

  /** One pick posts a row per candidate touched, in ascending batch id: each row disposes of a
      positive amount no larger than what the dialog reads for that batch, every batch but the
      last one touched is emptied, and the rows add up to the request, or to all that is
      available when that is less. */
  lemma PickRowsMeaning(batches: seq<Batch>, branches: seq<Branch>, txns: seq<Transaction>, disps: seq<Disposal>,
                        item: nat, yearText: string, quantity: int, details: Details)
    requires LedgerOk(batches, txns, disps) && quantity >= 0
    ensures var cands := DisposalCandidates(batches, branches, txns, disps, item, yearText);
            var avails := DisposalAvails(cands, txns, disps);
            var takes := PickTakes(batches, branches, txns, disps, item, yearText, quantity);
            var rows := PickRows(batches, branches, txns, disps, item, yearText, quantity, details);
            && |rows| == |takes| <= |cands|
            && (forall j :: 0 <= j < |rows| ==> rows[j] == DisposalRow(cands[j], takes[j], details, |disps| + 1 + j))
            && (forall j :: 0 <= j < |takes| ==> 0 < takes[j] <= avails[j] && takes[j] <= quantity)
            && (forall j :: 0 <= j < |takes| - 1 ==> takes[j] == avails[j])
            && Fifo.Sum(takes) == Fifo.Min(quantity, Fifo.Sum(avails))
  {
    var cands := DisposalCandidates(batches, branches, txns, disps, item, yearText);
    var avails := DisposalAvails(cands, txns, disps);
    var takes := PickTakes(batches, branches, txns, disps, item, yearText, quantity);
    CandidatesPositive(batches, branches, txns, disps, item, yearText);
    Fifo.TakesBounded(avails, quantity);
    Fifo.TakesDrainEarlier(avails, quantity);
    Fifo.TakesTotal(avails, quantity);
    DisposalRowsAt(cands, takes, details, |disps| + 1);
  }

  /** Posting one pick keeps the ledger consistent: the new rows continue the disposal ids,
      reference existing batches and dispose of positive amounts. */
  lemma PickRowsLedger(batches: seq<Batch>, branches: seq<Branch>, txns: seq<Transaction>, disps: seq<Disposal>,
                       item: nat, yearText: string, quantity: int, details: Details)
    requires LedgerOk(batches, txns, disps)
    ensures LedgerOk(batches, txns, disps + PickRows(batches, branches, txns, disps, item, yearText, quantity, details))
  {
    var cands := DisposalCandidates(batches, branches, txns, disps, item, yearText);
    var avails := DisposalAvails(cands, txns, disps);
    var takes := PickTakes(batches, branches, txns, disps, item, yearText, quantity);
    var rows := PickRows(batches, branches, txns, disps, item, yearText, quantity, details);
    CandidatesPositive(batches, branches, txns, disps, item, yearText);
    Fifo.TakesBounded(avails, quantity);
    DisposalRowsAt(cands, takes, details, |disps| + 1);
    var after := disps + rows;
    forall i | 0 <= i < |after|
      ensures after[i].id == i + 1 && 1 <= after[i].batchId <= |batches| && after[i].quantity > 0
    {
      if i >= |disps| {
        assert after[i] == rows[i - |disps|];
      }
    }
  }

  /** Where the walk over a pick's candidates stands: `taken` are the takes of the first `i`
      candidates, `remaining` is what is still wanted, and `after` holds their rows. */
  ghost predicate Walking(cands: seq<Batch>, txns: seq<Transaction>, disps: seq<Disposal>, quantity: int, details: Details,
                          taken: seq<int>, i: nat, remaining: int, after: seq<Disposal>)
  {
    && i <= |cands| && |taken| == i
    && BatchByBatch(cands, txns, disps, 0, quantity) == taken + BatchByBatch(cands, txns, disps, i, remaining)
    && after == disps + DisposalRows(cands, taken, details, |disps| + 1)
  }

  /** One pass of the loop: the per-batch query reads what the plan expects, since the rows
      posted so far are for other batches, so the new row is the plan's next one. */
  lemma WalkStep(batches: seq<Batch>, cands: seq<Batch>, txns: seq<Transaction>, disps: seq<Disposal>, quantity: int,
                 details: Details, taken: seq<int>, i: nat, remaining: int, after: seq<Disposal>, take: int)
    requires Walking(cands, txns, disps, quantity, details, taken, i, remaining, after)
    requires BatchIdsArePositions(batches) && AscendingIds(cands) && i < |cands| && remaining > 0
    requires forall j :: 0 <= j < |cands| ==> cands[j] in batches
    requires take == Fifo.Min(remaining, DisposalAvailById(cands[i].id, batches, txns, after))
    ensures Walking(cands, txns, disps, quantity, details, taken + [take], i + 1, remaining - take,
                    after + [DisposalRow(cands[i], take, details, |after| + 1)])
  {
    ReadsPlannedAvail(batches, cands, txns, disps, taken, details);
    DisposalRowsSnoc(cands, taken, take, details, |disps| + 1);
  }

  /** The posting loop for one pick: candidates in ascending batch id, each giving
      `min(remaining, available)` as the dialog's per-batch query reads it, until nothing remains. */
  method DisposePick(batches: seq<Batch>, branches: seq<Branch>, txns: seq<Transaction>, disps: seq<Disposal>,
                     item: nat, yearText: string, quantity: int, details: Details) returns (after: seq<Disposal>)
    requires BatchIdsArePositions(batches)
    ensures after == disps + PickRows(batches, branches, txns, disps, item, yearText, quantity, details)
  {
    var cands := DisposalCandidates(batches, branches, txns, disps, item, yearText);
    assert AscendingIds(batches);
    after := Walk(batches, cands, txns, disps, quantity, details);
  }

  /** The loop body of `DisposePick` over the candidates `cands`. */
  method Walk(batches: seq<Batch>, cands: seq<Batch>, txns: seq<Transaction>, disps: seq<Disposal>,
              quantity: int, details: Details) returns (after: seq<Disposal>)
    requires BatchIdsArePositions(batches) && AscendingIds(cands)
    requires forall j :: 0 <= j < |cands| ==> cands[j] in batches
    ensures after == disps + DisposalRows(cands, Fifo.Takes(DisposalAvails(cands, txns, disps), quantity), details, |disps| + 1)
  {
    ghost var taken: seq<int> := [];
    after := disps;
    var remaining := quantity;
    var i: nat := 0;
    while i < |cands| && remaining > 0
      invariant Walking(cands, txns, disps, quantity, details, taken, i, remaining, after)
    {
      var avail := DisposalAvailById(cands[i].id, batches, txns, after);
      var take := Fifo.Min(remaining, avail);
      WalkStep(batches, cands, txns, disps, quantity, details, taken, i, remaining, after, take);
      after := after + [DisposalRow(cands[i], take, details, |after| + 1)];
      taken := taken + [take];
      remaining := remaining - take;
      i := i + 1;
    }
    WalkDone(cands, txns, disps, quantity, details, taken, i, remaining, after);
  }

  lemma WalkDone(cands: seq<Batch>, txns: seq<Transaction>, disps: seq<Disposal>, quantity: int, details: Details,
                 taken: seq<int>, i: nat, remaining: int, after: seq<Disposal>)
    requires Walking(cands, txns, disps, quantity, details, taken, i, remaining, after)
    requires i == |cands| || remaining <= 0
    ensures after == disps + DisposalRows(cands, Fifo.Takes(DisposalAvails(cands, txns, disps), quantity), details, |disps| + 1)
  {
    assert BatchByBatch(cands, txns, disps, i, remaining) == [];
    assert taken == BatchByBatch(cands, txns, disps, 0, quantity);
    BatchByBatchIsPlan(cands, txns, disps, 0, quantity);
    assert DisposalAvails(cands, txns, disps)[0..] == DisposalAvails(cands, txns, disps);
  }

  /** While walking a pick's candidates, the per-batch query for the next candidate reads the
      availability it had before the walk: the rows posted so far are for other batches. */
  lemma ReadsPlannedAvail(batches: seq<Batch>, cands: seq<Batch>, txns: seq<Transaction>, disps: seq<Disposal>,
                          taken: seq<int>, details: Details)
    requires BatchIdsArePositions(batches) && AscendingIds(cands) && |taken| < |cands|
    requires forall j :: 0 <= j < |cands| ==> cands[j] in batches
    ensures var c := cands[|taken|];
            DisposalAvailById(c.id, batches, txns, disps + DisposalRows(cands, taken, details, |disps| + 1)) ==
            DisposalAvail(c, txns, disps)
  {
    var i := |taken|;
    var c := cands[i];
    var k :| 0 <= k < |batches| && batches[k] == c;
    DisposalAvailByIdFinds(c.id, batches, txns, disps + DisposalRows(cands, taken, details, |disps| + 1), k);
    DisposedAfterRows(cands, taken, details, |disps| + 1, disps, i);
  }

  /** With no Return row leaving the Store, every candidate of a pick is a lot no Return row
      debits, so what the dialog reads for it is its ledger balance and each take lies within it. */
  lemma PickWithinLedger(batches: seq<Batch>, branches: seq<Branch>, txns: seq<Transaction>, disps: seq<Disposal>,
                         item: nat, yearText: string, quantity: int)
    requires LedgerOk(batches, txns, disps) && NoStoreReturns(branches, txns)
    ensures var cands := DisposalCandidates(batches, branches, txns, disps, item, yearText);
            var takes := PickTakes(batches, branches, txns, disps, item, yearText, quantity);
            && AscendingIds(cands) && |takes| <= |cands|
            && (forall j :: 0 <= j < |cands| ==> cands[j] in batches)
            && forall j :: 0 <= j < |takes| ==> 0 < takes[j] <= LedgerAvail(cands[j], txns, disps)
  {
    var cands := DisposalCandidates(batches, branches, txns, disps, item, yearText);
    var avails := DisposalAvails(cands, txns, disps);
    CandidatesPositive(batches, branches, txns, disps, item, yearText);
    Fifo.TakesBounded(avails, quantity);
    forall j | 0 <= j < |cands| ensures avails[j] == LedgerAvail(cands[j], txns, disps) {
      assert cands[j] in cands;
      var k :| 0 <= k < |batches| && batches[k] == cands[j];
      StoreBatchHasNoReturns(branches, batches, txns, k);
      DisposalAvailAgrees(cands[j], txns, disps);
    }
  }

  /** A walk whose takes lie within their lots' ledger balances leaves every lot of the table
      that was not overdrawn still not overdrawn. */
  lemma WalkKeepsLot(batches: seq<Batch>, txns: seq<Transaction>, disps: seq<Disposal>, cands: seq<Batch>,
                     takes: seq<int>, details: Details, firstId: nat, i: nat)
    requires BatchIdsArePositions(batches) && AscendingIds(cands) && |takes| <= |cands|
    requires forall j :: 0 <= j < |cands| ==> cands[j] in batches
    requires forall j :: 0 <= j < |takes| ==> takes[j] <= LedgerAvail(cands[j], txns, disps)
    requires i < |batches| && LedgerAvail(batches[i], txns, disps) >= 0
    ensures LedgerAvail(batches[i], txns, disps + DisposalRows(cands, takes, details, firstId)) >= 0
  {
    DisposedAfterWalk(batches[i].id, cands, takes, details, firstId, disps);
    if j :| 0 <= j < |cands| && cands[j].id == batches[i].id {
      var k :| 0 <= k < |batches| && batches[k] == cands[j];
      Movement.TakenFromLot(cands, takes, j);
    } else {
      Movement.TakenFromOther(cands, takes, batches[i].id);
    }
  }

  /** On a sound ledger one pick never overdraws: every lot of the table keeps a non-negative
      ledger balance. */
  lemma PickRowsSound(batches: seq<Batch>, branches: seq<Branch>, txns: seq<Transaction>, disps: seq<Disposal>,
                      item: nat, yearText: string, quantity: int, details: Details)
    requires LedgerOk(batches, txns, disps) && StockSound(branches, batches, txns, disps)
    ensures StockSound(branches, batches, txns, disps + PickRows(batches, branches, txns, disps, item, yearText, quantity, details))
  {
    var cands := DisposalCandidates(batches, branches, txns, disps, item, yearText);
    var takes := PickTakes(batches, branches, txns, disps, item, yearText, quantity);
    var after := disps + PickRows(batches, branches, txns, disps, item, yearText, quantity, details);
    PickWithinLedger(batches, branches, txns, disps, item, yearText, quantity);
    forall i | 0 <= i < |batches| ensures LedgerAvail(batches[i], txns, after) >= 0 {
      WalkKeepsLot(batches, txns, disps, cands, takes, details, |disps| + 1, i);
    }
  }

  // ---------------------------------------------------------------------------------------
  // All selected rows

  /** The disposal table after posting the picks in order; each pick finds its candidates and
      their availability after the rows of the picks before it. A pick whose item name matches
      no item ends the walk there, as the failed lookup ends the handler with the earlier rows
      already stored. */
  function AfterPicks(items: seq<Item>, batches: seq<Batch>, branches: seq<Branch>, txns: seq<Transaction>,
                      disps: seq<Disposal>, picks: seq<Pick>, details: Details): seq<Disposal>
    decreases |picks|
  {
    if picks == [] then disps
    else
      var it := ItemNamed(items, picks[0].itemName);
      if it.None? then disps
      else
        var rows := PickRows(batches, branches, txns, disps, it.value.id, picks[0].yearText, picks[0].quantity, details);
        AfterPicks(items, batches, branches, txns, disps + rows, picks[1..], details)
  }

  /** The disposal table only grows, and stays consistent with the batches and transactions. */
  lemma {:induction false} AfterPicksLedger(items: seq<Item>, batches: seq<Batch>, branches: seq<Branch>,
                                            txns: seq<Transaction>, disps: seq<Disposal>, picks: seq<Pick>, details: Details)
    requires LedgerOk(batches, txns, disps)
    ensures var after := AfterPicks(items, batches, branches, txns, disps, picks, details);
            LedgerOk(batches, txns, after) && disps <= after
    decreases |picks|
  {
    if picks != [] {
      var it := ItemNamed(items, picks[0].itemName);
      if it.Some? {
        var rows := PickRows(batches, branches, txns, disps, it.value.id, picks[0].yearText, picks[0].quantity, details);
        PickRowsLedger(batches, branches, txns, disps, it.value.id, picks[0].yearText, picks[0].quantity, details);
        AfterPicksLedger(items, batches, branches, txns, disps + rows, picks[1..], details);
      }
    }
  }

  /** On a sound ledger, no sequence of picks overdraws a lot. */
  lemma {:induction false} AfterPicksSound(items: seq<Item>, batches: seq<Batch>, branches: seq<Branch>,
                                           txns: seq<Transaction>, disps: seq<Disposal>, picks: seq<Pick>, details: Details)
    requires LedgerOk(batches, txns, disps) && StockSound(branches, batches, txns, disps)
    ensures StockSound(branches, batches, txns, AfterPicks(items, batches, branches, txns, disps, picks, details))
    decreases |picks|
  {
    if picks != [] {
      var it := ItemNamed(items, picks[0].itemName);
      if it.Some? {
        var rows := PickRows(batches, branches, txns, disps, it.value.id, picks[0].yearText, picks[0].quantity, details);
        PickRowsLedger(batches, branches, txns, disps, it.value.id, picks[0].yearText, picks[0].quantity, details);
        PickRowsSound(batches, branches, txns, disps, it.value.id, picks[0].yearText, picks[0].quantity, details);
        AfterPicksSound(items, batches, branches, txns, disps + rows, picks[1..], details);
      }
    }
  }

  // ---------------------------------------------------------------------------------------
  // A rename that overdraws

  /** Lot 1 bought for the Store, 5 of it issued to branch 2 (lot 2), 3 of those returned (lot 3). */
  function ExampleLots(): seq<Batch>
  {
    [Batch(1, 1, 1, "2024-01-01", "Purchase", "", 5, None, "", "", Some("2024")),
     Batch(2, 1, 2, "2024-02-01", "Issue", "Issued to North", 5, None, "", "", Some("2024")),
     Batch(3, 1, 1, "2024-03-01", "Return", "Returned to Store", 3, None, "", "", Some("2024"))]
  }

  function ExampleMoves(): seq<Transaction>
  {
    [Transaction(1, 1, Issue, Some(1), Some(2), "2024-02-01", 5, "", ""),
     Transaction(2, 2, Return, Some(2), Some(1), "2024-03-01", 3, "", "")]
  }

  function ExampleBranches(): seq<Branch>
  {
    [Branch(1, StoreName, "", ""), Branch(2, "North", "", "")]
  }

  /** The Store renamed, then branch 2 renamed Store. */
  function ExampleRenamed(): seq<Branch>
  {
    Replaced(Replaced(ExampleBranches(), BranchId, 1, Branch(1, "Old Store", "", "")), BranchId, 2, Branch(2, StoreName, "", ""))
  }

  function ExampleItems(): seq<Item>
  {
    [Item(1, "Chair", 1, 1, "", "C-1", "")]
  }

  /** 8 Chairs of 2024 entered in the dispose table. */
  function ExamplePicks(): seq<Pick>
  {
    [Pick("Chair", "2024", 8)]
  }

  function ExampleDetails(): Details
  {
    Details("2024-04-01", "Auction", "", "")
  }

  /** The example's balances: lot 1 is used up, lot 2 holds 2 by the ledger and reads 8 in the
      disposal dialog, lot 3 holds 3. */
  lemma ExampleReads()
    ensures LedgerAvail(ExampleLots()[0], ExampleMoves(), []) == 0
    ensures LedgerAvail(ExampleLots()[1], ExampleMoves(), []) == 2
    ensures LedgerAvail(ExampleLots()[2], ExampleMoves(), []) == 3
    ensures DisposalAvail(ExampleLots()[1], ExampleMoves(), []) == 8
  {
    var bs, ts := ExampleLots(), ExampleMoves();
    assert ts[..1] == [ts[0]] && [ts[0]][..0] == [];
    forall id: nat ensures Debited(id, ts, AllKinds) == (if id == 1 then 5 else if id == 2 then 3 else 0) {
      assert Debited(id, [ts[0]], AllKinds) == if id == 1 then 5 else 0;
    }
    assert Debited(2, [ts[0]], {Return}) == 0;
    DisposalAvailGap(bs[1], ts, []);
  }

  /** The example's tables are well formed. */
  lemma ExampleLedger()
    ensures LedgerOk(ExampleLots(), ExampleMoves(), [])
  {
    var bs, ts := ExampleLots(), ExampleMoves();
    assert forall i :: 0 <= i < |ts| ==> ts[i].fromBranch == Some(bs[ts[i].batchId - 1].branchId);
  }

  /** Before the renames the example is a sound ledger in which stock was returned from branch 2. */
  lemma ExampleBefore()
    ensures LedgerOk(ExampleLots(), ExampleMoves(), []) && StockSound(ExampleBranches(), ExampleLots(), ExampleMoves(), [])
    ensures ReturnsFrom(ExampleMoves(), 2)
  {
    var bs, ts := ExampleLots(), ExampleMoves();
    ExampleLedger();
    ExampleReads();
    assert forall i :: 0 <= i < |bs| ==> LedgerAvail(bs[i], ts, []) >= 0;
    assert ts[1].kind == Return && ts[1].fromBranch == Some(2);
  }

  /** After the renames branch 2 is the Store and branch 1 is not. */
  lemma ExampleRenamedStore()
    ensures IsStoreId(ExampleRenamed(), 2) && !IsStoreId(ExampleRenamed(), 1)
  {
    var renamed := ExampleRenamed();
    var once := Replaced(ExampleBranches(), BranchId, 1, Branch(1, "Old Store", "", ""));
    assert once == [Branch(1, "Old Store", "", ""), Branch(2, "North", "", "")];
    assert renamed == [Branch(1, "Old Store", "", ""), Branch(2, StoreName, "", "")];
    assert renamed[1..] == [Branch(2, StoreName, "", "")];
  }

  /** After the renames lot 2 is the only candidate for (Chair, 2024). */
  lemma ExampleCandidates()
    ensures DisposalCandidates(ExampleLots(), ExampleRenamed(), ExampleMoves(), [], 1, "2024") == [ExampleLots()[1]]
  {
    var bs, ts, renamed := ExampleLots(), ExampleMoves(), ExampleRenamed();
    var keep := (b: Batch) => DisposalEligible(b, renamed, ts, [], 1, "2024");
    ExampleReads();
    ExampleRenamedStore();
    assert !keep(bs[0]) && keep(bs[1]) && !keep(bs[2]);
    assert [bs[0]][..0] == [];
    assert Movement.Select([bs[0]], keep) == [];
    assert [bs[0], bs[1]][..1] == [bs[0]];
    assert Movement.Select([bs[0], bs[1]], keep) == [bs[1]];
    assert bs[..2] == [bs[0], bs[1]];
  }

  /** Disposing of 8 Chairs of 2024 after the renames takes all 8 from lot 2. */
  lemma ExampleTakes()
    ensures PickTakes(ExampleLots(), ExampleRenamed(), ExampleMoves(), [], 1, "2024", 8) == [8]
  {
    var bs, ts := ExampleLots(), ExampleMoves();
    var avails := DisposalAvails([bs[1]], ts, []);
    ExampleReads();
    ExampleCandidates();
    assert avails == [8];
    assert PickTakes(bs, ExampleRenamed(), ts, [], 1, "2024", 8) == Fifo.Takes(avails, 8);
    assert Fifo.Takes([8], 8) == [8];
  }

  /** It posts one row of 8 against lot 2. */
  lemma ExamplePickRows()
    ensures PickRows(ExampleLots(), ExampleRenamed(), ExampleMoves(), [], 1, "2024", 8, ExampleDetails()) ==
            [DisposalRow(ExampleLots()[1], 8, ExampleDetails(), 1)]
  {
    ExampleCandidates();
    ExampleTakes();
    var row := DisposalRow(ExampleLots()[1], 8, ExampleDetails(), 1);
    assert DisposalRows([ExampleLots()[1]], [8], ExampleDetails(), 1) == [] + [row];
  }

  /** The whole disposal of the example is that one row. */
  lemma ExampleAfter()
    ensures AfterPicks(ExampleItems(), ExampleLots(), ExampleRenamed(), ExampleMoves(), [], ExamplePicks(), ExampleDetails()) ==
            [DisposalRow(ExampleLots()[1], 8, ExampleDetails(), 1)]
  {
    var items, picks := ExampleItems(), ExamplePicks();
    ExamplePickRows();
    assert ItemNamed(items, "Chair") == Some(items[0]);
    assert picks[1..] == [];
  }

  /** That row takes lot 2 from 2 down to -6. */
  lemma ExampleOverdraw()
    ensures var after := AfterPicks(ExampleItems(), ExampleLots(), ExampleRenamed(), ExampleMoves(), [], ExamplePicks(),
                                    ExampleDetails());
            LedgerAvail(ExampleLots()[1], ExampleMoves(), after) == -6
  {
    var lot := ExampleLots()[1];
    var row := DisposalRow(lot, 8, ExampleDetails(), 1);
    ExampleReads();
    ExampleAfter();
    assert [] + [row] == [row];
    DisposedAppend(lot.id, [], row);
  }

  /** As written, a rename can make a branch that stock was returned from the Store: once the
      Store is renamed and branch 2 renamed Store, lot 2 is a Store lot whose disposal read adds
      the Return back (8 instead of 2), and disposing of those 8 leaves it at -6. */
  lemma RenamedStoreOverdraws()
    ensures var after := AfterPicks(ExampleItems(), ExampleLots(), ExampleRenamed(), ExampleMoves(), [], ExamplePicks(),
                                    ExampleDetails());
            && LedgerOk(ExampleLots(), ExampleMoves(), []) && StockSound(ExampleBranches(), ExampleLots(), ExampleMoves(), [])
            && ReturnsFrom(ExampleMoves(), 2)
            && LedgerAvail(ExampleLots()[1], ExampleMoves(), after) == -6
            && !StockSound(ExampleRenamed(), ExampleLots(), ExampleMoves(), after)
  {
    ExampleBefore();
    ExampleOverdraw();
  }

  /** The outer loop over the collected picks. */
  method PostPicks(items: seq<Item>, batches: seq<Batch>, branches: seq<Branch>, txns: seq<Transaction>,
                   disps: seq<Disposal>, picks: seq<Pick>, details: Details) returns (after: seq<Disposal>)
    requires BatchIdsArePositions(batches)
    ensures after == AfterPicks(items, batches, branches, txns, disps, picks, details)
  {
    after := disps;
    var k := 0;
    while k < |picks|
      invariant 0 <= k <= |picks|
      invariant AfterPicks(items, batches, branches, txns, disps, picks, details) ==
                AfterPicks(items, batches, branches, txns, after, picks[k..], details)
    {
      var p := picks[k];
      assert picks[k..][0] == p && picks[k..][1..] == picks[k + 1..];
      var it := ItemNamed(items, p.itemName);
      if it.None? {
        return;
      }
      after := DisposePick(batches, branches, txns, after, it.value.id, p.yearText, p.quantity, details);
      k := k + 1;
    }
  }

  /** Every row of the dispose table names an existing item, since the query joins the items. */
  lemma DisposeTableNamesItems(bs: seq<Batch>, items: seq<Item>, branches: seq<Branch>, txns: seq<Transaction>, disps: seq<Disposal>)
    ensures var t := Reports.DisposeTable(bs, items, branches, txns, disps);
            forall i :: 0 <= i < |t| ==> ItemNamed(items, t[i].itemName).Some?
  {
    var es := Grouping.FilterMap(bs, Reports.DisposeEntryOf(items, branches, txns, disps));
    var gs := Grouping.Rollup(es, false);
    var t := Reports.DisposeTable(bs, items, branches, txns, disps);
    Reports.DisposeTableMeaning(bs, items, branches, txns, disps);
    Grouping.FilterMapFrom(bs, Reports.DisposeEntryOf(items, branches, txns, disps));
    forall i | 0 <= i < |t| ensures ItemNamed(items, t[i].itemName).Some? {
      assert gs[i] in gs;
      var j :| 0 <= j < |es| && es[j].key == gs[i].key;
      assert es[j] in es;
      var b :| b in bs && Reports.DisposeEntry(b, items, branches, txns, disps) == Some(es[j]);
      var it := ItemWithId(items, b.itemId).value;
      assert it in items && it.name == t[i].itemName;
    }
  }

  /** So the item lookup of every collected pick succeeds and the walk covers every pick. */
  lemma PicksNameItems(bs: seq<Batch>, items: seq<Item>, branches: seq<Branch>, txns: seq<Transaction>, disps: seq<Disposal>,
                       entries: seq<Option<int>>)
    requires |entries| == |Reports.DisposeTable(bs, items, branches, txns, disps)|
    ensures var sel := Collect(Reports.DisposeTable(bs, items, branches, txns, disps), entries, 0);
            sel.Picked? ==> forall p :: p in sel.picks ==> ItemNamed(items, p.itemName).Some?
  {
    var t := Reports.DisposeTable(bs, items, branches, txns, disps);
    CollectMeaning(t, entries, 0);
    DisposeTableNamesItems(bs, items, branches, txns, disps);
  }

  // ---------------------------------------------------------------------------------------
  // The handler

  /** The handler's decision: a rejection at the first entry above its row's availability,
      nothing to do when no entry is positive, and otherwise the user's answer to the
      confirmation dialog. */
  function DisposeVerdict(rows: seq<TableRow>, entries: seq<Option<int>>, confirmed: bool): Outcome
    requires |entries| == |rows|
  {
    match Collect(rows, entries, 0)
    case Rejected(i) => ExceedsAvailable(i)
    case Picked(ps) => if ps == [] then NothingToDispose else if !confirmed then Cancelled else Done
  }

  function PicksOf(sel: Selection): seq<Pick>
  {
    if sel.Picked? then sel.picks else []
  }

  /** Stores the new disposal table; the batches, transactions and master tables are untouched. */
  method StoreDisposals(db: AssetDatabase, disps: seq<Disposal>)
    requires db.Valid() && LedgerOk(db.batches, db.transactions, disps)
    modifies db
    ensures db.Valid() && db.MastersUnchanged()
    ensures db.batches == old(db.batches) && db.transactions == old(db.transactions) && db.disposals == disps
    ensures old(db.Linked()) ==> db.Linked()
  {
    db.disposals := disps;
  }

  /** `dispose_selected` over the rows `load_batches` shows for the current tables, the text of
      each row's entry (`None` when it is not an integer), the confirmation dialog's answer and
      the details entered there. */
  method DisposeSelected(db: AssetDatabase, entries: seq<Option<int>>, confirmed: bool, details: Details)
    returns (outcome: Outcome)
    requires db.Valid()
    requires |entries| == |Reports.DisposeTable(db.batches, db.items, db.branches, db.transactions, db.disposals)|
    modifies db
    ensures db.Valid() && db.MastersUnchanged()
    ensures db.batches == old(db.batches) && db.transactions == old(db.transactions)
    ensures old(db.Linked()) ==> db.Linked()
    ensures old(db.Sound()) ==> db.Sound()
    ensures var rows := Reports.DisposeTable(old(db.batches), old(db.items), old(db.branches), old(db.transactions), old(db.disposals));
            && outcome == DisposeVerdict(rows, entries, confirmed)
            && (outcome != Done ==> db.disposals == old(db.disposals))
            && (outcome == Done ==>
                  db.disposals == AfterPicks(old(db.items), old(db.batches), old(db.branches), old(db.transactions),
                                             old(db.disposals), PicksOf(Collect(rows, entries, 0)), details))
  {
    var rows := Reports.DisposeTable(db.batches, db.items, db.branches, db.transactions, db.disposals);
    var sel := CollectPicks(rows, entries);
    if sel.Rejected? {
      return ExceedsAvailable(sel.row);
    }
    if sel.picks == [] {
      return NothingToDispose;
    }
    if !confirmed {
      return Cancelled;
    }
    var after := PostPicks(db.items, db.batches, db.branches, db.transactions, db.disposals, sel.picks, details);
    AfterPicksLedger(db.items, db.batches, db.branches, db.transactions, db.disposals, sel.picks, details);
    if db.Sound() {
      AfterPicksSound(db.items, db.batches, db.branches, db.transactions, db.disposals, sel.picks, details);
    }
    StoreDisposals(db, after);
    outcome := Done;
  }
}
