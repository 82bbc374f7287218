/** Disposal as values: which rows of the dispose table are selected, which Store batches are
    candidates for a selected row, and the disposal rows the FIFO walk posts. */
module Disposals {
  import opened Schema
  import opened Balance
  import opened Movement
  import Fifo

  /** A row of the dispose table as displayed: item name, year text ("" for NULL), available. */
  datatype TableRow = TableRow(itemName: string, yearText: string, available: int)

  /** One entry of `to_dispose`. */
  datatype Pick = Pick(itemName: string, yearText: string, quantity: int)

  datatype Selection = Rejected(row: nat) | Picked(picks: seq<Pick>)

  /** An entered quantity that is an integer and positive; other entries are ignored. */
  predicate Entered(e: Option<int>)
  {
    e.Some? && e.value > 0
  }

  /** What the collection loop yields: the positive entries, or a rejection at the first row
      whose entry exceeds its displayed availability. */
  function Collect(rows: seq<TableRow>, entries: seq<Option<int>>, offset: nat): (r: Selection)
    requires |entries| == |rows|
    ensures r.Rejected? ==> offset <= r.row < offset + |rows|
  {
    if rows == [] then Picked([])
    else if !Entered(entries[0]) then Collect(rows[1..], entries[1..], offset + 1)
    else if entries[0].value > rows[0].available then Rejected(offset)
    else
      match Collect(rows[1..], entries[1..], offset + 1)
      case Rejected(i) => Rejected(i)
      case Picked(ps) => Picked([Pick(rows[0].itemName, rows[0].yearText, entries[0].value)] + ps)
  }

  /** The picks the user asked for: one per positive entry, carrying its row's item name and
      year and the entered quantity, in row order. */
  function Positives(rows: seq<TableRow>, entries: seq<Option<int>>): seq<Pick>
    requires |entries| == |rows|
  {
    if rows == [] then []
    else
      (if Entered(entries[0]) then [Pick(rows[0].itemName, rows[0].yearText, entries[0].value)] else [])
      + Positives(rows[1..], entries[1..])
  }

  /** The request is rejected exactly when some positive entry exceeds its row's availability,
      and then at the first such row; otherwise the picks are exactly the positive entries, each
      within the availability shown on its row, and picks exist exactly when some entry is
      positive. */
  lemma {:induction false} CollectMeaning(rows: seq<TableRow>, entries: seq<Option<int>>, offset: nat)
    requires |entries| == |rows|
    ensures var r := Collect(rows, entries, offset);
            && (r.Rejected? <==> exists i :: 0 <= i < |rows| && Entered(entries[i]) && entries[i].value > rows[i].available)
            && (r.Rejected? ==> Entered(entries[r.row - offset]) && entries[r.row - offset].value > rows[r.row - offset].available)
            && (r.Rejected? ==> forall i :: 0 <= i < r.row - offset ==> !(Entered(entries[i]) && entries[i].value > rows[i].available))
            && (r.Picked? ==> r.picks == Positives(rows, entries))
            && (r.Picked? ==> forall p :: p in r.picks ==>
                  0 < p.quantity && exists i :: 0 <= i < |rows| && rows[i].itemName == p.itemName &&
                                                rows[i].yearText == p.yearText && p.quantity <= rows[i].available)
            && (r.Picked? ==> (r.picks != [] <==> exists i :: 0 <= i < |rows| && Entered(entries[i])))
  {
    CollectExact(rows, entries, offset);
    if rows != [] {
      CollectMeaning(rows[1..], entries[1..], offset + 1);
      assert forall i :: 1 <= i < |rows| ==> rows[i] == rows[1..][i - 1] && entries[i] == entries[1..][i - 1];
    }
  }

  /** A rejection is at the first row whose entry exceeds it, and an accepted request picks
      exactly the positive entries. */
  lemma {:induction false} CollectExact(rows: seq<TableRow>, entries: seq<Option<int>>, offset: nat)
    requires |entries| == |rows|
    ensures var r := Collect(rows, entries, offset);
            && (r.Rejected? ==> forall i :: 0 <= i < r.row - offset ==> !(Entered(entries[i]) && entries[i].value > rows[i].available))
            && (r.Picked? ==> r.picks == Positives(rows, entries))
  {
    if rows != [] {
      CollectExact(rows[1..], entries[1..], offset + 1);
      assert forall i :: 1 <= i < |rows| ==> rows[i] == rows[1..][i - 1] && entries[i] == entries[1..][i - 1];
    }
  }

  /** The collection loop of `dispose_selected`. */
  method CollectPicks(rows: seq<TableRow>, entries: seq<Option<int>>) returns (r: Selection)
    requires |entries| == |rows|
    ensures r == Collect(rows, entries, 0)
  {
    var picks: seq<Pick> := [];
    var i := 0;
    while i < |rows|
      invariant 0 <= i <= |rows|
      invariant Collect(rows, entries, 0) == Continue(picks, Collect(rows[i..], entries[i..], i))
    {
      CollectStep(rows[i..], entries[i..], i);
      if Entered(entries[i]) {
        if entries[i].value > rows[i].available {
          return Rejected(i);
        }
        picks := picks + [Pick(rows[i].itemName, rows[i].yearText, entries[i].value)];
      }
      assert rows[i..][1..] == rows[i + 1..] && entries[i..][1..] == entries[i + 1..];
      i := i + 1;
    }
    r := Picked(picks);
  }

  /** The selection that results when `done` was already collected before `rest`. */
  function Continue(done: seq<Pick>, rest: Selection): Selection
  {
    match rest
    case Rejected(i) => Rejected(i)
    case Picked(ps) => Picked(done + ps)
  }

  lemma CollectStep(rows: seq<TableRow>, entries: seq<Option<int>>, offset: nat)
    requires |entries| == |rows| && rows != []
    ensures Collect(rows, entries, offset) ==
            if !Entered(entries[0]) then Collect(rows[1..], entries[1..], offset + 1)
            else if entries[0].value > rows[0].available then Rejected(offset)
            else Continue([Pick(rows[0].itemName, rows[0].yearText, entries[0].value)], Collect(rows[1..], entries[1..], offset + 1))
  {
  }

  /** The details entered in the confirmation dialog. */
  datatype Details = Details(date: string, disposalMethod: string, authorityRef: string, remarks: string)

  /** The batch is held at a branch named Store (the query's join on `branch_name = 'Store'`). */
  predicate AtStore(b: Batch, branches: seq<Branch>)
  {
    IsStoreId(branches, b.branchId)
  }

  /** The disposal candidate filter: the item's Store batches whose year is the row's year
      OR NULL, with positive ledger availability. */
  predicate DisposalEligible(b: Batch, branches: seq<Branch>, txns: seq<Transaction>, disps: seq<Disposal>,
                             item: nat, yearText: string)
  {
    b.itemId == item && (b.year == Some(yearText) || b.year.None?) && AtStore(b, branches)
    && LedgerAvail(b, txns, disps) > 0
  }

  function DisposalCandidates(batches: seq<Batch>, branches: seq<Branch>, txns: seq<Transaction>,
                              disps: seq<Disposal>, item: nat, yearText: string): (r: seq<Batch>)
    ensures forall b :: b in r <==> b in batches && DisposalEligible(b, branches, txns, disps, item, yearText)
    ensures AscendingIds(batches) ==> AscendingIds(r)
  {
    Select(batches, b => DisposalEligible(b, branches, txns, disps, item, yearText))
  }

  /** What the posting loop reads for each candidate: the disposal dialog's own formula. */
  function DisposalAvails(cands: seq<Batch>, txns: seq<Transaction>, disps: seq<Disposal>): (r: seq<int>)
    ensures |r| == |cands|
    ensures forall i :: 0 <= i < |r| ==> r[i] == DisposalAvail(cands[i], txns, disps)
  {
    seq(|cands|, i requires 0 <= i < |cands| => DisposalAvail(cands[i], txns, disps))
  }

  /** The disposal plan read batch by batch from candidate `i` on, the way the posting loop
      reads it. */
  function BatchByBatch(cands: seq<Batch>, txns: seq<Transaction>, disps: seq<Disposal>, i: nat, remaining: int): seq<int>
    decreases |cands| - i
  {
    if i >= |cands| || remaining <= 0 then []
    else
      var t := Fifo.Min(remaining, DisposalAvail(cands[i], txns, disps));
      [t] + BatchByBatch(cands, txns, disps, i + 1, remaining - t)
  }

  /** Reading batch by batch from candidate `i` gives the FIFO plan over the availabilities from `i` on. */
  lemma {:induction false} BatchByBatchIsPlan(cands: seq<Batch>, txns: seq<Transaction>, disps: seq<Disposal>, i: nat, remaining: int)
    requires i <= |cands|
    ensures BatchByBatch(cands, txns, disps, i, remaining) == Fifo.Takes(DisposalAvails(cands, txns, disps)[i..], remaining)
    decreases |cands| - i
  {
    var avails := DisposalAvails(cands, txns, disps);
    if i < |cands| && remaining > 0 {
      var t := Fifo.Min(remaining, DisposalAvail(cands[i], txns, disps));
      BatchByBatchIsPlan(cands, txns, disps, i + 1, remaining - t);
      assert avails[i..][1..] == avails[i + 1..];
    }
  }

  function DisposalRow(c: Batch, take: int, details: Details, id: nat): Disposal
  {
    Disposal(id, c.id, details.date, take, details.disposalMethod, details.authorityRef, details.remarks)
  }

  function DisposalRows(cands: seq<Batch>, takes: seq<int>, details: Details, firstId: nat): (r: seq<Disposal>)
    requires |takes| <= |cands|
    ensures |r| == |takes|
  {
    if takes == [] then []
    else
      var k := |takes| - 1;
      DisposalRows(cands, takes[..k], details, firstId) + [DisposalRow(cands[k], takes[k], details, firstId + k)]
  }

  lemma DisposalRowsSnoc(cands: seq<Batch>, takes: seq<int>, t: int, details: Details, firstId: nat)
    requires |takes| < |cands|
    ensures DisposalRows(cands, takes + [t], details, firstId) ==
            DisposalRows(cands, takes, details, firstId) + [DisposalRow(cands[|takes|], t, details, firstId + |takes|)]
  {
    assert (takes + [t])[..|takes|] == takes;
  }

  lemma {:induction false} DisposalRowsAt(cands: seq<Batch>, takes: seq<int>, details: Details, firstId: nat)
    requires |takes| <= |cands|
    ensures var rows := DisposalRows(cands, takes, details, firstId);
            forall j :: 0 <= j < |rows| ==> rows[j] == DisposalRow(cands[j], takes[j], details, firstId + j)
  {
    if takes != [] {
      DisposalRowsAt(cands, takes[..|takes| - 1], details, firstId);
    }
  }

  /** Disposed units of batch `id` after posting the rows of a walk over distinct candidates. */
  lemma {:induction false} DisposedAfterRows(cands: seq<Batch>, takes: seq<int>, details: Details, firstId: nat,
                                             disps: seq<Disposal>, j: nat)
    requires |takes| <= |cands| && AscendingIds(cands) && j < |cands|
    ensures Disposed(cands[j].id, disps + DisposalRows(cands, takes, details, firstId)) ==
            Disposed(cands[j].id, disps) + (if j < |takes| then takes[j] else 0)
  {
    var rows := DisposalRows(cands, takes, details, firstId);
    if takes == [] {
      assert disps + rows == disps;
    } else {
      var k := |takes| - 1;
      var rows0 := DisposalRows(cands, takes[..k], details, firstId);
      DisposedAfterRows(cands, takes[..k], details, firstId, disps, j);
      assert disps + rows == (disps + rows0) + [DisposalRow(cands[k], takes[k], details, firstId + k)];
      DisposedAppend(cands[j].id, disps + rows0, DisposalRow(cands[k], takes[k], details, firstId + k));
      if j < k {
        assert takes[..k][j] == takes[j];
        assert cands[j].id < cands[k].id;
      } else if j > k {
        assert cands[k].id < cands[j].id;
      }
    }
  }

  /** The rows of a walk add to each lot's disposed units what the walk draws from it. */
  lemma {:induction false} DisposedAfterWalk(id: nat, cands: seq<Batch>, takes: seq<int>, details: Details, firstId: nat,
                                             disps: seq<Disposal>)
    requires |takes| <= |cands|
    ensures Disposed(id, disps + DisposalRows(cands, takes, details, firstId)) ==
            Disposed(id, disps) + TakenFrom(cands, takes, id)
  {
    if takes == [] {
      assert disps + [] == disps;
    } else {
      var k := |takes| - 1;
      var rows0 := DisposalRows(cands, takes[..k], details, firstId);
      var row := DisposalRow(cands[k], takes[k], details, firstId + k);
      DisposedAfterWalk(id, cands, takes[..k], details, firstId, disps);
      assert disps + DisposalRows(cands, takes, details, firstId) == (disps + rows0) + [row];
      DisposedAppend(id, disps + rows0, row);
    }
  }

  /** A disposal walk over Store batches that no Return row debits never overdraws a batch:
      each consumed batch keeps a non-negative ledger balance, every batch but the last one
      touched is exhausted, and the total disposed is the smaller of the request and the stock. */
  lemma DisposalKeepsBalances(cands: seq<Batch>, txns: seq<Transaction>, disps: seq<Disposal>,
                              quantity: int, details: Details, firstId: nat)
    requires AscendingIds(cands) && quantity >= 0
    requires forall j :: 0 <= j < |cands| ==> LedgerAvail(cands[j], txns, disps) > 0 && NoReturnAgainst(cands[j].id, txns)
    ensures var takes := Fifo.Takes(DisposalAvails(cands, txns, disps), quantity);
            var after := disps + DisposalRows(cands, takes, details, firstId);
            && Fifo.Sum(takes) == Fifo.Min(quantity, TotalAvail(cands, txns, disps))
            && (forall j :: 0 <= j < |takes| ==> 0 <= LedgerAvail(cands[j], txns, after) == LedgerAvail(cands[j], txns, disps) - takes[j])
            && (forall j :: 0 <= j < |takes| - 1 ==> LedgerAvail(cands[j], txns, after) == 0)
            && (forall j :: |takes| <= j < |cands| ==> LedgerAvail(cands[j], txns, after) == LedgerAvail(cands[j], txns, disps))
  {
    var avails := DisposalAvails(cands, txns, disps);
    var takes := Fifo.Takes(avails, quantity);
    forall j | 0 <= j < |cands| ensures avails[j] == LedgerAvail(cands[j], txns, disps) {
      DisposalAvailAgrees(cands[j], txns, disps);
    }
    assert Fifo.AllPositive(avails);
    Fifo.TakesTotal(avails, quantity);
    Fifo.TakesBounded(avails, quantity);
    Fifo.TakesDrainEarlier(avails, quantity);
    assert Fifo.Sum(avails) == TotalAvail(cands, txns, disps) by {
      SumOfLedgerAvails(cands, txns, disps, avails);
    }
    forall j | 0 <= j < |cands|
      ensures Disposed(cands[j].id, disps + DisposalRows(cands, takes, details, firstId)) ==
              Disposed(cands[j].id, disps) + (if j < |takes| then takes[j] else 0)
    {
      DisposedAfterRows(cands, takes, details, firstId, disps, j);
    }
  }

  lemma {:induction false} SumOfLedgerAvails(cands: seq<Batch>, txns: seq<Transaction>, disps: seq<Disposal>, avails: seq<int>)
    requires |avails| == |cands| && forall j :: 0 <= j < |cands| ==> avails[j] == LedgerAvail(cands[j], txns, disps)
    ensures Fifo.Sum(avails) == TotalAvail(cands, txns, disps)
  {
    if cands != [] {
      var k := |cands| - 1;
      SumOfLedgerAvails(cands[..k], txns, disps, avails[..k]);
    }
  }
}
