/** Issue/Return planning and posting as values: which batches are candidates, how much
    is taken from each, and the transaction and derived-batch rows that result. */
module Movement {
  import opened Schema
  import opened Balance
  import Fifo

  /** The filter of the issue dialog's pre-check and candidate queries. */
  predicate Eligible(b: Batch, txns: seq<Transaction>, disps: seq<Disposal>, item: nat, branch: nat, year: string)
  {
    b.itemId == item && b.branchId == branch && b.year == Some(year) && LedgerAvail(b, txns, disps) > 0
  }

  /** The rows of `bs` that satisfy `keep`, in table order. */
  function Select(bs: seq<Batch>, keep: Batch -> bool): (r: seq<Batch>)
    ensures forall b :: b in r <==> b in bs && keep(b)
    ensures AscendingIds(bs) ==> AscendingIds(r)
    ensures |r| <= |bs|
  {
    if bs == [] then []
    else
      var init := bs[..|bs| - 1];
      var last := bs[|bs| - 1];
      var r0 := Select(init, keep);
      assert forall b :: b in bs <==> b in init || b == last;
      if keep(last) then
        assert AscendingIds(bs) ==> forall b :: b in init ==> b.id < last.id by {
          if AscendingIds(bs) {
            forall b | b in init ensures b.id < last.id {
              var k :| 0 <= k < |init| && init[k] == b;
              assert bs[k] == b;
            }
          }
        }
        r0 + [last]
      else r0
  }

  function EligibleFor(txns: seq<Transaction>, disps: seq<Disposal>, item: nat, branch: nat, year: string): Batch -> bool
  {
    b => Eligible(b, txns, disps, item, branch, year)
  }

  /** Candidate batches for (item, source branch, year), in ascending id. */
  function Candidates(batches: seq<Batch>, txns: seq<Transaction>, disps: seq<Disposal>,
                      item: nat, branch: nat, year: string): (r: seq<Batch>)
    ensures forall b :: b in r <==> b in batches && Eligible(b, txns, disps, item, branch, year)
    ensures AscendingIds(batches) ==> AscendingIds(r)
  {
    Select(batches, EligibleFor(txns, disps, item, branch, year))
  }

  /** Sum of ledger availability over a list of batches: the pre-check's `total_avail`. */
  function TotalAvail(bs: seq<Batch>, txns: seq<Transaction>, disps: seq<Disposal>): int
  {
    if bs == [] then 0 else TotalAvail(bs[..|bs| - 1], txns, disps) + LedgerAvail(bs[|bs| - 1], txns, disps)
  }

  /** What the posting loop reads for each candidate (`get_available_quantity`). */
  function IssueReturnAvails(cands: seq<Batch>, txns: seq<Transaction>, disps: seq<Disposal>): (r: seq<int>)
    ensures |r| == |cands|
    ensures forall i :: 0 <= i < |r| ==> r[i] == IssueReturnAvail(cands[i], txns, disps)
  {
    seq(|cands|, i requires 0 <= i < |cands| => IssueReturnAvail(cands[i], txns, disps))
  }

  function Provenance(kind: TxnKind, destName: string): string
  {
    if kind == Issue then "Issued to " + destName else "Returned to " + destName
  }

  /** The request as the dialog collects it. */
  datatype MoveRequest = MoveRequest(item: nat, kind: TxnKind, date: string, quantity: int,
                                     authorityRef: string, remarks: string, year: string)

  /** The transaction row posted for the j-th consumed candidate. */
  function MoveRow(c: Batch, take: int, req: MoveRequest, src: nat, dst: nat, id: nat): Transaction
  {
    Transaction(id, c.id, req.kind, Some(src), Some(dst), req.date, take, req.authorityRef, req.remarks)
  }

  /** The batch created at the destination for the j-th consumed candidate. */
  function DerivedBatch(c: Batch, take: int, req: MoveRequest, dst: nat, dstName: string, id: nat): Batch
  {
    Batch(id, c.itemId, dst, req.date, KindName(req.kind), Provenance(req.kind, dstName), take,
          c.cost, req.authorityRef, req.remarks, Some(req.year))
  }

  function MoveRows(cands: seq<Batch>, takes: seq<int>, req: MoveRequest, src: nat, dst: nat, firstId: nat): (r: seq<Transaction>)
    requires |takes| <= |cands|
    ensures |r| == |takes|
  {
    if takes == [] then []
    else
      var k := |takes| - 1;
      MoveRows(cands, takes[..k], req, src, dst, firstId) + [MoveRow(cands[k], takes[k], req, src, dst, firstId + k)]
  }

  function DerivedBatches(cands: seq<Batch>, takes: seq<int>, req: MoveRequest, dst: nat, dstName: string, firstId: nat): (r: seq<Batch>)
    requires |takes| <= |cands|
    ensures |r| == |takes|
  {
    if takes == [] then []
    else
      var k := |takes| - 1;
      DerivedBatches(cands, takes[..k], req, dst, dstName, firstId) + [DerivedBatch(cands[k], takes[k], req, dst, dstName, firstId + k)]
  }

  function TxnQuantities(ts: seq<Transaction>): (r: seq<int>)
    ensures |r| == |ts| && forall i :: 0 <= i < |ts| ==> r[i] == ts[i].quantity
  {
    seq(|ts|, i requires 0 <= i < |ts| => ts[i].quantity)
  }

  /** The FIFO plan for a request against the current tables. */
  function Plan(cands: seq<Batch>, txns: seq<Transaction>, disps: seq<Disposal>, quantity: int): (r: seq<int>)
    ensures |r| <= |cands|
  {
    Fifo.Takes(IssueReturnAvails(cands, txns, disps), quantity)
  }

  /** The same plan read lot by lot from lot `i` on, the way the posting loop reads it: take
      the smaller of what is still wanted and the lot's availability, then move on while
      something is still wanted. */
  function LotByLot(cands: seq<Batch>, txns: seq<Transaction>, disps: seq<Disposal>, i: nat, remaining: int): seq<int>
    decreases |cands| - i
  {
    if i >= |cands| || remaining <= 0 then []
    else
      var t := Fifo.Min(remaining, IssueReturnAvail(cands[i], txns, disps));
      [t] + LotByLot(cands, txns, disps, i + 1, remaining - t)
  }

  /** Reading lot by lot from lot `i` gives the FIFO plan over the availabilities from `i` on. */
  lemma {:induction false} LotByLotIsPlan(cands: seq<Batch>, txns: seq<Transaction>, disps: seq<Disposal>, i: nat, remaining: int)
    requires i <= |cands|
    ensures LotByLot(cands, txns, disps, i, remaining) == Fifo.Takes(IssueReturnAvails(cands, txns, disps)[i..], remaining)
    decreases |cands| - i
  {
    var avails := IssueReturnAvails(cands, txns, disps);
    if i < |cands| && remaining > 0 {
      var t := Fifo.Min(remaining, IssueReturnAvail(cands[i], txns, disps));
      LotByLotIsPlan(cands, txns, disps, i + 1, remaining - t);
      assert avails[i..][1..] == avails[i + 1..];
    }
  }

  lemma {:induction false} CandidatesPositive(cands: seq<Batch>, txns: seq<Transaction>, disps: seq<Disposal>)
    requires NoTransferRows(txns)
    requires forall i :: 0 <= i < |cands| ==> LedgerAvail(cands[i], txns, disps) > 0
    ensures Fifo.AllPositive(IssueReturnAvails(cands, txns, disps))
    ensures Fifo.Sum(IssueReturnAvails(cands, txns, disps)) == TotalAvail(cands, txns, disps)
  {
    forall i | 0 <= i < |cands| ensures IssueReturnAvail(cands[i], txns, disps) == LedgerAvail(cands[i], txns, disps) {
      IssueReturnAvailAgrees(cands[i], txns, disps);
    }
    if cands != [] {
      var init := cands[..|cands| - 1];
      CandidatesPositive(init, txns, disps);
      assert IssueReturnAvails(cands, txns, disps) ==
             IssueReturnAvails(init, txns, disps) + [IssueReturnAvail(cands[|cands| - 1], txns, disps)];
      Fifo.SumAppend(IssueReturnAvails(init, txns, disps), IssueReturnAvail(cands[|cands| - 1], txns, disps));
    }
  }

  /** When the pre-check passes, the posted quantities add up to the request, each is positive,
      each is at most its batch's availability, and every batch but the last is drained. */
  lemma PlanMeetsRequest(batches: seq<Batch>, txns: seq<Transaction>, disps: seq<Disposal>,
                         item: nat, branch: nat, year: string, quantity: int)
    requires NoTransferRows(txns)
    requires 0 <= quantity <= TotalAvail(Candidates(batches, txns, disps, item, branch, year), txns, disps)
    ensures var cands := Candidates(batches, txns, disps, item, branch, year);
            var plan := Plan(cands, txns, disps, quantity);
            && Fifo.Sum(plan) == quantity
            && (forall j :: 0 <= j < |plan| ==> 0 < plan[j] <= LedgerAvail(cands[j], txns, disps))
            && (forall j :: 0 <= j < |plan| - 1 ==> plan[j] == LedgerAvail(cands[j], txns, disps))
  {
    var cands := Candidates(batches, txns, disps, item, branch, year);
    var avails := IssueReturnAvails(cands, txns, disps);
    assert forall i :: 0 <= i < |cands| ==> cands[i] in cands;
    CandidatesPositive(cands, txns, disps);
    Fifo.TakesTotal(avails, quantity);
    Fifo.TakesBounded(avails, quantity);
    Fifo.TakesDrainEarlier(avails, quantity);
    forall i | 0 <= i < |cands| ensures avails[i] == LedgerAvail(cands[i], txns, disps) {
      IssueReturnAvailAgrees(cands[i], txns, disps);
    }
  }

  /** Row j of a move is the row for the j-th consumed candidate. */
  lemma {:induction false} MoveRowsAt(cands: seq<Batch>, takes: seq<int>, req: MoveRequest, src: nat, dst: nat, firstId: nat)
    requires |takes| <= |cands|
    ensures var rows := MoveRows(cands, takes, req, src, dst, firstId);
            forall j :: 0 <= j < |rows| ==> rows[j] == MoveRow(cands[j], takes[j], req, src, dst, firstId + j)
  {
    if takes != [] {
      var k := |takes| - 1;
      MoveRowsAt(cands, takes[..k], req, src, dst, firstId);
    }
  }

  /** Batch j of a move is the derived batch of the j-th consumed candidate. */
  lemma {:induction false} DerivedAt(cands: seq<Batch>, takes: seq<int>, req: MoveRequest, dst: nat, dstName: string, firstId: nat)
    requires |takes| <= |cands|
    ensures var derived := DerivedBatches(cands, takes, req, dst, dstName, firstId);
            forall j :: 0 <= j < |derived| ==> derived[j] == DerivedBatch(cands[j], takes[j], req, dst, dstName, firstId + j)
  {
    if takes != [] {
      var k := |takes| - 1;
      DerivedAt(cands, takes[..k], req, dst, dstName, firstId);
    }
  }

  /** What a run of takes draws from the lot with key `id`. */
  function TakenFrom(cands: seq<Batch>, takes: seq<int>, id: nat): int
    requires |takes| <= |cands|
  {
    if takes == [] then 0
    else
      var k := |takes| - 1;
      TakenFrom(cands, takes[..k], id) + (if cands[k].id == id then takes[k] else 0)
  }

  /** Over lots with distinct, ascending keys, a run draws from lot j exactly its j-th take. */
  lemma {:induction false} TakenFromLot(cands: seq<Batch>, takes: seq<int>, j: nat)
    requires |takes| <= |cands| && AscendingIds(cands) && j < |cands|
    ensures TakenFrom(cands, takes, cands[j].id) == if j < |takes| then takes[j] else 0
  {
    if takes != [] {
      var k := |takes| - 1;
      TakenFromLot(cands, takes[..k], j);
      if j < k {
        assert cands[j].id < cands[k].id;
      } else if j > k {
        assert cands[k].id < cands[j].id;
      }
    }
  }

  /** A run draws nothing from a lot that is not among its candidates. */
  lemma {:induction false} TakenFromOther(cands: seq<Batch>, takes: seq<int>, id: nat)
    requires |takes| <= |cands| && forall j :: 0 <= j < |cands| ==> cands[j].id != id
    ensures TakenFrom(cands, takes, id) == 0
  {
    if takes != [] {
      TakenFromOther(cands, takes[..|takes| - 1], id);
    }
  }

  /** The rows of a move debit each lot by what the run draws from it, and only under the
      move's own type. */
  lemma {:induction false} DebitedAfterMoves(id: nat, t0: seq<Transaction>, cands: seq<Batch>, takes: seq<int>,
                                             req: MoveRequest, src: nat, dst: nat, firstId: nat, kinds: set<TxnKind>)
    requires |takes| <= |cands|
    ensures Debited(id, t0 + MoveRows(cands, takes, req, src, dst, firstId), kinds) ==
            Debited(id, t0, kinds) + (if req.kind in kinds then TakenFrom(cands, takes, id) else 0)
  {
    if takes == [] {
      assert t0 + [] == t0;
    } else {
      var k := |takes| - 1;
      var rows0 := MoveRows(cands, takes[..k], req, src, dst, firstId);
      var row := MoveRow(cands[k], takes[k], req, src, dst, firstId + k);
      DebitedAfterMoves(id, t0, cands, takes[..k], req, src, dst, firstId, kinds);
      assert t0 + MoveRows(cands, takes, req, src, dst, firstId) == (t0 + rows0) + [row];
      DebitedAppend(id, t0 + rows0, row, kinds);
    }
  }
}
