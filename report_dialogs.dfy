/** The report dialogs: stock register, branch balance, and the disposal, acquisition and
    transaction histories. */
module ReportDialogs {
  import opened Schema
  import opened Balance
  import opened Ordering
  import opened Grouping
  import Conservation

  // ---------------------------------------------------------------------------------------
  // Stock register: acquired, disposed and remaining per item

  /** Derived batches carry the transaction type as their method; every other batch is an
      original acquisition. */
  predicate IsAcquisition(b: Batch)
  {
    b.acqMethod != "Issue" && b.acqMethod != "Return"
  }

  function ItemKey(it: Item): Key
  {
    [Num(it.id), Text(it.name)]
  }

  function AcquiredEntryOf(items: seq<Item>): Batch -> Option<Entry>
  {
    (b: Batch) => var it := ItemWithId(items, b.itemId);
         if IsAcquisition(b) && it.Some? then Some(Entry(ItemKey(it.value), b.quantity)) else None
  }

  function DisposedEntryOf(items: seq<Item>, disps: seq<Disposal>): Batch -> Option<Entry>
  {
    (b: Batch) => var it := ItemWithId(items, b.itemId);
         if IsAcquisition(b) && it.Some? then Some(Entry(ItemKey(it.value), Disposed(b.id, disps))) else None
  }

  datatype StockLine = StockLine(item: Key, acquired: int, disposed: int, remaining: int)

  /** One line per item key, kept only when something remains. */
  function StockLines(ks: seq<Key>, acq: seq<Entry>, dis: seq<Entry>): (r: seq<StockLine>)
    ensures forall l :: l in r <==> l.item in ks && l.acquired == Total(acq, l.item) && l.disposed == Total(dis, l.item)
                                     && l.remaining == l.acquired - l.disposed && l.remaining > 0
  {
    if ks == [] then []
    else
      var k := ks[|ks| - 1];
      var l := StockLine(k, Total(acq, k), Total(dis, k), Total(acq, k) - Total(dis, k));
      assert forall x :: x in ks <==> x in ks[..|ks| - 1] || x == k;
      StockLines(ks[..|ks| - 1], acq, dis) + (if l.remaining > 0 then [l] else [])
  }

  function StockReport(bs: seq<Batch>, items: seq<Item>, disps: seq<Disposal>): seq<StockLine>
  {
    var acq := FilterMap(bs, AcquiredEntryOf(items));
    StockLines(Keys(acq), acq, FilterMap(bs, DisposedEntryOf(items, disps)))
  }

  /** A line per item that has original acquisitions: acquired sums their quantities,
      disposed sums the disposals posted against those same batches, and the line appears
      exactly when the difference is positive; no item appears twice. */
  lemma StockReportMeaning(bs: seq<Batch>, items: seq<Item>, disps: seq<Disposal>)
    ensures forall l :: l in StockReport(bs, items, disps) <==>
              HasKey(FilterMap(bs, AcquiredEntryOf(items)), l.item)
              && l.acquired == Total(FilterMap(bs, AcquiredEntryOf(items)), l.item)
              && l.disposed == Total(FilterMap(bs, DisposedEntryOf(items, disps)), l.item)
              && l.remaining == l.acquired - l.disposed > 0
    ensures forall l, m :: l in StockReport(bs, items, disps) && m in StockReport(bs, items, disps) && l.item == m.item ==> l == m
  {
  }

  /** Batches created by Issue or Return are not acquisitions: adding them leaves the stock
      register unchanged, so moving stock between branches never alters it. */
  lemma StockReportIgnoresDerived(bs: seq<Batch>, ds: seq<Batch>, items: seq<Item>, disps: seq<Disposal>)
    requires forall d :: d in ds ==> !IsAcquisition(d)
    ensures StockReport(bs + ds, items, disps) == StockReport(bs, items, disps)
  {
    FilterMapDropped(bs, ds, AcquiredEntryOf(items));
    FilterMapDropped(bs, ds, DisposedEntryOf(items, disps));
  }

  // ---------------------------------------------------------------------------------------
  // Branch balance

  function BranchKey(br: Branch, it: Item): Key
  {
    [Num(br.id), Text(br.name), Num(it.id), Text(it.name)]
  }

  /** The per-batch balance the query means: quantity less Issue/Transfer, Return and
      disposal sums of that batch. */
  function BatchBalance(b: Batch, txns: seq<Transaction>, disps: seq<Disposal>): int
  {
    b.quantity - Debited(b.id, txns, {Issue, Transfer}) - Debited(b.id, txns, {Return}) - Disposed(b.id, disps)
  }

  lemma BatchBalanceIsLedger(b: Batch, txns: seq<Transaction>, disps: seq<Disposal>)
    ensures BatchBalance(b, txns, disps) == LedgerAvail(b, txns, disps)
  {
    DebitedSplit(b.id, txns, {Issue, Transfer}, {Return});
    assert {Issue, Transfer} + {Return} == AllKinds;
  }

  function BranchEntryOf(items: seq<Item>, branches: seq<Branch>, txns: seq<Transaction>, disps: seq<Disposal>): Batch -> Option<Entry>
  {
    (b: Batch) => var br := BranchWithId(branches, b.branchId);
         var it := ItemWithId(items, b.itemId);
         if br.Some? && it.Some? then Some(Entry(BranchKey(br.value, it.value), BatchBalance(b, txns, disps))) else None
  }

  /** The branch balance report, summing each batch's own balance (see BareColumnBalance for
      the query as written). */
  function BranchBalance(bs: seq<Batch>, items: seq<Item>, branches: seq<Branch>, txns: seq<Transaction>, disps: seq<Disposal>): seq<Group>
  {
    Aggregate(FilterMap(bs, BranchEntryOf(items, branches, txns, disps)), true)
  }

  /** The figure reported for a (branch, item) is exactly that item's ledger balance at the
      branch, and the row is present exactly when that balance is positive; no row repeats. */
  lemma BranchBalanceMeaning(bs: seq<Batch>, items: seq<Item>, branches: seq<Branch>, txns: seq<Transaction>, disps: seq<Disposal>,
                             br: Branch, it: Item)
    requires br in branches && BranchWithId(branches, br.id) == Some(br)
    requires it in items && ItemWithId(items, it.id) == Some(it)
    ensures var bal := Conservation.BalanceOf(bs, txns, disps, it.id, Some(br.id));
            var r := BranchBalance(bs, items, branches, txns, disps);
            && (Group(BranchKey(br, it), bal) in r <==> bal > 0)
            && (forall g :: g in r && g.key == BranchKey(br, it) ==> g.total == bal)
    ensures NoDuplicates(BranchBalance(bs, items, branches, txns, disps))
  {
    var es := FilterMap(bs, BranchEntryOf(items, branches, txns, disps));
    AggregateMeaning(es, true);
    BranchTotal(bs, items, branches, txns, disps, br, it);
  }

  lemma {:induction false} BranchTotal(bs: seq<Batch>, items: seq<Item>, branches: seq<Branch>, txns: seq<Transaction>, disps: seq<Disposal>,
                                       br: Branch, it: Item)
    requires BranchWithId(branches, br.id) == Some(br) && ItemWithId(items, it.id) == Some(it)
    ensures var es := FilterMap(bs, BranchEntryOf(items, branches, txns, disps));
            var bal := Conservation.BalanceOf(bs, txns, disps, it.id, Some(br.id));
            && Total(es, BranchKey(br, it)) == bal
            && (bal != 0 ==> HasKey(es, BranchKey(br, it)))
  {
    if bs != [] {
      var init := bs[..|bs| - 1];
      var b := bs[|bs| - 1];
      var f := BranchEntryOf(items, branches, txns, disps);
      var k := BranchKey(br, it);
      BranchTotal(init, items, branches, txns, disps, br, it);
      BatchBalanceIsLedger(b, txns, disps);
      var es0 := FilterMap(init, f);
      if f(b).Some? {
        assert FilterMap(bs, f) == es0 + [f(b).value];
        HasKeySnoc(es0, f(b).value, k);
        assert f(b).value.key == k <==> Conservation.Selected(b, it.id, Some(br.id));
      } else {
        assert FilterMap(bs, f) == es0;
        assert !Conservation.Selected(b, it.id, Some(br.id));
      }
    }
  }

  /** The query as written: a bare `ab.batch_id` inside the grouped SUM, so SQLite subtracts the
      debits of one representative batch `rep` of the group from the summed quantity. */
  function BareColumnBalance(group: seq<Batch>, rep: Batch, txns: seq<Transaction>, disps: seq<Disposal>): int
  {
    SumQuantity(group) - Debited(rep.id, txns, {Issue, Transfer}) - Debited(rep.id, txns, {Return}) - Disposed(rep.id, disps)
  }

  function SumQuantity(group: seq<Batch>): int
  {
    if group == [] then 0 else SumQuantity(group[..|group| - 1]) + group[|group| - 1].quantity
  }

  /** Two Store batches of 5 units, 2 issued from the first and 3 from the second: 5 units are
      left, but the query as written reports 8 or 7, whichever batch SQLite picks. */
  lemma BareColumnMiscounts()
    ensures var b1 := Batch(1, 1, 1, "2024-01-01", "Purchase", "", 5, None, "", "", Some("2024"));
            var b2 := Batch(2, 1, 1, "2024-02-01", "Purchase", "", 5, None, "", "", Some("2024"));
            var txns := [Transaction(1, 1, Issue, Some(1), Some(2), "2024-03-01", 2, "", ""),
                         Transaction(2, 2, Issue, Some(1), Some(2), "2024-03-02", 3, "", "")];
            && Conservation.BalanceOf([b1, b2], txns, [], 1, Some(1)) == 5
            && BareColumnBalance([b1, b2], b1, txns, []) == 8
            && BareColumnBalance([b1, b2], b2, txns, []) == 7
  {
    var b1 := Batch(1, 1, 1, "2024-01-01", "Purchase", "", 5, None, "", "", Some("2024"));
    var b2 := Batch(2, 1, 1, "2024-02-01", "Purchase", "", 5, None, "", "", Some("2024"));
    var t1 := Transaction(1, 1, Issue, Some(1), Some(2), "2024-03-01", 2, "", "");
    var t2 := Transaction(2, 2, Issue, Some(1), Some(2), "2024-03-02", 3, "", "");
    var txns := [t1, t2];
    assert [b1, b2][..1] == [b1] && [b1][..0] == [];
    assert txns[..1] == [t1] && [t1][..0] == [];
    assert Debited(1, [t1], AllKinds) == 2 && Debited(2, [t1], AllKinds) == 0;
    assert Debited(1, txns, AllKinds) == 2 && Debited(2, txns, AllKinds) == 3;
    assert Debited(1, [t1], {Issue, Transfer}) == 2 && Debited(2, [t1], {Issue, Transfer}) == 0;
    assert Debited(1, txns, {Issue, Transfer}) == 2 && Debited(2, txns, {Issue, Transfer}) == 3;
    assert Debited(1, [t1], {Return}) == 0 && Debited(2, [t1], {Return}) == 0;
    assert Debited(1, txns, {Return}) == 0 && Debited(2, txns, {Return}) == 0;
    assert SumQuantity([b1]) == 5;
    assert LedgerAvail(b1, txns, []) == 3;
    assert LedgerAvail(b2, txns, []) == 2;
    assert Conservation.BalanceOf([b1], txns, [], 1, Some(1)) == 3;
  }

  /** With one batch per (branch, item) the bare column is harmless. */
  lemma BareColumnSingleBatch(b: Batch, txns: seq<Transaction>, disps: seq<Disposal>)
    ensures BareColumnBalance([b], b, txns, disps) == LedgerAvail(b, txns, disps)
  {
    BatchBalanceIsLedger(b, txns, disps);
    assert [b][..0] == [];
    assert SumQuantity([b]) == b.quantity;
  }

  // ---------------------------------------------------------------------------------------
  // Histories, latest first

  function DateKey(date: string): Key
  {
    [Text(date)]
  }

  datatype DisposalLine = DisposalLine(itemName: string, date: string, quantity: int, disposalMethod: string, authorityRef: string)

  /** A disposal joined with its batch and that batch's item. */
  function DisposalLineOf(bs: seq<Batch>, items: seq<Item>): Disposal -> Option<DisposalLine>
  {
    (d: Disposal) => var b := BatchWithId(bs, d.batchId);
         var it := if b.Some? then ItemWithId(items, b.value.itemId) else None;
         if it.Some? then Some(DisposalLine(it.value.name, d.date, d.quantity, d.disposalMethod, d.authorityRef)) else None
  }

  function DisposalReport(disps: seq<Disposal>, bs: seq<Batch>, items: seq<Item>): seq<DisposalLine>
  {
    SortBy(FilterMap(disps, DisposalLineOf(bs, items)), (l: DisposalLine) => DateKey(l.date), true)
  }

  /** Every disposal whose batch and item exist is listed once, only those are, and the latest
      disposal date comes first. */
  lemma DisposalReportMeaning(disps: seq<Disposal>, bs: seq<Batch>, items: seq<Item>)
    ensures var r := DisposalReport(disps, bs, items);
            && Sorted(r, (l: DisposalLine) => DateKey(l.date), true)
            && (forall d :: d in disps && DisposalLineOf(bs, items)(d).Some? ==> DisposalLineOf(bs, items)(d).value in r)
            && (forall l :: l in r ==> exists d :: d in disps && DisposalLineOf(bs, items)(d) == Some(l))
            && ((forall d :: d in disps ==> DisposalLineOf(bs, items)(d).Some?) ==> |r| == |disps|)
  {
    var f := DisposalLineOf(bs, items);
    FilterMapTo(disps, f);
    FilterMapFrom(disps, f);
    MultisetMembers(DisposalReport(disps, bs, items), FilterMap(disps, f));
  }

  lemma MultisetMembers<T>(a: seq<T>, b: seq<T>)
    requires multiset(a) == multiset(b)
    ensures forall x :: x in a <==> x in b
  {
    forall x ensures x in a <==> x in b {
      assert x in a <==> x in multiset(a);
      assert x in b <==> x in multiset(b);
    }
  }

  datatype AcquisitionLine = AcquisitionLine(itemName: string, branchName: string, date: string, yearText: string,
                                             quantity: int, acqMethod: string, source: string)

  /** An original acquisition joined with its item and branch; a NULL year shows as empty. */
  function AcquisitionLineOf(items: seq<Item>, branches: seq<Branch>): Batch -> Option<AcquisitionLine>
  {
    (b: Batch) => var it := ItemWithId(items, b.itemId);
         var br := BranchWithId(branches, b.branchId);
         if IsAcquisition(b) && it.Some? && br.Some?
         then Some(AcquisitionLine(it.value.name, br.value.name, b.acquisitionDate,
                                   if b.year.Some? then b.year.value else "", b.quantity, b.acqMethod, b.source))
         else None
  }

  function AcquisitionHistory(bs: seq<Batch>, items: seq<Item>, branches: seq<Branch>): seq<AcquisitionLine>
  {
    SortBy(FilterMap(bs, AcquisitionLineOf(items, branches)), (l: AcquisitionLine) => DateKey(l.date), true)
  }

  /** Lists each original acquisition whose item and branch exist, no Issue/Return batch,
      latest acquisition date first. */
  lemma AcquisitionHistoryMeaning(bs: seq<Batch>, items: seq<Item>, branches: seq<Branch>)
    ensures var r := AcquisitionHistory(bs, items, branches);
            && Sorted(r, (l: AcquisitionLine) => DateKey(l.date), true)
            && (forall b :: b in bs && AcquisitionLineOf(items, branches)(b).Some? ==> AcquisitionLineOf(items, branches)(b).value in r)
            && (forall l :: l in r ==> exists b :: b in bs && IsAcquisition(b) && AcquisitionLineOf(items, branches)(b) == Some(l))
            && (forall l :: l in r ==> l.acqMethod != "Issue" && l.acqMethod != "Return")
  {
    var f := AcquisitionLineOf(items, branches);
    FilterMapTo(bs, f);
    FilterMapFrom(bs, f);
    MultisetMembers(AcquisitionHistory(bs, items, branches), FilterMap(bs, f));
  }

  datatype TransactionLine = TransactionLine(date: string, kind: string, fromBranch: string, toBranch: string,
                                             itemName: string, quantity: int, authorityRef: string, remarks: string)

  /** The LEFT JOIN on branches: the branch's name, or empty when there is no such branch. */
  function BranchNameOrEmpty(branches: seq<Branch>, id: Option<nat>): (r: string)
    ensures id.None? || BranchWithId(branches, id.value).None? ==> r == ""
    ensures id.Some? && BranchWithId(branches, id.value).Some? ==> exists br :: br in branches && br.id == id.value && r == br.name
  {
    if id.None? then "" else
      var br := BranchWithId(branches, id.value);
      if br.None? then "" else br.value.name
  }

  function TransactionLineOf(bs: seq<Batch>, items: seq<Item>, branches: seq<Branch>): Transaction -> Option<TransactionLine>
  {
    (t: Transaction) => var b := BatchWithId(bs, t.batchId);
         var it := if b.Some? then ItemWithId(items, b.value.itemId) else None;
         if it.Some?
         then Some(TransactionLine(t.date, KindName(t.kind), BranchNameOrEmpty(branches, t.fromBranch),
                                   BranchNameOrEmpty(branches, t.toBranch), it.value.name, t.quantity, t.authorityRef, t.remarks))
         else None
  }

  function TransactionHistory(txns: seq<Transaction>, bs: seq<Batch>, items: seq<Item>, branches: seq<Branch>): seq<TransactionLine>
  {
    SortBy(FilterMap(txns, TransactionLineOf(bs, items, branches)), (l: TransactionLine) => DateKey(l.date), true)
  }

  /** Lists every transaction whose batch and item exist, latest transaction date first; the
      branch columns are never what drops a row. */
  lemma TransactionHistoryMeaning(txns: seq<Transaction>, bs: seq<Batch>, items: seq<Item>, branches: seq<Branch>)
    ensures var r := TransactionHistory(txns, bs, items, branches);
            && Sorted(r, (l: TransactionLine) => DateKey(l.date), true)
            && (forall t :: t in txns && TransactionLineOf(bs, items, branches)(t).Some? ==> TransactionLineOf(bs, items, branches)(t).value in r)
            && (forall l :: l in r ==> exists t :: t in txns && TransactionLineOf(bs, items, branches)(t) == Some(l))
            && ((forall t :: t in txns ==> TransactionLineOf(bs, items, branches)(t).Some?) ==> |r| == |txns|)
    ensures forall t :: TransactionLineOf(bs, items, branches)(t).Some? <==>
              BatchWithId(bs, t.batchId).Some? && ItemWithId(items, BatchWithId(bs, t.batchId).value.itemId).Some?
  {
    var f := TransactionLineOf(bs, items, branches);
    FilterMapTo(txns, f);
    FilterMapFrom(txns, f);
    MultisetMembers(TransactionHistory(txns, bs, items, branches), FilterMap(txns, f));
  }
}
