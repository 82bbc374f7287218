/** The read-only rollups: the issue dialog's year picker, the dispose table, the main stock
    register, and the five report dialogs. */
module Reports {
  import opened Schema
  import opened Balance
  import opened Ordering
  import opened Grouping
  import opened Movement
  import Disposals
  import Conservation

  // ---------------------------------------------------------------------------------------
  // Year picker of the issue dialog

  /** A batch of the item at the source branch with positive ledger availability counts
      towards its acquisition year (NULL is a group of its own). */
  function YearEntry(b: Batch, txns: seq<Transaction>, disps: seq<Disposal>, item: nat, branch: nat): Option<Entry>
  {
    if b.itemId == item && b.branchId == branch && LedgerAvail(b, txns, disps) > 0
    then Some(Entry([OptText(b.year)], LedgerAvail(b, txns, disps)))
    else None
  }

  function YearEntryOf(txns: seq<Transaction>, disps: seq<Disposal>, item: nat, branch: nat): Batch -> Option<Entry>
  {
    b => YearEntry(b, txns, disps, item, branch)
  }

  function YearChoices(bs: seq<Batch>, txns: seq<Transaction>, disps: seq<Disposal>, item: nat, branch: nat): seq<Group>
  {
    Aggregate(FilterMap(bs, YearEntryOf(txns, disps, item, branch)), false)
  }

  /** The picker offers a year exactly when some positive batch of the item at the branch has
      that year; each year once, and the total shown for a year is the very amount the save
      pre-check compares the request against. */
  lemma YearChoicesMeaning(bs: seq<Batch>, txns: seq<Transaction>, disps: seq<Disposal>, item: nat, branch: nat, year: string)
    ensures var r := YearChoices(bs, txns, disps, item, branch);
            && NoDuplicates(r)
            && (forall g :: g in r ==> g.total > 0)
            && ((exists g :: g in r && g.key == [Text(year)]) <==> Candidates(bs, txns, disps, item, branch, year) != [])
            && (forall g :: g in r && g.key == [Text(year)] ==> g.total == TotalAvail(Candidates(bs, txns, disps, item, branch, year), txns, disps))
  {
    var es := FilterMap(bs, YearEntryOf(txns, disps, item, branch));
    AggregateMeaning(es, false);
    YearEntriesPositive(bs, txns, disps, item, branch);
    forall g | g in YearChoices(bs, txns, disps, item, branch) ensures g.total > 0 {
      TotalPositive(es, g.key);
    }
    YearTotal(bs, txns, disps, item, branch, year);
    var k: Key := [Text(year)];
    if HasKey(es, k) {
      assert Group(k, Total(es, k)) in YearChoices(bs, txns, disps, item, branch);
    }
  }

  lemma YearEntriesPositive(bs: seq<Batch>, txns: seq<Transaction>, disps: seq<Disposal>, item: nat, branch: nat)
    ensures forall e :: e in FilterMap(bs, YearEntryOf(txns, disps, item, branch)) ==> e.value > 0
  {
    FilterMapFrom(bs, YearEntryOf(txns, disps, item, branch));
  }

  /** The year's total, the emptiness of its candidate list and the pre-check total agree. */
  lemma {:induction false} YearTotal(bs: seq<Batch>, txns: seq<Transaction>, disps: seq<Disposal>, item: nat, branch: nat, year: string)
    ensures var es := FilterMap(bs, YearEntryOf(txns, disps, item, branch));
            var cands := Candidates(bs, txns, disps, item, branch, year);
            && Total(es, [Text(year)]) == TotalAvail(cands, txns, disps)
            && (HasKey(es, [Text(year)]) <==> cands != [])
  {
    var keep := EligibleFor(txns, disps, item, branch, year);
    if bs != [] {
      var init := bs[..|bs| - 1];
      var b := bs[|bs| - 1];
      YearTotal(init, txns, disps, item, branch, year);
      var es0 := FilterMap(init, YearEntryOf(txns, disps, item, branch));
      var es := FilterMap(bs, YearEntryOf(txns, disps, item, branch));
      assert Candidates(bs, txns, disps, item, branch, year) == Select(bs, keep);
      assert Candidates(init, txns, disps, item, branch, year) == Select(init, keep);
      assert Select(bs, keep) == if keep(b) then Select(init, keep) + [b] else Select(init, keep);
      assert OptText(b.year) == Text(year) <==> b.year == Some(year);
      if YearEntry(b, txns, disps, item, branch).Some? {
        assert es == es0 + [YearEntry(b, txns, disps, item, branch).value];
        assert es[..|es| - 1] == es0;
      } else {
        assert es == es0;
      }
      if YearEntry(b, txns, disps, item, branch).Some? {
        HasKeySnoc(es0, YearEntry(b, txns, disps, item, branch).value, [Text(year)]);
      }
    }
  }

  // ---------------------------------------------------------------------------------------
  // Dispose table

  /** A Store batch of an existing item, with positive availability under the disposal
      dialog's formula, grouped by (item name, year, item id). */
  function DisposeEntry(b: Batch, items: seq<Item>, branches: seq<Branch>, txns: seq<Transaction>, disps: seq<Disposal>): Option<Entry>
  {
    var it := ItemWithId(items, b.itemId);
    if it.Some? && Disposals.AtStore(b, branches) && DisposalAvail(b, txns, disps) > 0
    then Some(Entry([Text(it.value.name), OptText(b.year), Num(b.itemId)], DisposalAvail(b, txns, disps)))
    else None
  }

  function DisposeEntryOf(items: seq<Item>, branches: seq<Branch>, txns: seq<Transaction>, disps: seq<Disposal>): Batch -> Option<Entry>
  {
    b => DisposeEntry(b, items, branches, txns, disps)
  }

  /** The rows of the dispose table; a NULL year is shown as an empty text. */
  function DisposeTable(bs: seq<Batch>, items: seq<Item>, branches: seq<Branch>, txns: seq<Transaction>, disps: seq<Disposal>): (r: seq<Disposals.TableRow>)
  {
    var gs := Rollup(FilterMap(bs, DisposeEntryOf(items, branches, txns, disps)), false);
    seq(|gs|, i requires 0 <= i < |gs| => GroupRow(gs[i]))
  }

  function GroupRow(g: Group): Disposals.TableRow
  {
    if |g.key| == 3 && g.key[0].Text? then
      Disposals.TableRow(g.key[0].s, if g.key[1].Text? then g.key[1].s else "", g.total)
    else Disposals.TableRow("", "", g.total)
  }

  lemma DisposeEntriesShape(bs: seq<Batch>, items: seq<Item>, branches: seq<Branch>, txns: seq<Transaction>, disps: seq<Disposal>)
    ensures forall e :: e in FilterMap(bs, DisposeEntryOf(items, branches, txns, disps)) ==>
              e.value > 0 && |e.key| == 3 && e.key[0].Text? && e.key[2].Num?
  {
    FilterMapFrom(bs, DisposeEntryOf(items, branches, txns, disps));
  }

  /** Every row of the dispose table shows a positive availability, no (item, year) group is
      listed twice, and rows are ordered by item name, then year. */
  lemma DisposeTableMeaning(bs: seq<Batch>, items: seq<Item>, branches: seq<Branch>, txns: seq<Transaction>, disps: seq<Disposal>)
    ensures var es := FilterMap(bs, DisposeEntryOf(items, branches, txns, disps));
            var gs := Rollup(es, false);
            && (forall g :: g in gs <==> HasKey(es, g.key) && g.total == Total(es, g.key))
            && (forall g, h :: g in gs && h in gs && g.key == h.key ==> g == h)
            && Sorted(gs, (g: Group) => g.key, false)
            && (forall i :: 0 <= i < |gs| ==> gs[i].total > 0 && |gs[i].key| == 3 && gs[i].key[0].Text?)
            && var t := DisposeTable(bs, items, branches, txns, disps);
               |t| == |gs| && forall i :: 0 <= i < |t| ==>
                 && t[i].available == gs[i].total && t[i].itemName == gs[i].key[0].s
                 && t[i].yearText == (if gs[i].key[1].Text? then gs[i].key[1].s else "")
  {
    var es := FilterMap(bs, DisposeEntryOf(items, branches, txns, disps));
    RollupMeaning(es, false);
    var gs := Rollup(es, false);
    DisposeGroupsShape(bs, items, branches, txns, disps);
  }

  lemma DisposeGroupsShape(bs: seq<Batch>, items: seq<Item>, branches: seq<Branch>, txns: seq<Transaction>, disps: seq<Disposal>)
    ensures var gs := Rollup(FilterMap(bs, DisposeEntryOf(items, branches, txns, disps)), false);
            forall i :: 0 <= i < |gs| ==> gs[i].total > 0 && |gs[i].key| == 3 && gs[i].key[0].Text?
  {
    var es := FilterMap(bs, DisposeEntryOf(items, branches, txns, disps));
    RollupMeaning(es, false);
    DisposeEntriesShape(bs, items, branches, txns, disps);
    var gs := Rollup(es, false);
    forall i | 0 <= i < |gs| ensures gs[i].total > 0 && |gs[i].key| == 3 && gs[i].key[0].Text? {
      assert gs[i] in gs;
      var j :| 0 <= j < |es| && es[j].key == gs[i].key;
      TotalPositive(es, gs[i].key);
    }
  }

  // ---------------------------------------------------------------------------------------
  // Main window stock register

  /** A batch whose item, category, sub-category and branch rows all exist contributes its
      ledger balance under (category, sub-category, item, branch, year) names. */
  function RegisterEntry(b: Batch, items: seq<Item>, categories: seq<Category>, subs: seq<SubCategory>,
                         branches: seq<Branch>, txns: seq<Transaction>, disps: seq<Disposal>): Option<Entry>
  {
    var it := ItemWithId(items, b.itemId);
    if it.None? then None
    else
      var c := CategoryWithId(categories, it.value.categoryId);
      var s := SubCategoryWithId(subs, it.value.subCategoryId);
      var br := BranchWithId(branches, b.branchId);
      if c.None? || s.None? || br.None? then None
      else Some(Entry([Text(c.value.name), Text(s.value.name), Text(it.value.name), Text(br.value.name), OptText(b.year)],
                      LedgerAvail(b, txns, disps)))
  }

  function RegisterEntryOf(items: seq<Item>, categories: seq<Category>, subs: seq<SubCategory>,
                           branches: seq<Branch>, txns: seq<Transaction>, disps: seq<Disposal>): Batch -> Option<Entry>
  {
    b => RegisterEntry(b, items, categories, subs, branches, txns, disps)
  }

  function StockRegister(bs: seq<Batch>, items: seq<Item>, categories: seq<Category>, subs: seq<SubCategory>,
                         branches: seq<Branch>, txns: seq<Transaction>, disps: seq<Disposal>): seq<Group>
  {
    Rollup(FilterMap(bs, RegisterEntryOf(items, categories, subs, branches, txns, disps)), true)
  }

  /** The register lists each (category, sub-category, item, branch, year) with a positive
      summed balance exactly once, with that sum, in ascending order of those names. */
  lemma StockRegisterMeaning(bs: seq<Batch>, items: seq<Item>, categories: seq<Category>, subs: seq<SubCategory>,
                             branches: seq<Branch>, txns: seq<Transaction>, disps: seq<Disposal>)
    ensures var es := FilterMap(bs, RegisterEntryOf(items, categories, subs, branches, txns, disps));
            var r := StockRegister(bs, items, categories, subs, branches, txns, disps);
            && (forall g :: g in r <==> HasKey(es, g.key) && g.total == Total(es, g.key) && g.total > 0)
            && (forall g, h :: g in r && h in r && g.key == h.key ==> g == h)
            && Sorted(r, (g: Group) => g.key, false)
  {
    RollupMeaning(FilterMap(bs, RegisterEntryOf(items, categories, subs, branches, txns, disps)), true);
  }
}
