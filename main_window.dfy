/** Start-up of the main window: the central Store branch is created when it is missing. */
module MainWindow {
  import opened Schema
  import opened Database
  import BranchesDialog

  /** The row inserted when no branch is named Store. */
  function DefaultStore(id: nat): Branch
  {
    Branch(id, StoreName, "Central Store", "Default central branch for acquisitions and disposals")
  }

  /** A branch is named `name` exactly when the lookup by name finds one. */
  lemma NamedIffTaken(branches: seq<Branch>, name: string)
    ensures BranchNamed(branches, name).None? <==> !Taken(branches, BranchId, BranchName, name, None)
  {
    if BranchNamed(branches, name).None? {
      forall i | 0 <= i < |branches| ensures BranchName(branches[i]) != name {
        assert !((b: Branch) => b.name == name)(branches[i]);
      }
    } else {
      var b := BranchNamed(branches, name).value;
      var i :| 0 <= i < |branches| && branches[i] == b;
      assert BranchName(branches[i]) == name;
    }
  }

  /** After start-up a Store branch exists; a database that already had one is left exactly as it
      was, so running start-up twice is the same as running it once. */
  method EnsureStoreBranch(db: AssetDatabase)
    requires db.Valid()
    modifies db
    ensures db.Valid() && db.LedgerUnchanged() && db.CategoriesUnchanged() && db.SubCategoriesUnchanged() && db.ItemsUnchanged()
    ensures old(db.Linked()) ==> db.Linked()
    ensures old(db.Linked() && db.Sound()) ==> db.Sound()
    ensures BranchNamed(db.branches, StoreName).Some?
    ensures BranchNamed(old(db.branches), StoreName).Some? ==> db.BranchesUnchanged()
    ensures BranchNamed(old(db.branches), StoreName).None? ==>
              db.branches == old(db.branches) + [DefaultStore(old(db.nextBranchId))] && db.nextBranchId == old(db.nextBranchId) + 1
  {
    if BranchNamed(db.branches, StoreName).Some? {
      return;
    }
    NamedIffTaken(db.branches, StoreName);
    var row := DefaultStore(db.nextBranchId);
    StoreFoundLast(db.branches, row);
    BranchesDialog.InsertBranch(db, row);
  }

  /** A branch appended to a table with no Store, and itself named Store, is the one the lookup finds. */
  lemma StoreFoundLast(branches: seq<Branch>, row: Branch)
    requires BranchNamed(branches, StoreName).None? && row.name == StoreName
    ensures BranchNamed(branches + [row], StoreName) == Some(row)
  {
    var all := branches + [row];
    assert all[|branches|] == row;
    assert forall i :: 0 <= i < |branches| ==> all[i] == branches[i];
  }
}
