/** The branches dialog: add, edit and delete, with the Store and usage guards on delete. */
module BranchesDialog {
  import opened Schema
  import opened Balance
  import opened Database

  /** INSERT INTO branches once the form is accepted; a name already in use violates UNIQUE. */
  method AddBranch(db: AssetDatabase, accepted: bool, name: string, address: string, remarks: string)
    returns (outcome: Outcome)
    requires db.Valid()
    modifies db
    ensures db.Valid() && db.LedgerUnchanged() && db.CategoriesUnchanged() && db.SubCategoriesUnchanged() && db.ItemsUnchanged()
    ensures old(db.Linked()) ==> db.Linked()
    ensures old(db.Linked() && db.Sound()) ==> db.Sound()
    ensures outcome == if !accepted then Cancelled
                       else if Taken(old(db.branches), BranchId, BranchName, name, None) then ConstraintViolation
                       else Done
    ensures outcome == Done ==> db.branches == old(db.branches) + [Branch(old(db.nextBranchId), name, address, remarks)]
                                && db.nextBranchId == old(db.nextBranchId) + 1
    ensures outcome != Done ==> db.BranchesUnchanged()
  {
    if !accepted {
      return Cancelled;
    }
    if Taken(db.branches, BranchId, BranchName, name, None) {
      return ConstraintViolation;
    }
    InsertBranch(db, Branch(db.nextBranchId, name, address, remarks));
    outcome := Done;
  }

  /** A branch appended to the table removes no reference target. */
  lemma AppendBranchReferences(items: seq<Item>, branches: seq<Branch>, batches: seq<Batch>, txns: seq<Transaction>,
                               row: Branch)
    requires References(items, branches, batches, txns)
    ensures References(items, branches + [row], batches, txns)
  {
    forall j | HasKey(branches, BranchId, j) ensures HasKey(branches + [row], BranchId, j) {
      AppendHasKey(branches, BranchId, row, j);
    }
  }

  /** A branch appended to the table changes no existing branch's name, so when every movement
      names an existing branch the stock stays sound. */
  lemma AppendBranchSound(items: seq<Item>, branches: seq<Branch>, batches: seq<Batch>, txns: seq<Transaction>,
                          disps: seq<Disposal>, row: Branch)
    requires References(items, branches, batches, txns) && StockSound(branches, batches, txns, disps)
    ensures StockSound(branches + [row], batches, txns, disps)
  {
    forall i | 0 <= i < |txns| && txns[i].kind == Return && txns[i].fromBranch.Some?
      ensures !IsStoreId(branches + [row], txns[i].fromBranch.value)
    {
      var f := txns[i].fromBranch.value;
      var j :| 0 <= j < |branches| && BranchId(branches[j]) == f;
      assert BranchWithId(branches, f).Some?;
      FirstWhereSnoc(branches, row, (b: Branch) => b.id == f);
    }
  }

  /** INSERT INTO branches under the next AUTOINCREMENT key, with a name not yet in use. */
  method InsertBranch(db: AssetDatabase, row: Branch)
    requires db.Valid()
    requires row.id == db.nextBranchId && !Taken(db.branches, BranchId, BranchName, row.name, None)
    modifies db
    ensures db.Valid() && db.LedgerUnchanged() && db.CategoriesUnchanged() && db.SubCategoriesUnchanged() && db.ItemsUnchanged()
    ensures old(db.Linked()) ==> db.Linked()
    ensures old(db.Linked() && db.Sound()) ==> db.Sound()
    ensures db.branches == old(db.branches) + [row] && db.nextBranchId == old(db.nextBranchId) + 1
  {
    AppendKeys(db.branches, BranchId, db.nextBranchId, row);
    AppendUnique(db.branches, BranchId, BranchName, row);
    if db.Linked() {
      AppendBranchReferences(db.items, db.branches, db.batches, db.transactions, row);
      if db.Sound() {
        AppendBranchSound(db.items, db.branches, db.batches, db.transactions, db.disposals, row);
      }
    }
    db.branches := db.branches + [row];
    db.nextBranchId := db.nextBranchId + 1;
  }

  /** A rename keeps the stock sound unless it gives the Store's name to a branch that stock has
      been returned from: every other branch keeps its name, and the renamed one is the Store
      afterwards only under that name. */
  lemma RenameSound(branches: seq<Branch>, batches: seq<Batch>, txns: seq<Transaction>, disps: seq<Disposal>,
                    row: Branch)
    requires StockSound(branches, batches, txns, disps) && HasKey(branches, BranchId, row.id)
    requires row.name == StoreName ==> !ReturnsFrom(txns, row.id)
    ensures StockSound(Replaced(branches, BranchId, row.id, row), batches, txns, disps)
  {
    var renamed := Replaced(branches, BranchId, row.id, row);
    forall i | 0 <= i < |txns| && txns[i].kind == Return && txns[i].fromBranch.Some?
      ensures !IsStoreId(renamed, txns[i].fromBranch.value)
    {
      var f := txns[i].fromBranch.value;
      if f == row.id {
        ReplacedHasKey(branches, BranchId, row.id, row, f);
        var j :| 0 <= j < |renamed| && BranchId(renamed[j]) == f;
        var found := BranchWithId(renamed, f).value;
        var m :| 0 <= m < |renamed| && renamed[m] == found;
      } else {
        FirstWhereSame(renamed, branches, (b: Branch) => b.id == f);
      }
    }
  }

  /** UPDATE branches for the selected key. Nothing protects the Store branch from a rename. */
  method EditBranch(db: AssetDatabase, selected: Option<nat>, accepted: bool, name: string, address: string, remarks: string)
    returns (outcome: Outcome)
    requires db.Valid()
    modifies db
    ensures db.Valid() && db.LedgerUnchanged() && db.CategoriesUnchanged() && db.SubCategoriesUnchanged() && db.ItemsUnchanged()
    ensures old(db.Linked()) ==> db.Linked()
    ensures outcome == if selected.None? then NoSelection
                       else if !HasKey(old(db.branches), BranchId, selected.value) then NotFound
                       else if !accepted then Cancelled
                       else if Taken(old(db.branches), BranchId, BranchName, name, selected) then ConstraintViolation
                       else Done
    ensures outcome == Done ==>
              db.branches == Replaced(old(db.branches), BranchId, selected.value, Branch(selected.value, name, address, remarks))
              && db.nextBranchId == old(db.nextBranchId)
    ensures outcome != Done ==> db.BranchesUnchanged()
    ensures old(db.Sound()) && !(selected.Some? && name == StoreName && ReturnsFrom(old(db.transactions), selected.value)) ==>
              db.Sound()
  {
    if selected.None? {
      return NoSelection;
    }
    var id := selected.value;
    if !HasKey(db.branches, BranchId, id) {
      return NotFound;
    }
    if !accepted {
      return Cancelled;
    }
    if Taken(db.branches, BranchId, BranchName, name, selected) {
      return ConstraintViolation;
    }
    var row := Branch(id, name, address, remarks);
    ReplacedKeys(db.branches, BranchId, id, row, db.nextBranchId);
    ReplacedUnique(db.branches, BranchId, id, row, BranchName, db.nextBranchId);
    if db.Linked() {
      forall j | HasKey(db.branches, BranchId, j) ensures HasKey(Replaced(db.branches, BranchId, id, row), BranchId, j) {
        ReplacedHasKey(db.branches, BranchId, id, row, j);
      }
    }
    if db.Sound() && !(name == StoreName && ReturnsFrom(db.transactions, id)) {
      RenameSound(db.branches, db.batches, db.transactions, db.disposals, row);
    }
    db.branches := Replaced(db.branches, BranchId, id, row);
    outcome := Done;
  }

  /** Some lot lies at the branch, or some movement leaves or enters it. */
  predicate BranchInUse(batches: seq<Batch>, transactions: seq<Transaction>, id: nat)
  {
    || (exists i :: 0 <= i < |batches| && batches[i].branchId == id)
    || (exists i :: 0 <= i < |transactions| && (transactions[i].fromBranch == Some(id) || transactions[i].toBranch == Some(id)))
  }

  /** Deleting a branch the guard finds unused leaves no dangling reference. */
  lemma UnusedBranchDelete(items: seq<Item>, branches: seq<Branch>, batches: seq<Batch>, transactions: seq<Transaction>, id: nat)
    requires References(items, branches, batches, transactions) && !BranchInUse(batches, transactions, id)
    ensures References(items, Without(branches, BranchId, id), batches, transactions)
  {
    forall j | HasKey(branches, BranchId, j) && j != id ensures HasKey(Without(branches, BranchId, id), BranchId, j) {
      WithoutHasKey(branches, BranchId, id, j);
    }
  }

  /** Deleting a branch no movement names changes no named branch's name, so the stock stays sound. */
  lemma UnusedBranchDeleteSound(branches: seq<Branch>, batches: seq<Batch>, txns: seq<Transaction>, disps: seq<Disposal>,
                                id: nat)
    requires StockSound(branches, batches, txns, disps) && !BranchInUse(batches, txns, id)
    ensures StockSound(Without(branches, BranchId, id), batches, txns, disps)
  {
    forall i | 0 <= i < |txns| && txns[i].kind == Return && txns[i].fromBranch.Some?
      ensures !IsStoreId(Without(branches, BranchId, id), txns[i].fromBranch.value)
    {
      var f := txns[i].fromBranch.value;
      FirstWhereWithout(branches, BranchId, id, (b: Branch) => b.id == f);
    }
  }

  /** DELETE FROM branches. The name is looked up first (a missing row aborts the handler),
      the Store branch is refused before the confirmation, and a branch with lots or
      movements is refused after it. */
  method DeleteBranch(db: AssetDatabase, selected: Option<nat>, confirmed: bool) returns (outcome: Outcome)
    requires db.Valid()
    modifies db
    ensures db.Valid() && db.LedgerUnchanged() && db.CategoriesUnchanged() && db.SubCategoriesUnchanged() && db.ItemsUnchanged()
    ensures old(db.Linked()) ==> db.Linked()
    ensures outcome == if selected.None? then NoSelection
                       else if BranchWithId(old(db.branches), selected.value).None? then NotFound
                       else if BranchWithId(old(db.branches), selected.value).value.name == StoreName then StoreProtected
                       else if !confirmed then Cancelled
                       else if BranchInUse(old(db.batches), old(db.transactions), selected.value) then InUse
                       else Done
    ensures old(db.Sound()) ==> db.Sound()
    ensures outcome == Done ==> db.branches == Without(old(db.branches), BranchId, selected.value)
                                && db.nextBranchId == old(db.nextBranchId)
    ensures outcome != Done ==> db.BranchesUnchanged()
  {
    if selected.None? {
      return NoSelection;
    }
    var id := selected.value;
    var found := BranchWithId(db.branches, id);
    if found.None? {
      return NotFound;
    }
    if found.value.name == StoreName {
      return StoreProtected;
    }
    if !confirmed {
      return Cancelled;
    }
    if BranchInUse(db.batches, db.transactions, id) {
      return InUse;
    }
    RemoveBranch(db, id);
    outcome := Done;
  }

  /** The DELETE statement itself, run once the guards have passed. */
  method RemoveBranch(db: AssetDatabase, id: nat)
    requires db.Valid() && !BranchInUse(db.batches, db.transactions, id)
    modifies db
    ensures db.Valid() && db.LedgerUnchanged() && db.CategoriesUnchanged() && db.SubCategoriesUnchanged() && db.ItemsUnchanged()
    ensures old(db.Linked()) ==> db.Linked()
    ensures db.branches == Without(old(db.branches), BranchId, id) && db.nextBranchId == old(db.nextBranchId)
    ensures old(db.Sound()) ==> db.Sound()
  {
    WithoutKeys(db.branches, BranchId, id, db.nextBranchId);
    WithoutUnique(db.branches, BranchId, id, BranchName);
    if db.Linked() {
      UnusedBranchDelete(db.items, db.branches, db.batches, db.transactions, id);
    }
    if db.Sound() {
      UnusedBranchDeleteSound(db.branches, db.batches, db.transactions, db.disposals, id);
    }
    db.branches := Without(db.branches, BranchId, id);
  }
}
