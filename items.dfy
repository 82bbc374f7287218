/** The items dialog: add, edit and delete, with the property-code rule on add and the lot
    guard on delete. */
module ItemsDialog {
  import opened Schema
  import opened Database

  /** The category and sub-category pickers both hold a choice. */
  predicate Classified(categoryId: Option<nat>, subCategoryId: Option<nat>)
  {
    categoryId.Some? && subCategoryId.Some?
  }

  /** INSERT INTO items once the form is accepted. Both pickers must be set; once any item
      exists a new one needs a property code; a code already in use violates UNIQUE. */
  method AddItem(db: AssetDatabase, accepted: bool, name: string, categoryId: Option<nat>, subCategoryId: Option<nat>,
                 specification: string, govtCode: string, remarks: string) returns (outcome: Outcome)
    requires db.Valid()
    modifies db
    ensures db.Valid() && db.LedgerUnchanged() && db.CategoriesUnchanged() && db.SubCategoriesUnchanged() && db.BranchesUnchanged()
    ensures old(db.Linked()) ==> db.Linked()
    ensures outcome == if !accepted then Cancelled
                       else if !Classified(categoryId, subCategoryId) then MissingFields
                       else if |old(db.items)| > 0 && govtCode == "" then CodeRequired
                       else if Taken(old(db.items), ItemId, GovtCode, govtCode, None) then ConstraintViolation
                       else Done
    ensures outcome == Done ==>
              db.items == old(db.items) + [Item(old(db.nextItemId), name, categoryId.value, subCategoryId.value,
                                                specification, govtCode, remarks)]
    ensures outcome != Done ==> db.ItemsUnchanged()
  {
    if !accepted {
      return Cancelled;
    }
    if !Classified(categoryId, subCategoryId) {
      return MissingFields;
    }
    if |db.items| > 0 && govtCode == "" {
      return CodeRequired;
    }
    if Taken(db.items, ItemId, GovtCode, govtCode, None) {
      return ConstraintViolation;
    }
    InsertItem(db, name, categoryId.value, subCategoryId.value, specification, govtCode, remarks);
    outcome := Done;
  }

  /** The INSERT statement itself, under the next AUTOINCREMENT key. */
  method InsertItem(db: AssetDatabase, name: string, categoryId: nat, subCategoryId: nat,
                    specification: string, govtCode: string, remarks: string)
    requires db.Valid() && !Taken(db.items, ItemId, GovtCode, govtCode, None)
    modifies db
    ensures db.Valid() && db.LedgerUnchanged() && db.CategoriesUnchanged() && db.SubCategoriesUnchanged() && db.BranchesUnchanged()
    ensures old(db.Linked()) ==> db.Linked()
    ensures db.items == old(db.items) + [Item(old(db.nextItemId), name, categoryId, subCategoryId, specification, govtCode, remarks)]
    ensures db.nextItemId == old(db.nextItemId) + 1
  {
    var row := Item(db.nextItemId, name, categoryId, subCategoryId, specification, govtCode, remarks);
    AppendKeys(db.items, ItemId, db.nextItemId, row);
    AppendUnique(db.items, ItemId, GovtCode, row);
    if db.Linked() {
      forall j | HasKey(db.items, ItemId, j) ensures HasKey(db.items + [row], ItemId, j) {
        AppendHasKey(db.items, ItemId, row, j);
      }
    }
    db.items := db.items + [row];
    db.nextItemId := db.nextItemId + 1;
  }

  /** UPDATE items for the selected key. The property-code rule of AddItem is not applied here. */
  method EditItem(db: AssetDatabase, selected: Option<nat>, accepted: bool, name: string, categoryId: Option<nat>,
                  subCategoryId: Option<nat>, specification: string, govtCode: string, remarks: string)
    returns (outcome: Outcome)
    requires db.Valid()
    modifies db
    ensures db.Valid() && db.LedgerUnchanged() && db.CategoriesUnchanged() && db.SubCategoriesUnchanged() && db.BranchesUnchanged()
    ensures old(db.Linked()) ==> db.Linked()
    ensures outcome == if selected.None? then NoSelection
                       else if !HasKey(old(db.items), ItemId, selected.value) then NotFound
                       else if !accepted then Cancelled
                       else if !Classified(categoryId, subCategoryId) then MissingFields
                       else if Taken(old(db.items), ItemId, GovtCode, govtCode, selected) then ConstraintViolation
                       else Done
    ensures outcome == Done ==>
              db.items == Replaced(old(db.items), ItemId, selected.value,
                                   Item(selected.value, name, categoryId.value, subCategoryId.value, specification, govtCode, remarks))
              && db.nextItemId == old(db.nextItemId)
    ensures outcome != Done ==> db.ItemsUnchanged()
  {
    if selected.None? {
      return NoSelection;
    }
    var id := selected.value;
    if !HasKey(db.items, ItemId, id) {
      return NotFound;
    }
    if !accepted {
      return Cancelled;
    }
    if !Classified(categoryId, subCategoryId) {
      return MissingFields;
    }
    if Taken(db.items, ItemId, GovtCode, govtCode, selected) {
      return ConstraintViolation;
    }
    var row := Item(id, name, categoryId.value, subCategoryId.value, specification, govtCode, remarks);
    ReplacedKeys(db.items, ItemId, id, row, db.nextItemId);
    ReplacedUnique(db.items, ItemId, id, row, GovtCode, db.nextItemId);
    if db.Linked() {
      forall j | HasKey(db.items, ItemId, j) ensures HasKey(Replaced(db.items, ItemId, id, row), ItemId, j) {
        ReplacedHasKey(db.items, ItemId, id, row, j);
      }
    }
    db.items := Replaced(db.items, ItemId, id, row);
    outcome := Done;
  }

  /** Some lot is of the item. */
  predicate ItemInUse(batches: seq<Batch>, id: nat)
  {
    exists i :: 0 <= i < |batches| && batches[i].itemId == id
  }

  /** DELETE FROM items, refused while a lot is of the item. A key with no row deletes nothing. */
  method DeleteItem(db: AssetDatabase, selected: Option<nat>, confirmed: bool) returns (outcome: Outcome)
    requires db.Valid()
    modifies db
    ensures db.Valid() && db.LedgerUnchanged() && db.CategoriesUnchanged() && db.SubCategoriesUnchanged() && db.BranchesUnchanged()
    ensures old(db.Linked()) ==> db.Linked()
    ensures outcome == if selected.None? then NoSelection
                       else if !confirmed then Cancelled
                       else if ItemInUse(old(db.batches), selected.value) then InUse
                       else Done
    ensures outcome == Done ==> db.items == Without(old(db.items), ItemId, selected.value) && db.nextItemId == old(db.nextItemId)
    ensures outcome != Done ==> db.ItemsUnchanged()
  {
    if selected.None? {
      return NoSelection;
    }
    if !confirmed {
      return Cancelled;
    }
    var id := selected.value;
    if ItemInUse(db.batches, id) {
      return InUse;
    }
    RemoveItem(db, id);
    outcome := Done;
  }

  /** Deleting an item no lot is of leaves no dangling reference. */
  lemma UnusedItemDelete(items: seq<Item>, branches: seq<Branch>, batches: seq<Batch>, transactions: seq<Transaction>, id: nat)
    requires References(items, branches, batches, transactions) && !ItemInUse(batches, id)
    ensures References(Without(items, ItemId, id), branches, batches, transactions)
  {
    forall j | HasKey(items, ItemId, j) && j != id ensures HasKey(Without(items, ItemId, id), ItemId, j) {
      WithoutHasKey(items, ItemId, id, j);
    }
  }

  /** The DELETE statement itself, run once the guards have passed. */
  method RemoveItem(db: AssetDatabase, id: nat)
    requires db.Valid() && !ItemInUse(db.batches, id)
    modifies db
    ensures db.Valid() && db.LedgerUnchanged() && db.CategoriesUnchanged() && db.SubCategoriesUnchanged() && db.BranchesUnchanged()
    ensures old(db.Linked()) ==> db.Linked()
    ensures db.items == Without(old(db.items), ItemId, id) && db.nextItemId == old(db.nextItemId)
  {
    WithoutKeys(db.items, ItemId, id, db.nextItemId);
    WithoutUnique(db.items, ItemId, id, GovtCode);
    if db.Linked() {
      UnusedItemDelete(db.items, db.branches, db.batches, db.transactions, id);
    }
    db.items := Without(db.items, ItemId, id);
  }
}
