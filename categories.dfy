/** The categories dialog: add, edit and delete, with the sub-category guard on delete. */
module CategoriesDialog {
  import opened Schema
  import opened Database

  /** INSERT INTO categories once the form is accepted; a name already in use violates
      UNIQUE and nothing is stored. */
  method AddCategory(db: AssetDatabase, accepted: bool, name: string, remarks: string) returns (outcome: Outcome)
    requires db.Valid()
    modifies db
    ensures db.Valid() && db.LedgerUnchanged() && db.SubCategoriesUnchanged() && db.BranchesUnchanged() && db.ItemsUnchanged()
    ensures outcome == if !accepted then Cancelled
                       else if Taken(old(db.categories), CategoryId, CategoryName, name, None) then ConstraintViolation
                       else Done
    ensures outcome == Done ==> db.categories == old(db.categories) + [Category(old(db.nextCategoryId), name, remarks)]
    ensures outcome != Done ==> db.CategoriesUnchanged()
  {
    if !accepted {
      return Cancelled;
    }
    if Taken(db.categories, CategoryId, CategoryName, name, None) {
      return ConstraintViolation;
    }
    var row := Category(db.nextCategoryId, name, remarks);
    AppendKeys(db.categories, CategoryId, db.nextCategoryId, row);
    AppendUnique(db.categories, CategoryId, CategoryName, row);
    db.categories := db.categories + [row];
    db.nextCategoryId := db.nextCategoryId + 1;
    outcome := Done;
  }

  /** UPDATE categories for the selected key: no selection, no such row or a dismissed form
      changes nothing, and a name held by another category violates UNIQUE. */
  method EditCategory(db: AssetDatabase, selected: Option<nat>, accepted: bool, name: string, remarks: string)
    returns (outcome: Outcome)
    requires db.Valid()
    modifies db
    ensures db.Valid() && db.LedgerUnchanged() && db.SubCategoriesUnchanged() && db.BranchesUnchanged() && db.ItemsUnchanged()
    ensures outcome == if selected.None? then NoSelection
                       else if !HasKey(old(db.categories), CategoryId, selected.value) then NotFound
                       else if !accepted then Cancelled
                       else if Taken(old(db.categories), CategoryId, CategoryName, name, selected) then ConstraintViolation
                       else Done
    ensures outcome == Done ==>
              db.categories == Replaced(old(db.categories), CategoryId, selected.value, Category(selected.value, name, remarks))
              && db.nextCategoryId == old(db.nextCategoryId)
    ensures outcome != Done ==> db.CategoriesUnchanged()
  {
    if selected.None? {
      return NoSelection;
    }
    var id := selected.value;
    if !HasKey(db.categories, CategoryId, id) {
      return NotFound;
    }
    if !accepted {
      return Cancelled;
    }
    if Taken(db.categories, CategoryId, CategoryName, name, selected) {
      return ConstraintViolation;
    }
    var row := Category(id, name, remarks);
    ReplacedKeys(db.categories, CategoryId, id, row, db.nextCategoryId);
    ReplacedUnique(db.categories, CategoryId, id, row, CategoryName, db.nextCategoryId);
    db.categories := Replaced(db.categories, CategoryId, id, row);
    outcome := Done;
  }

  /** DELETE FROM categories, refused while a sub-category references the category. */
  method DeleteCategory(db: AssetDatabase, selected: Option<nat>, confirmed: bool) returns (outcome: Outcome)
    requires db.Valid()
    modifies db
    ensures db.Valid() && db.LedgerUnchanged() && db.SubCategoriesUnchanged() && db.BranchesUnchanged() && db.ItemsUnchanged()
    ensures outcome == if selected.None? then NoSelection
                       else if !confirmed then Cancelled
                       else if exists i :: 0 <= i < |old(db.subCategories)| && old(db.subCategories)[i].categoryId == selected.value then InUse
                       else Done
    ensures outcome == Done ==> db.categories == Without(old(db.categories), CategoryId, selected.value)
                                && db.nextCategoryId == old(db.nextCategoryId)
    ensures outcome != Done ==> db.CategoriesUnchanged()
  {
    if selected.None? {
      return NoSelection;
    }
    if !confirmed {
      return Cancelled;
    }
    var id := selected.value;
    if exists i :: 0 <= i < |db.subCategories| && db.subCategories[i].categoryId == id {
      return InUse;
    }
    WithoutKeys(db.categories, CategoryId, id, db.nextCategoryId);
    WithoutUnique(db.categories, CategoryId, id, CategoryName);
    db.categories := Without(db.categories, CategoryId, id);
    outcome := Done;
  }
}
