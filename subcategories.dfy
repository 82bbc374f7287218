/** The sub-categories dialog: add, edit and delete, with the item guard on delete. */
module SubCategoriesDialog {
  import opened Schema
  import opened Database

  /** INSERT INTO sub_categories once the form is accepted; with no parent category chosen
      the NOT NULL column refuses the row. No foreign key is enforced, and the name is not unique. */
  method AddSubCategory(db: AssetDatabase, accepted: bool, categoryId: Option<nat>, name: string, remarks: string)
    returns (outcome: Outcome)
    requires db.Valid()
    modifies db
    ensures db.Valid() && db.LedgerUnchanged() && db.CategoriesUnchanged() && db.BranchesUnchanged() && db.ItemsUnchanged()
    ensures outcome == if !accepted then Cancelled else if categoryId.None? then ConstraintViolation else Done
    ensures outcome == Done ==>
              db.subCategories == old(db.subCategories) + [SubCategory(old(db.nextSubCategoryId), categoryId.value, name, remarks)]
    ensures outcome != Done ==> db.SubCategoriesUnchanged()
  {
    if !accepted {
      return Cancelled;
    }
    if categoryId.None? {
      return ConstraintViolation;
    }
    var row := SubCategory(db.nextSubCategoryId, categoryId.value, name, remarks);
    AppendKeys(db.subCategories, SubCategoryId, db.nextSubCategoryId, row);
    db.subCategories := db.subCategories + [row];
    db.nextSubCategoryId := db.nextSubCategoryId + 1;
    outcome := Done;
  }

  /** UPDATE sub_categories for the selected key, parent category included. */
  method EditSubCategory(db: AssetDatabase, selected: Option<nat>, accepted: bool, categoryId: Option<nat>,
                         name: string, remarks: string) returns (outcome: Outcome)
    requires db.Valid()
    modifies db
    ensures db.Valid() && db.LedgerUnchanged() && db.CategoriesUnchanged() && db.BranchesUnchanged() && db.ItemsUnchanged()
    ensures outcome == if selected.None? then NoSelection
                       else if !HasKey(old(db.subCategories), SubCategoryId, selected.value) then NotFound
                       else if !accepted then Cancelled
                       else if categoryId.None? then ConstraintViolation
                       else Done
    ensures outcome == Done ==>
              db.subCategories == Replaced(old(db.subCategories), SubCategoryId, selected.value,
                                           SubCategory(selected.value, categoryId.value, name, remarks))
              && db.nextSubCategoryId == old(db.nextSubCategoryId)
    ensures outcome != Done ==> db.SubCategoriesUnchanged()
  {
    if selected.None? {
      return NoSelection;
    }
    var id := selected.value;
    if !HasKey(db.subCategories, SubCategoryId, id) {
      return NotFound;
    }
    if !accepted {
      return Cancelled;
    }
    if categoryId.None? {
      return ConstraintViolation;
    }
    var row := SubCategory(id, categoryId.value, name, remarks);
    ReplacedKeys(db.subCategories, SubCategoryId, id, row, db.nextSubCategoryId);
    db.subCategories := Replaced(db.subCategories, SubCategoryId, id, row);
    outcome := Done;
  }

  /** DELETE FROM sub_categories, refused while an item references the sub-category. */
  method DeleteSubCategory(db: AssetDatabase, selected: Option<nat>, confirmed: bool) returns (outcome: Outcome)
    requires db.Valid()
    modifies db
    ensures db.Valid() && db.LedgerUnchanged() && db.CategoriesUnchanged() && db.BranchesUnchanged() && db.ItemsUnchanged()
    ensures outcome == if selected.None? then NoSelection
                       else if !confirmed then Cancelled
                       else if exists i :: 0 <= i < |old(db.items)| && old(db.items)[i].subCategoryId == selected.value then InUse
                       else Done
    ensures outcome == Done ==> db.subCategories == Without(old(db.subCategories), SubCategoryId, selected.value)
                                && db.nextSubCategoryId == old(db.nextSubCategoryId)
    ensures outcome != Done ==> db.SubCategoriesUnchanged()
  {
    if selected.None? {
      return NoSelection;
    }
    if !confirmed {
      return Cancelled;
    }
    var id := selected.value;
    if exists i :: 0 <= i < |db.items| && db.items[i].subCategoryId == id {
      return InUse;
    }
    WithoutKeys(db.subCategories, SubCategoryId, id, db.nextSubCategoryId);
    db.subCategories := Without(db.subCategories, SubCategoryId, id);
    outcome := Done;
  }
}
