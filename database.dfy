/** The asset database: the seven tables as sequences that the dialogs' handlers update in
    place, the AUTOINCREMENT counters of the tables that have deletes, and the invariants the
    handlers keep. */
module Database {
  import opened Schema
  import opened Balance

  /** What a handler did: `Done` when it changed the tables, otherwise the warning it showed
      (or the crash it ran into) before changing anything. */
  datatype Outcome =
    | Done
    | NoSelection
    | NotFound
    | Cancelled
    | MissingFields
    | CodeRequired
    | StoreProtected
    | InUse
    | ConstraintViolation
    | NoStore
    | SameAsStore
    | InsufficientStock(total: int)
    | ExceedsAvailable(row: nat)
    | NothingToDispose

  function CategoryId(c: Category): nat { c.id }
  function SubCategoryId(s: SubCategory): nat { s.id }
  function BranchId(b: Branch): nat { b.id }
  function ItemId(i: Item): nat { i.id }
  function CategoryName(c: Category): string { c.name }
  function BranchName(b: Branch): string { b.name }
  function GovtCode(i: Item): string { i.govtCode }

  /** AUTOINCREMENT keys: positive, strictly increasing in table order, below the next key. */
  ghost predicate KeysBelow<T>(xs: seq<T>, key: T -> nat, next: nat)
  {
    && next >= 1
    && (forall i, j :: 0 <= i < j < |xs| ==> key(xs[i]) < key(xs[j]))
    && (forall i :: 0 <= i < |xs| ==> 1 <= key(xs[i]) < next)
  }

  /** A UNIQUE column. */
  ghost predicate Unique<T, K>(xs: seq<T>, col: T -> K)
  {
    forall i, j :: 0 <= i < j < |xs| ==> col(xs[i]) != col(xs[j])
  }

  /** Some row other than the one with key `except` holds `value` in the column. */
  predicate Taken<T, K(==)>(xs: seq<T>, key: T -> nat, col: T -> K, value: K, except: Option<nat>)
  {
    exists i :: 0 <= i < |xs| && col(xs[i]) == value && (except.None? || key(xs[i]) != except.value)
  }

  /** Some row has key `k`. */
  predicate HasKey<T>(xs: seq<T>, key: T -> nat, k: nat)
  {
    exists i :: 0 <= i < |xs| && key(xs[i]) == k
  }

  /** DELETE ... WHERE key = k. */
  function Without<T(!new)>(xs: seq<T>, key: T -> nat, k: nat): (r: seq<T>)
    ensures forall x :: x in r <==> x in xs && key(x) != k
    ensures |r| <= |xs|
  {
    if xs == [] then []
    else
      var last := xs[|xs| - 1];
      assert forall x :: x in xs <==> x in xs[..|xs| - 1] || x == last;
      Without(xs[..|xs| - 1], key, k) + (if key(last) == k then [] else [last])
  }

  /** UPDATE ... WHERE key = k. */
  function Replaced<T>(xs: seq<T>, key: T -> nat, k: nat, row: T): (r: seq<T>)
    ensures |r| == |xs|
    ensures forall i :: 0 <= i < |xs| ==> r[i] == if key(xs[i]) == k then row else xs[i]
  {
    seq(|xs|, i requires 0 <= i < |xs| => if key(xs[i]) == k then row else xs[i])
  }

  /** Deleting keeps the rows' relative order: Without is a subsequence whose elements keep
      any ordering and distinctness their table had. */
  lemma {:induction false} WithoutKeys<T(!new)>(xs: seq<T>, key: T -> nat, k: nat, next: nat)
    requires KeysBelow(xs, key, next)
    ensures KeysBelow(Without(xs, key, k), key, next)
  {
    if xs != [] {
      var init := xs[..|xs| - 1];
      WithoutKeys(init, key, k, next);
      ElementsBefore(xs, key);
    }
  }

  lemma ElementsBefore<T(!new)>(xs: seq<T>, key: T -> nat)
    requires xs != [] && forall i, j :: 0 <= i < j < |xs| ==> key(xs[i]) < key(xs[j])
    ensures forall x :: x in xs[..|xs| - 1] ==> key(x) < key(xs[|xs| - 1])
  {
    forall x | x in xs[..|xs| - 1] ensures key(x) < key(xs[|xs| - 1]) {
      var i :| 0 <= i < |xs| - 1 && xs[..|xs| - 1][i] == x;
      assert xs[i] == x;
    }
  }

  lemma {:induction false} WithoutUnique<T(!new), K>(xs: seq<T>, key: T -> nat, k: nat, col: T -> K)
    requires Unique(xs, col)
    ensures Unique(Without(xs, key, k), col)
  {
    if xs != [] {
      var init := xs[..|xs| - 1];
      WithoutUnique(init, key, k, col);
      forall x | x in init ensures col(x) != col(xs[|xs| - 1]) {
        var i :| 0 <= i < |init| && init[i] == x;
        assert xs[i] == x;
      }
    }
  }

  /** Deleting a key no row has changes nothing. */
  lemma {:induction false} WithoutAbsent<T(!new)>(xs: seq<T>, key: T -> nat, k: nat)
    requires forall i :: 0 <= i < |xs| ==> key(xs[i]) != k
    ensures Without(xs, key, k) == xs
  {
    if xs != [] {
      var init, last := xs[..|xs| - 1], xs[|xs| - 1];
      assert key(last) != k;
      assert Without(xs, key, k) == Without(init, key, k) + [last];
      forall i | 0 <= i < |init| ensures key(init[i]) != k {
        assert init[i] == xs[i];
      }
      WithoutAbsent(init, key, k);
      assert xs == init + [last];
    }
  }

  /** With increasing keys, deleting an existing key removes exactly one row. */
  lemma {:induction false} WithoutPresent<T(!new)>(xs: seq<T>, key: T -> nat, k: nat, i: nat)
    requires forall a, b :: 0 <= a < b < |xs| ==> key(xs[a]) < key(xs[b])
    requires i < |xs| && key(xs[i]) == k
    ensures |Without(xs, key, k)| == |xs| - 1
  {
    var init := xs[..|xs| - 1];
    if i == |xs| - 1 {
      assert forall a :: 0 <= a < |init| ==> key(init[a]) < k by {
        forall a | 0 <= a < |init| ensures key(init[a]) < k {
          assert init[a] == xs[a];
        }
      }
      WithoutAbsent(init, key, k);
    } else {
      assert init[i] == xs[i];
      assert key(xs[|xs| - 1]) != k;
      WithoutPresent(init, key, k, i);
    }
  }

  /** INSERT with the next AUTOINCREMENT key keeps the keys increasing. */
  lemma AppendKeys<T>(xs: seq<T>, key: T -> nat, next: nat, row: T)
    requires KeysBelow(xs, key, next) && key(row) == next
    ensures KeysBelow(xs + [row], key, next + 1)
  {
  }

  /** INSERT of a value no row holds keeps a column unique. */
  lemma AppendUnique<T, K>(xs: seq<T>, key: T -> nat, col: T -> K, row: T)
    requires Unique(xs, col) && !Taken(xs, key, col, col(row), None)
    ensures Unique(xs + [row], col)
  {
  }

  /** UPDATE that keeps the key keeps the keys increasing. */
  lemma ReplacedKeys<T>(xs: seq<T>, key: T -> nat, k: nat, row: T, next: nat)
    requires KeysBelow(xs, key, next) && key(row) == k
    ensures KeysBelow(Replaced(xs, key, k, row), key, next)
  {
  }

  /** UPDATE to a value no other row holds keeps a column unique. */
  lemma ReplacedUnique<T, K>(xs: seq<T>, key: T -> nat, k: nat, row: T, col: T -> K, next: nat)
    requires KeysBelow(xs, key, next) && Unique(xs, col) && key(row) == k && !Taken(xs, key, col, col(row), Some(k))
    ensures Unique(Replaced(xs, key, k, row), col)
  {
    var r := Replaced(xs, key, k, row);
    forall i, j | 0 <= i < j < |r| ensures col(r[i]) != col(r[j]) {
      assert key(xs[i]) < key(xs[j]);
    }
  }

  /** A row that survives a DELETE can still be referenced. */
  lemma WithoutHasKey<T(!new)>(xs: seq<T>, key: T -> nat, k: nat, j: nat)
    requires HasKey(xs, key, j) && j != k
    ensures HasKey(Without(xs, key, k), key, j)
  {
    var i :| 0 <= i < |xs| && key(xs[i]) == j;
    var r := Without(xs, key, k);
    assert xs[i] in r;
    var m :| 0 <= m < |r| && r[m] == xs[i];
  }

  /** UPDATE keeps every key, so every reference still resolves. */
  lemma ReplacedHasKey<T>(xs: seq<T>, key: T -> nat, k: nat, row: T, j: nat)
    requires HasKey(xs, key, j) && key(row) == k
    ensures HasKey(Replaced(xs, key, k, row), key, j)
  {
    var i :| 0 <= i < |xs| && key(xs[i]) == j;
    assert key(Replaced(xs, key, k, row)[i]) == j;
  }

  /** INSERT keeps every key. */
  lemma AppendHasKey<T>(xs: seq<T>, key: T -> nat, row: T, j: nat)
    requires HasKey(xs, key, j)
    ensures HasKey(xs + [row], key, j)
  {
    var i :| 0 <= i < |xs| && key(xs[i]) == j;
    assert key((xs + [row])[i]) == j;
  }

  /** The first match in a table with one more row at the end. */
  lemma {:induction false} FirstWhereSnoc<T>(xs: seq<T>, y: T, p: T -> bool)
    ensures FirstWhere(xs + [y], p) == if FirstWhere(xs, p).Some? then FirstWhere(xs, p) else if p(y) then Some(y) else None
  {
    if xs == [] {
      assert [y][1..] == [];
    } else {
      assert (xs + [y])[1..] == xs[1..] + [y];
      FirstWhereSnoc(xs[1..], y, p);
    }
  }

  /** Deleting a key that no matching row has leaves the first match where it was. */
  lemma {:induction false} FirstWhereWithout<T(!new)>(xs: seq<T>, key: T -> nat, k: nat, p: T -> bool)
    requires forall i :: 0 <= i < |xs| && p(xs[i]) ==> key(xs[i]) != k
    ensures FirstWhere(Without(xs, key, k), p) == FirstWhere(xs, p)
  {
    if xs != [] {
      var init, last := xs[..|xs| - 1], xs[|xs| - 1];
      var w := Without(init, key, k);
      assert Without(xs, key, k) == w + (if key(last) == k then [] else [last]);
      forall i | 0 <= i < |init| && p(init[i]) ensures key(init[i]) != k {
        assert init[i] == xs[i];
      }
      FirstWhereWithout(init, key, k, p);
      assert xs == init + [last];
      FirstWhereSnoc(init, last, p);
      if key(last) != k {
        FirstWhereSnoc(w, last, p);
      } else {
        assert w + [] == w;
      }
    }
  }

  /** Two tables that differ only in rows neither of which matches have the same first match. */
  lemma {:induction false} FirstWhereSame<T>(xs: seq<T>, ys: seq<T>, p: T -> bool)
    requires |xs| == |ys| && forall i :: 0 <= i < |xs| && (p(xs[i]) || p(ys[i])) ==> xs[i] == ys[i]
    ensures FirstWhere(xs, p) == FirstWhere(ys, p)
  {
    if xs != [] {
      forall i | 0 <= i < |xs| - 1 && (p(xs[1..][i]) || p(ys[1..][i])) ensures xs[1..][i] == ys[1..][i] {
        assert xs[1..][i] == xs[i + 1] && ys[1..][i] == ys[i + 1];
      }
      FirstWhereSame(xs[1..], ys[1..], p);
    }
  }

  /** With unique branch names, the first branch named Store is the only Store branch. */
  lemma OnlyStore(branches: seq<Branch>, store: Branch, id: nat)
    requires Unique(branches, BranchName) && BranchNamed(branches, StoreName) == Some(store)
    requires IsStoreId(branches, id)
    ensures id == store.id
  {
    var br := BranchWithId(branches, id).value;
    var i :| 0 <= i < |branches| && branches[i] == br;
    var j :| 0 <= j < |branches| && branches[j] == store;
    assert BranchName(branches[i]) == BranchName(branches[j]);
  }

  /** Every lot's item and branch, and every branch a movement names, exists. */
  ghost predicate References(items: seq<Item>, branches: seq<Branch>, batches: seq<Batch>, transactions: seq<Transaction>)
  {
    && (forall i :: 0 <= i < |batches| ==> HasKey(items, ItemId, batches[i].itemId))
    && (forall i :: 0 <= i < |batches| ==> HasKey(branches, BranchId, batches[i].branchId))
    && (forall i :: 0 <= i < |transactions| ==>
          (transactions[i].fromBranch.Some? ==> HasKey(branches, BranchId, transactions[i].fromBranch.value))
          && (transactions[i].toBranch.Some? ==> HasKey(branches, BranchId, transactions[i].toBranch.value)))
  }

  /** What the ledger tables keep: keys are positions, every row refers to an existing lot,
      no Transfer row is ever written, quantities are positive, and a movement leaves from the
      branch that holds the lot it debits. */
  ghost predicate LedgerOk(batches: seq<Batch>, transactions: seq<Transaction>, disposals: seq<Disposal>)
  {
    && BatchIdsArePositions(batches)
    && TxnIdsArePositions(transactions)
    && DisposalIdsArePositions(disposals)
    && TxnRefsExist(transactions, |batches|)
    && DisposalRefsExist(disposals, |batches|)
    && NoTransferRows(transactions)
    && (forall i :: 0 <= i < |batches| ==> batches[i].quantity > 0)
    && (forall i :: 0 <= i < |transactions| ==> transactions[i].quantity > 0)
    && (forall i :: 0 <= i < |disposals| ==> disposals[i].quantity > 0)
    && (forall i :: 0 <= i < |transactions| ==>
          transactions[i].fromBranch == Some(batches[transactions[i].batchId - 1].branchId))
  }

  /** Empty tables are consistent, reference nothing missing, and are sound. */
  lemma EmptyTables()
    ensures LedgerOk([], [], []) && References([], [], [], []) && StockSound([], [], [], [])
  {
  }

  class AssetDatabase {
    var categories: seq<Category>
    var subCategories: seq<SubCategory>
    var branches: seq<Branch>
    var items: seq<Item>
    var batches: seq<Batch>
    var transactions: seq<Transaction>
    var disposals: seq<Disposal>
    var nextCategoryId: nat
    var nextSubCategoryId: nat
    var nextBranchId: nat
    var nextItemId: nat

    /** The ledger tables are append-only, every ledger row references an existing batch,
        quantities are positive, no Transfer row is ever posted, each transaction moves stock
        out of the branch its batch is held at, master keys are AUTOINCREMENT keys, and the
        UNIQUE columns hold. */
    ghost predicate Valid()
      reads this
    {
      && LedgerOk(batches, transactions, disposals)
      && KeysBelow(categories, CategoryId, nextCategoryId)
      && KeysBelow(subCategories, SubCategoryId, nextSubCategoryId)
      && KeysBelow(branches, BranchId, nextBranchId)
      && KeysBelow(items, ItemId, nextItemId)
      && Unique(categories, CategoryName)
      && Unique(branches, BranchName)
      && Unique(items, GovtCode)
    }

    /** Every batch is of an existing item and held at an existing branch, and every
        transaction's branches exist: what the delete guards protect. */
    ghost predicate Linked()
      reads this
    {
      References(items, branches, batches, transactions)
    }

    /** No Return row leaves the Store and no lot is overdrawn. The handlers keep this; adding
        a branch needs `Linked()` for it, and a rename keeps it only as `BranchesDialog.EditBranch`
        states. */
    ghost predicate Sound()
      reads this
    {
      StockSound(branches, batches, transactions, disposals)
    }

    twostate predicate LedgerUnchanged()
      reads this
    {
      batches == old(batches) && transactions == old(transactions) && disposals == old(disposals)
    }

    twostate predicate CategoriesUnchanged()
      reads this
    {
      categories == old(categories) && nextCategoryId == old(nextCategoryId)
    }

    twostate predicate SubCategoriesUnchanged()
      reads this
    {
      subCategories == old(subCategories) && nextSubCategoryId == old(nextSubCategoryId)
    }

    twostate predicate BranchesUnchanged()
      reads this
    {
      branches == old(branches) && nextBranchId == old(nextBranchId)
    }

    twostate predicate ItemsUnchanged()
      reads this
    {
      items == old(items) && nextItemId == old(nextItemId)
    }

    twostate predicate MastersUnchanged()
      reads this
    {
      CategoriesUnchanged() && SubCategoriesUnchanged() && BranchesUnchanged() && ItemsUnchanged()
    }

    /** A freshly created database file. */
    constructor()
      ensures Valid() && Linked() && Sound()
      ensures categories == [] && subCategories == [] && branches == [] && items == []
      ensures batches == [] && transactions == [] && disposals == []
    {
      categories, subCategories, branches, items := [], [], [], [];
      batches, transactions, disposals := [], [], [];
      nextCategoryId, nextSubCategoryId, nextBranchId, nextItemId := 1, 1, 1, 1;
      EmptyTables();
    }
  }
}
