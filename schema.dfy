/** Record shapes of the asset database: one datatype per table row, and the
    invariants that the schema's AUTOINCREMENT keys give the tables. */
module Schema {

  datatype Option<+T> = None | Some(value: T)

  /** Name of the distinguished central branch. */
  const StoreName: string := "Store"

  /** The three transaction types the ledger queries know about. */
  datatype TxnKind = Issue | Transfer | Return

  /** The text stored in `transaction_type`, and in `acquisition_method` of a derived batch. */
  function KindName(k: TxnKind): string
  {
    match k
    case Issue => "Issue"
    case Transfer => "Transfer"
    case Return => "Return"
  }

  datatype Category = Category(id: nat, name: string, remarks: string)

  datatype SubCategory = SubCategory(id: nat, categoryId: nat, name: string, remarks: string)

  datatype Branch = Branch(id: nat, name: string, address: string, remarks: string)

  datatype Item = Item(id: nat, name: string, categoryId: nat, subCategoryId: nat,
                       specification: string, govtCode: string, remarks: string)

  /** A lot. `cost` is carried along and never computed with; a NULL year is `None`. */
  datatype Batch = Batch(id: nat, itemId: nat, branchId: nat, acquisitionDate: string,
                         acqMethod: string, source: string, quantity: int, cost: Option<real>,
                         authorityRef: string, remarks: string, year: Option<string>)

  datatype Transaction = Transaction(id: nat, batchId: nat, kind: TxnKind,
                                     fromBranch: Option<nat>, toBranch: Option<nat>,
                                     date: string, quantity: int, authorityRef: string, remarks: string)

  datatype Disposal = Disposal(id: nat, batchId: nat, date: string, quantity: int,
                               disposalMethod: string, authorityRef: string, remarks: string)

  /** The ledger tables are never deleted from, so an AUTOINCREMENT key is the row's position + 1. */
  ghost predicate BatchIdsArePositions(bs: seq<Batch>)
  {
    forall i :: 0 <= i < |bs| ==> bs[i].id == i + 1
  }

  ghost predicate TxnIdsArePositions(ts: seq<Transaction>)
  {
    forall i :: 0 <= i < |ts| ==> ts[i].id == i + 1
  }

  ghost predicate DisposalIdsArePositions(ds: seq<Disposal>)
  {
    forall i :: 0 <= i < |ds| ==> ds[i].id == i + 1
  }

  /** Every transaction row debits a batch that exists. */
  ghost predicate TxnRefsExist(ts: seq<Transaction>, batchCount: nat)
  {
    forall i :: 0 <= i < |ts| ==> 1 <= ts[i].batchId <= batchCount
  }

  ghost predicate DisposalRefsExist(ds: seq<Disposal>, batchCount: nat)
  {
    forall i :: 0 <= i < |ds| ==> 1 <= ds[i].batchId <= batchCount
  }

  /** Batches listed in strictly ascending `batch_id`, i.e. in creation order. */
  ghost predicate AscendingIds(bs: seq<Batch>)
  {
    forall i, j :: 0 <= i < j < |bs| ==> bs[i].id < bs[j].id
  }

  /** The first row satisfying `p`, as `fetch_one` returns it; ids are unique, so a lookup by
      id finds the row. */
  function FirstWhere<T>(xs: seq<T>, p: T -> bool): (r: Option<T>)
    ensures r.Some? ==> r.value in xs && p(r.value)
    ensures r.None? <==> forall i :: 0 <= i < |xs| ==> !p(xs[i])
  {
    if xs == [] then None
    else if p(xs[0]) then Some(xs[0])
    else FirstWhere(xs[1..], p)
  }

  /** What `fetch_one` returns is the earliest match: the row at the first index whose row
      satisfies `p`. */
  lemma {:induction false} FirstWhereIsFirst<T>(xs: seq<T>, p: T -> bool)
    ensures var r := FirstWhere(xs, p);
            r.Some? ==> exists i :: 0 <= i < |xs| && xs[i] == r.value && forall j :: 0 <= j < i ==> !p(xs[j])
  {
    if xs != [] && !p(xs[0]) {
      FirstWhereIsFirst(xs[1..], p);
      var r := FirstWhere(xs, p);
      if r.Some? {
        var i :| 0 <= i < |xs[1..]| && xs[1..][i] == r.value && forall j :: 0 <= j < i ==> !p(xs[1..][j]);
        assert xs[i + 1] == r.value;
        forall j | 0 <= j < i + 1 ensures !p(xs[j]) {
          if j > 0 {
            assert xs[j] == xs[1..][j - 1];
          }
        }
      }
    }
  }

  function BranchNamed(branches: seq<Branch>, name: string): Option<Branch>
  {
    FirstWhere(branches, (b: Branch) => b.name == name)
  }

  function BranchWithId(branches: seq<Branch>, id: nat): Option<Branch>
  {
    FirstWhere(branches, (b: Branch) => b.id == id)
  }

  /** The branch with key `id` is, as the tables stand, the one named Store. */
  predicate IsStoreId(branches: seq<Branch>, id: nat)
  {
    var br := BranchWithId(branches, id);
    br.Some? && br.value.name == StoreName
  }

  /** The disposal dialog's lookup of an item id by name: the first item with that name. */
  function ItemNamed(items: seq<Item>, name: string): Option<Item>
  {
    FirstWhere(items, (i: Item) => i.name == name)
  }

  function ItemWithId(items: seq<Item>, id: nat): Option<Item>
  {
    FirstWhere(items, (i: Item) => i.id == id)
  }

  function CategoryWithId(categories: seq<Category>, id: nat): Option<Category>
  {
    FirstWhere(categories, (c: Category) => c.id == id)
  }

  function SubCategoryWithId(subs: seq<SubCategory>, id: nat): Option<SubCategory>
  {
    FirstWhere(subs, (s: SubCategory) => s.id == id)
  }

  function BatchWithId(batches: seq<Batch>, id: nat): Option<Batch>
  {
    FirstWhere(batches, (b: Batch) => b.id == id)
  }
}
