/**
 The run history of backend/src/msai/api/backtests.py: one view over two tables. The combined view
 fetches a prefix of each table, merges the two in memory and cuts one page out of the result.
 */
module History {
  import opened Ordering
  import opened Paging
  import opened Sequences
  import opened Wrappers

  datatype Kind = Single | Portfolio

  datatype Row = Row(id: nat, created: int, smoke: bool)

  datatype Item = Item(id: nat, kind: Kind, created: int, smoke: bool)

  datatype View = SingleOnly | PortfolioOnly | All

  /** The two tables; where creation times tie, rows are listed in this order. */
  datatype Tables = Tables(backtests: seq<Row>, portfolioRuns: seq<Row>)

  datatype Filter = Filter(includeSmoke: bool, smokeOnly: bool)

  predicate Shown(r: Row, f: Filter) { if f.smokeOnly then r.smoke else f.includeSmoke || !r.smoke }

  function Visible(rows: seq<Row>, f: Filter): seq<Row> {
    if rows == [] then [] else (if Shown(rows[0], f) then [rows[0]] else []) + Visible(rows[1..], f)
  }

  /** `ORDER BY created_at DESC`. */
  predicate NewestFirst(a: Row, b: Row) { a.created >= b.created }

  function Select(rows: seq<Row>, f: Filter): seq<Row> { Sort(NewestFirst, Visible(rows, f)) }

  function Items(rows: seq<Row>, kind: Kind): seq<Item> {
    seq(|rows|, i requires 0 <= i < |rows| => Item(rows[i].id, kind, rows[i].created, rows[i].smoke))
  }

  /** The names of the kinds, which order rows of one creation time. */
  function Rank(kind: Kind): nat { match kind case Portfolio => 0 case Single => 1 }

  /** Descending by (creation time, kind). */
  predicate Unified(a: Item, b: Item) {
    a.created > b.created || (a.created == b.created && Rank(a.kind) >= Rank(b.kind))
  }

  /** Both full lists sorted together. */
  function History(db: Tables, view: View, f: Filter): seq<Item> {
    match view
    case SingleOnly => Items(Select(db.backtests, f), Single)
    case PortfolioOnly => Items(Select(db.portfolioRuns, f), Portfolio)
    case All => Sort(Unified, Items(Select(db.backtests, f), Single) + Items(Select(db.portfolioRuns, f), Portfolio))
  }

  const MAX_PAGE := 100
  const MAX_PAGE_SIZE := 100

  datatype HistoryPage = HistoryPage(items: seq<Item>, total: nat)

  /** One page of the history and the number of rows in it. Pages and sizes out of range fail validation. */
  method ListBacktests(db: Tables, view: View, f: Filter, page: int, size: int) returns (r: Result<HistoryPage>)
    ensures r.Success? <==> 1 <= page <= 100 && 1 <= size <= 100
    ensures r.Success? ==> r.value == HistoryPage(PageOf(History(db, view, f), page, size), |History(db, view, f)|)
  {
    hide *;
    Limits();
    if page < 1 || page > MAX_PAGE || size < 1 || size > MAX_PAGE_SIZE { return Refused("validation failed"); }
    var items, total: nat := [], 0;
    var offset := (page - 1) * size;
    if view == SingleOnly || view == All {
      var rows := Select(db.backtests, f);
      if view == SingleOnly {
        total := |Visible(db.backtests, f)|;
        rows := Take(Drop(rows, offset), size);
      } else {
        rows := Take(rows, page * size);
      }
      items := items + Items(rows, Single);
    }
    if view == PortfolioOnly || view == All {
      var rows := Select(db.portfolioRuns, f);
      if view == PortfolioOnly {
        total := |Visible(db.portfolioRuns, f)|;
        rows := Take(Drop(rows, offset), size);
      } else {
        rows := Take(rows, page * size);
      }
      items := items + Items(rows, Portfolio);
    }
    if view == All {
      items := Sort(Unified, items);
      total := |Visible(db.backtests, f)| + |Visible(db.portfolioRuns, f)|;
      items := Take(Drop(items, offset), size);
    }
    OneTablePage(db, view, f, page, size);
    MergedPage(db, f, page, size);
    HistoryLength(db, view, f);
    r := Success(HistoryPage(items, total));
  }

  lemma Limits()
    ensures MAX_PAGE == 100 && MAX_PAGE_SIZE == 100
  {
  }

  // ---- A view of one table

  lemma ItemsOfPage(rows: seq<Row>, kind: Kind, start: nat, size: nat)
    ensures Items(Take(Drop(rows, start), size), kind) == Take(Drop(Items(rows, kind), start), size)
  {
  }

  lemma OneTablePage(db: Tables, view: View, f: Filter, page: nat, size: nat)
    requires page > 0
    ensures view == SingleOnly ==>
              [] + Items(Take(Drop(Select(db.backtests, f), (page - 1) * size), size), Single)
                == PageOf(History(db, view, f), page, size)
    ensures view == PortfolioOnly ==>
              [] + Items(Take(Drop(Select(db.portfolioRuns, f), (page - 1) * size), size), Portfolio)
                == PageOf(History(db, view, f), page, size)
  {
    hide Select;
    hide Items;
    hide Take;
    hide Drop;
    ItemsOfPage(Select(db.backtests, f), Single, (page - 1) * size, size);
    ItemsOfPage(Select(db.portfolioRuns, f), Portfolio, (page - 1) * size, size);
    var a := Items(Take(Drop(Select(db.backtests, f), (page - 1) * size), size), Single);
    var b := Items(Take(Drop(Select(db.portfolioRuns, f), (page - 1) * size), size), Portfolio);
    assert [] + a == a && [] + b == b;
  }

  lemma SelectLength(rows: seq<Row>, f: Filter)
    ensures |Select(rows, f)| == |Visible(rows, f)|
  {
    SortPermutes(NewestFirst, Visible(rows, f));
    assert |multiset(Select(rows, f))| == |Select(rows, f)|;
  }

  lemma HistoryLength(db: Tables, view: View, f: Filter)
    ensures |History(db, view, f)| == match view
            case SingleOnly => |Visible(db.backtests, f)|
            case PortfolioOnly => |Visible(db.portfolioRuns, f)|
            case All => |Visible(db.backtests, f)| + |Visible(db.portfolioRuns, f)|
  {
    SelectLength(db.backtests, f);
    SelectLength(db.portfolioRuns, f);
    var both := Items(Select(db.backtests, f), Single) + Items(Select(db.portfolioRuns, f), Portfolio);
    SortPermutes(Unified, both);
    assert |multiset(Sort(Unified, both))| == |Sort(Unified, both)|;
  }

  // ---- Merging prefixes

  /** The merge of two sorted lists, the first one going ahead on ties. */
  function Merge(a: seq<Item>, b: seq<Item>): seq<Item>
    decreases |a| + |b|
  {
    if a == [] then b
    else if b == [] then a
    else if Unified(a[0], b[0]) then [a[0]] + Merge(a[1..], b)
    else [b[0]] + Merge(a, b[1..])
  }

  lemma {:induction false} MergeTakes(a: seq<Item>, b: seq<Item>, n: nat)
    ensures Take(Merge(Take(a, n), Take(b, n)), n) == Take(Merge(a, b), n)
    decreases |a| + |b| + n, 0
  {
    hide Unified;
    hide Take;
    hide Merge;
    var s, u := Take(a, n), Take(b, n);
    TakeNone(Merge(a, b));
    TakeNone(Merge(s, u));
    if n > 0 {
      if a == [] || b == [] {
        MergeEmpty(a, b);
        TakeTwice(a, n);
        TakeTwice(b, n);
        MergeEmpty(s, u);
      } else {
        TakeHead(a, n);
        TakeHead(b, n);
        MergeHead(a, b);
        MergeHead(s, u);
        TakeHead(Merge(a, b), n);
        TakeHead(Merge(s, u), n);
        if Unified(a[0], b[0]) { MergeShorter(a[1..], b, n - 1, n); } else { MergeShorter(a, b[1..], n, n - 1); }
      }
    }
  }

  lemma TakeNone(a: seq<Item>)
    ensures Take(a, 0) == []
  {
  }

  lemma MergeEmpty(a: seq<Item>, b: seq<Item>)
    requires a == [] || b == []
    ensures Merge(a, b) == if a == [] then b else a
  {
  }

  lemma MergeHead(a: seq<Item>, b: seq<Item>)
    requires a != [] && b != []
    ensures Merge(a, b) != [] && Merge(a, b)[0] == (if Unified(a[0], b[0]) then a[0] else b[0])
    ensures Merge(a, b)[1..] == if Unified(a[0], b[0]) then Merge(a[1..], b) else Merge(a, b[1..])
  {
  }

  lemma TakeTwice(a: seq<Item>, n: nat)
    ensures Take(Take(a, n), n) == Take(a, n)
    ensures a == [] ==> Take(a, n) == []
  {
  }

  lemma TakeHead(a: seq<Item>, n: nat)
    requires n > 0 && a != []
    ensures Take(a, n) != [] && Take(a, n)[0] == a[0] && Take(a, n)[1..] == Take(a[1..], n - 1)
    ensures Take(a, n) == [a[0]] + Take(a[1..], n - 1)
  {
  }

  /** Elements beyond the first `m` of either list do not reach the first `m` of the merge. */
  lemma {:induction false} MergeShorter(a: seq<Item>, b: seq<Item>, k: nat, l: nat)
    requires k != l && k <= l + 1 && l <= k + 1
    ensures var m := if k < l then k else l; Take(Merge(Take(a, k), Take(b, l)), m) == Take(Merge(a, b), m)
    decreases |a| + |b| + if k < l then k else l, 1
  {
    var m := if k < l then k else l;
    MergeTakes(a, b, m);
    TakeShrinks(a, k);
    TakeShrinks(b, l);
    MergeTakes(Take(a, k), Take(b, l), m);
    assert Take(Take(a, k), m) == Take(a, m) && Take(Take(b, l), m) == Take(b, m);
  }

  lemma TakeShrinks(a: seq<Item>, n: nat)
    ensures |Take(a, n)| <= |a|
  {
  }

  /** Inserting ahead of its equals what belongs before all of `a`. */
  lemma {:induction false} InsertMerges(x: Item, a: seq<Item>, b: seq<Item>)
    requires a == [] || Unified(x, a[0])
    ensures Insert(Unified, x, Merge(a, b)) == Merge([x] + a, b)
    decreases |b|
  {
    assert ([x] + a)[1..] == a;
    if b == [] {
    } else if Unified(x, b[0]) {
    } else {
      InsertMerges(x, a, b[1..]);
    }
  }

  lemma {:induction false} SortSorted(s: seq<Item>)
    requires Sorted(Unified, s)
    ensures Sort(Unified, s) == s
  {
    if s != [] {
      SortSorted(s[1..]);
      if |s| > 1 { assert Unified(s[0], s[1]); }
    }
  }

  /** The stable sort of two sorted lists is their merge. */
  lemma {:induction false} SortMerges(a: seq<Item>, b: seq<Item>)
    requires Sorted(Unified, a) && Sorted(Unified, b)
    ensures Sort(Unified, a + b) == Merge(a, b)
  {
    if a == [] {
      assert a + b == b;
      SortSorted(b);
    } else {
      SortMerges(a[1..], b);
      assert (a + b)[1..] == a[1..] + b;
      if |a| > 1 { assert Unified(a[0], a[1]); }
      InsertMerges(a[0], a[1..], b);
      assert [a[0]] + a[1..] == a;
    }
  }

  lemma ItemsSorted(rows: seq<Row>, kind: Kind, n: nat)
    requires Sorted(NewestFirst, rows)
    ensures Sorted(Unified, Items(rows, kind)) && Sorted(Unified, Items(Take(rows, n), kind))
    ensures Items(Take(rows, n), kind) == Take(Items(rows, kind), n)
  {
    forall i, j | 0 <= i < j < |rows| ensures Unified(Items(rows, kind)[i], Items(rows, kind)[j]) {
      assert NewestFirst(rows[i], rows[j]);
    }
  }

  lemma NewestFirstOrder()
    ensures TotalPreorder(NewestFirst)
  {
  }

  lemma UnifiedOrder()
    ensures TotalPreorder(Unified)
  {
  }

  /** Cutting a page out of the two merged prefixes, or out of the two full lists sorted together. */
  lemma MergedPage(db: Tables, f: Filter, page: nat, size: nat)
    requires page > 0
    ensures var a, b := Select(db.backtests, f), Select(db.portfolioRuns, f);
            Take(Drop(Sort(Unified, [] + Items(Take(a, page * size), Single) + Items(Take(b, page * size), Portfolio)),
                      (page - 1) * size), size)
            == PageOf(History(db, All, f), page, size)
  {
    hide Select;
    hide Sort;
    hide Items;
    hide Unified;
    hide Merge;
    hide Sorted;
    var rows, runs, n := Select(db.backtests, f), Select(db.portfolioRuns, f), page * size;
    SelectSorted(db.backtests, f);
    SelectSorted(db.portfolioRuns, f);
    ItemsSorted(rows, Single, n);
    ItemsSorted(runs, Portfolio, n);
    var a, b := Items(rows, Single), Items(runs, Portfolio);
    assert [] + Take(a, n) == Take(a, n);
    SortMerges(a, b);
    SortMerges(Take(a, n), Take(b, n));
    MergeTakes(a, b, n);
    assert n == (page - 1) * size + size;
    PageOfPrefix(Merge(Take(a, n), Take(b, n)), Merge(a, b), (page - 1) * size, size);
  }

  lemma SelectSorted(rows: seq<Row>, f: Filter)
    ensures Sorted(NewestFirst, Select(rows, f))
  {
    NewestFirstOrder();
    SortSorts(NewestFirst, Visible(rows, f));
  }

  lemma PageOfPrefix(s: seq<Item>, t: seq<Item>, start: nat, size: nat)
    requires Take(s, start + size) == Take(t, start + size)
    ensures Take(Drop(s, start), size) == Take(Drop(t, start), size)
  {
    assert Take(Drop(s, start), size) == Drop(Take(s, start + size), start);
    assert Take(Drop(t, start), size) == Drop(Take(t, start + size), start);
  }

  // ---- What the history is

  /** Smoke runs only if they alone were asked for; without smoke runs unless they were asked to be included. */
  ghost predicate FilteredOut(smoke: bool, f: Filter) {
    (f.smokeOnly && !smoke) || (!f.smokeOnly && !f.includeSmoke && smoke)
  }

  lemma {:induction false} VisibleCounts(rows: seq<Row>, f: Filter, r: Row)
    ensures multiset(Visible(rows, f))[r] == if FilteredOut(r.smoke, f) then 0 else multiset(rows)[r]
  {
    if rows != [] {
      VisibleCounts(rows[1..], f, r);
      assert rows == [rows[0]] + rows[1..];
    }
  }

  lemma {:induction false} ItemsCount(rows: seq<Row>, kind: Kind, x: Item)
    ensures multiset(Items(rows, kind))[x]
            == if x.kind == kind then multiset(rows)[Row(x.id, x.created, x.smoke)] else 0
  {
    if rows != [] {
      ItemsCount(rows[1..], kind, x);
      assert rows == [rows[0]] + rows[1..];
      assert Items(rows, kind) == [Item(rows[0].id, kind, rows[0].created, rows[0].smoke)] + Items(rows[1..], kind);
    }
  }

  /**
   The combined history lists every row of either table that the filter shows, exactly as often as its
   table does, newest first, and backtests before portfolio runs of the same time.
   */
  lemma HistoryExact(db: Tables, f: Filter, x: Item)
    ensures var r, h := Row(x.id, x.created, x.smoke), History(db, All, f);
            multiset(h)[x] == (if FilteredOut(x.smoke, f) then 0
                               else if x.kind == Single then multiset(db.backtests)[r]
                               else multiset(db.portfolioRuns)[r])
    ensures var h := History(db, All, f);
            forall i, j :: 0 <= i < j < |h| ==>
              h[i].created > h[j].created
                || (h[i].created == h[j].created && !(h[i].kind == Portfolio && h[j].kind == Single))
  {
    var r := Row(x.id, x.created, x.smoke);
    var a, b := Items(Select(db.backtests, f), Single), Items(Select(db.portfolioRuns, f), Portfolio);
    SelectCounts(db.backtests, f, Single, x);
    SelectCounts(db.portfolioRuns, f, Portfolio, x);
    SortPermutes(Unified, a + b);
    assert multiset(a + b) == multiset(a) + multiset(b);
    UnifiedOrder();
    SortSorts(Unified, a + b);
    forall i, j | 0 <= i < j < |History(db, All, f)| ensures Unified(History(db, All, f)[i], History(db, All, f)[j]) {
    }
  }

  /** A view of one table lists the rows of that table that the filter shows, newest first. */
  lemma OneTableExact(db: Tables, view: View, f: Filter, x: Item)
    requires view == SingleOnly || view == PortfolioOnly
    ensures var r, h := Row(x.id, x.created, x.smoke), History(db, view, f);
            multiset(h)[x] == (if FilteredOut(x.smoke, f) then 0
                               else if view == SingleOnly && x.kind == Single then multiset(db.backtests)[r]
                               else if view == PortfolioOnly && x.kind == Portfolio then multiset(db.portfolioRuns)[r]
                               else 0)
    ensures var h := History(db, view, f); forall i, j :: 0 <= i < j < |h| ==> h[i].created >= h[j].created
  {
    SelectCounts(db.backtests, f, Single, x);
    SelectCounts(db.portfolioRuns, f, Portfolio, x);
    SelectSorted(db.backtests, f);
    SelectSorted(db.portfolioRuns, f);
    hide Select;
    forall i, j | 0 <= i < j < |History(db, view, f)|
      ensures History(db, view, f)[i].created >= History(db, view, f)[j].created
    {
      var rows := if view == SingleOnly then Select(db.backtests, f) else Select(db.portfolioRuns, f);
      assert NewestFirst(rows[i], rows[j]);
    }
  }

  lemma SelectCounts(rows: seq<Row>, f: Filter, kind: Kind, x: Item)
    ensures var r := Row(x.id, x.created, x.smoke);
            multiset(Items(Select(rows, f), kind))[x]
            == if x.kind != kind || FilteredOut(x.smoke, f) then 0 else multiset(rows)[r]
  {
    hide Items;
    var r := Row(x.id, x.created, x.smoke);
    SortPermutes(NewestFirst, Visible(rows, f));
    VisibleCounts(rows, f, r);
    ItemsCount(Select(rows, f), kind, x);
  }

  /** If a page is not full, the pages up to it are the whole history, every row once and in order. */
  lemma PagesCover(db: Tables, view: View, f: Filter, page: nat, size: nat)
    requires page > 0 && |PageOf(History(db, view, f), page, size)| < size
    ensures Pages(History(db, view, f), page, size) == History(db, view, f)
  {
    LastPage(History(db, view, f), page, size);
  }

  /**
   All pages that the endpoint serves, in any view, are the whole history exactly if it has at most 100 times
   the page size rows. The rest of a longer history cannot be reached.
   */
  lemma PagesCoverExactly(db: Tables, view: View, f: Filter, size: nat)
    requires size <= 100
    ensures var h := History(db, view, f);
            && Pages(h, 100, size) == Take(h, 100 * size)
            && (Pages(h, 100, size) == h <==> |h| <= 100 * size)
  {
    hide History;
    PagesConcatenate(History(db, view, f), 100, size);
  }
}
