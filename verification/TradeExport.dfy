/**
 Exporting all fills of a backtest: the paged endpoint of backend/src/msai/api/backtests.py and the
 `--all` loop of backend/src/msai/cli.py that calls it. Between two calls the backtest may be deleted,
 and its trades and accounting may change; a call may also fail.
 */
module TradeExport {
  import opened Wrappers
  import opened Ordering
  import opened Paging
  import opened Sequences

  datatype Trade = Trade(id: int, executedAt: int, pnl: Option<real>, commission: Option<real>)

  datatype Item = Item(id: int, executedAt: int, pnl: Option<real>, commission: Option<real>)

  /** A backtest as one call finds it; `accounting` is absent for order-derived records. */
  datatype Backtest = Backtest(trades: seq<Trade>, accounting: Option<string>)

  datatype TradePage = TradePage(items: seq<Item>, accounting: Option<string>, total: nat, page: nat, pageSize: nat)

  const MAX_TRADE_PAGE_SIZE := 500

  /** The page size that is served; a request below 1 is not. */
  function Effective(size: int): nat {
    if size < 1 then 0 else if size < MAX_TRADE_PAGE_SIZE then size else MAX_TRADE_PAGE_SIZE
  }

  /** `ORDER BY executed_at ASC, id ASC`. */
  predicate Earlier(a: Trade, b: Trade) {
    a.executedAt < b.executedAt || (a.executedAt == b.executedAt && a.id <= b.id)
  }

  /** Economics are shown only for certified fills. */
  function Shown(t: Trade, accounting: Option<string>): Item {
    Item(t.id, t.executedAt, if accounting.Some? then t.pnl else None, if accounting.Some? then t.commission else None)
  }

  function ShownAll(trades: seq<Trade>, accounting: Option<string>): seq<Item> {
    seq(|trades|, i requires 0 <= i < |trades| => Shown(trades[i], accounting))
  }

  /** The backtest's whole list. */
  function Listing(b: Backtest): seq<Item> { ShownAll(Sort(Earlier, b.trades), b.accounting) }

  /** All trades, by time and then id. */
  ghost predicate Arranged(order: seq<Trade>, trades: seq<Trade>) {
    && multiset(order) == multiset(trades)
    && forall i, j :: 0 <= i < j < |order| ==>
         order[i].executedAt < order[j].executedAt
         || (order[i].executedAt == order[j].executedAt && order[i].id <= order[j].id)
  }

  /** The columns shown of a trade; a backtest without accounting shows neither profit nor commission. */
  ghost predicate Columns(item: Item, t: Trade, accounting: Option<string>) {
    && item.id == t.id && item.executedAt == t.executedAt
    && (accounting == None ==> item.pnl == None && item.commission == None)
    && (accounting != None ==> item.pnl == t.pnl && item.commission == t.commission)
  }

  /** The items are the trades of the backtest in their order, from position `start` on and at most `limit` of them. */
  ghost predicate Lists(items: seq<Item>, b: Backtest, start: nat, limit: nat) {
    exists order: seq<Trade> :: Arranged(order, b.trades) && ListsFrom(items, order, b.accounting, start, limit)
  }

  ghost predicate ListsFrom(items: seq<Item>, order: seq<Trade>, accounting: Option<string>, start: nat, limit: nat) {
    && |items| == (if start >= |order| then 0 else if start + limit <= |order| then limit else |order| - start)
    && forall k :: 0 <= k < |items| ==> Columns(items[k], order[start + k], accounting)
  }

  /** The items are page `page` of the backtest's trades, `size` to a page. */
  ghost predicate ListsPage(items: seq<Item>, b: Backtest, page: int, size: int) {
    exists start: nat, limit: nat :: start == (page - 1) * size && limit == size && Lists(items, b, start, limit)
  }

  lemma PageLists(b: Backtest, page: nat, size: nat)
    requires page > 0
    ensures Lists(PageOf(Listing(b), page, size), b, (page - 1) * size, size)
  {
    SortArranged(b.trades);
    var order, start := Sort(Earlier, b.trades), (page - 1) * size;
    hide Sort;
    hide Arranged;
    assert ListsFrom(Take(Drop(ShownAll(order, b.accounting), start), size), order, b.accounting, start, size);
  }

  lemma SortArranged(trades: seq<Trade>)
    ensures Arranged(Sort(Earlier, trades), trades)
  {
    SortPermutes(Earlier, trades);
    EarlierOrder();
    SortSorts(Earlier, trades);
    hide Sort;
  }

  lemma EffectiveExact(size: int)
    ensures size >= 1 ==> Effective(size) == if size <= 500 then size else 500
  {
  }

  /** What the query of a page brings up. */
  lemma ServedPage(b: Backtest, page: nat, size: nat)
    requires page > 0 && size > 0
    ensures Effective(size) == if size <= 500 then size else 500
    ensures var rows := ListedRows(b, page, Effective(size));
            && ShownAll(rows, b.accounting) == PageOf(Listing(b), page, Effective(size))
            && ListsPage(ShownAll(rows, b.accounting), b, page, Effective(size))
  {
    hide *;
    EffectiveExact(size);
    var n := Effective(size);
    ListedShown(b, page, n);
    PageLists(b, page, n);
    PageListed(PageOf(Listing(b), page, n), b, page, n, (page - 1) * n);
  }

  lemma PageListed(items: seq<Item>, b: Backtest, page: nat, size: nat, start: nat)
    requires start == (page - 1) * size && Lists(items, b, start, size)
    ensures ListsPage(items, b, page, size)
  {
    hide Lists;
  }

  function ListedRows(b: Backtest, page: nat, size: nat): seq<Trade>
    requires page > 0
  {
    Take(Drop(Sort(Earlier, b.trades), (page - 1) * size), size)
  }

  lemma ListedShown(b: Backtest, page: nat, size: nat)
    requires page > 0
    ensures ShownAll(ListedRows(b, page, size), b.accounting) == PageOf(Listing(b), page, size)
  {
    hide Sort;
    hide ShownAll;
    hide Take;
    hide Drop;
    ShownPage(Sort(Earlier, b.trades), b.accounting, (page - 1) * size, size);
  }

  /** One call of the endpoint; parameters below 1 fail validation. */
  method GetTrades(b: Option<Backtest>, page: int, size: int) returns (r: Result<TradePage>)
    ensures r.Success? <==> b.Some? && page >= 1 && size >= 1
    ensures r.Success? ==>
              && r.value.items == PageOf(Listing(b.value), page, Effective(size)) && r.value.total == |b.value.trades|
              && r.value.accounting == b.value.accounting && r.value.page == page
    ensures r.Success? ==>
              && r.value.pageSize == (if size <= 500 then size else 500)
              && ListsPage(r.value.items, b.value, page, r.value.pageSize)
  {
    hide *;
    if page < 1 || size < 1 { return Refused("validation failed"); }
    var effective := Effective(size);
    if b.None? { return Refused("NOT_FOUND"); }
    ServedPage(b.value, page, size);
    var rows := ListedRows(b.value, page, effective);
    r := Success(TradePage(ShownAll(rows, b.value.accounting), b.value.accounting, |b.value.trades|, page, effective));
  }

  lemma ShownPage(trades: seq<Trade>, accounting: Option<string>, start: nat, size: nat)
    ensures ShownAll(Take(Drop(trades, start), size), accounting)
            == Take(Drop(ShownAll(trades, accounting), start), size)
  {
  }

  datatype Export = Export(items: seq<Item>, total: nat, pages: nat, accounting: Option<string>)

  /** What the call for page k meets. */
  datatype World = World(backtest: nat -> Option<Backtest>, answered: nat -> bool)

  /** The pages fetched so far, as the server had them at the time. */
  function Fetched(world: World, pages: nat, size: int): seq<Item>
    requires forall k :: 1 <= k <= pages ==> world.backtest(k).Some?
  {
    if pages == 0 then []
    else Fetched(world, pages - 1, size) + PageOf(Listing(world.backtest(pages).value), pages, Effective(size))
  }

  /** The calls for pages 1 to `pages` were answered, under one accounting. */
  ghost predicate Read(world: World, pages: nat, accounting: Option<string>) {
    forall k :: 1 <= k <= pages ==>
      world.answered(k) && world.backtest(k).Some? && world.backtest(k).value.accounting == accounting
  }

  /** Every call is answered and meets the same backtest. */
  ghost predicate Static(world: World, b: Backtest) {
    forall k: nat :: world.answered(k) && world.backtest(k) == Some(b)
  }

  /** How many pages the loop reads: n / size + 1. */
  function PagesRead(n: nat, size: nat): nat
    requires size >= 1
  {
    n / size + 1
  }

  /** The export of an undisturbed backtest. */
  function Whole(b: Backtest, size: int): Export
    requires size >= 1
  {
    Export(Listing(b), |b.trades|, PagesRead(|b.trades|, Effective(size)), b.accounting)
  }

  /** All trades of the backtest, from n / min(size, 500) + 1 pages. */
  ghost predicate ExportsAll(e: Export, b: Backtest, size: int) {
    && size >= 1 && Lists(e.items, b, 0, |b.trades|) && e.total == |b.trades| && e.accounting == b.accounting
    && e.pages == |b.trades| / (if size <= 500 then size else 500) + 1
  }

  lemma WholeExact(b: Backtest, size: int)
    requires size >= 1
    ensures ExportsAll(Whole(b, size), b, size)
  {
    hide Listing;
    hide Lists;
    ListingLength(b);
    PageLists(b, 1, |b.trades|);
    assert PageOf(Listing(b), 1, |b.trades|) == Listing(b);
    assert (1 - 1) * |b.trades| == 0;
  }

  /**
   The `--all` loop. `bound` limits how many trades the backtest ever has, so that the loop ends also
   while trades are being added. An export holds the pages that were read, all under one accounting, up
   to the first page that was not full; an undisturbed export lists all trades.
   */
  method ExportAll(world: World, size: int, ghost bound: nat) returns (r: Result<Export>)
    requires forall k: nat :: world.backtest(k).Some? ==> |world.backtest(k).value.trades| <= bound
    ensures size < 1 ==> r.Refused?
    ensures r.Success? ==>
              && Read(world, r.value.pages, r.value.accounting) && r.value.pages >= 1
              && r.value.items == Fetched(world, r.value.pages, size)
              && r.value.total == |world.backtest(1).value.trades|
              && |PageOf(Listing(world.backtest(r.value.pages).value), r.value.pages, Effective(size))|
                 < (if size <= 500 then size else 500)
    ensures size >= 1 ==> forall b :: Static(world, b) ==> r.Success? && ExportsAll(r.value, b, size)
  {
    hide Lists;
    hide ExportsAll;
    EffectiveExact(size);
    hide Listing;
    hide Fetched;
    hide PageOf;
    hide Effective;
    hide Reaches;
    hide Whole;
    hide ShownAll;
    var items, page, total, accounting := [], 1, None, None;
    NothingFetched(world, size);
    while true
      invariant page >= 1 && Read(world, page - 1, accounting)
      invariant items == Fetched(world, page - 1, size)
      invariant page > 1 ==> size >= 1
      invariant page > 1 ==> Reaches(world, page - 1, size) && (page - 1) * Effective(size) <= bound
      invariant if page == 1 then total == None else total == Some(|world.backtest(1).value.trades|)
      decreases bound - (page - 1) * Effective(size)
    {
      if !world.answered(page) { return Refused("request failed"); }
      var response := GetTrades(world.backtest(page), page, size);
      if response.Refused? { return Refused(response.reason); }
      if page == 1 {
        accounting := response.value.accounting;
      } else if response.value.accounting != accounting {
        return Refused("accounting metadata changed between pages; retry the export");
      }
      items := items + response.value.items;
      if total.None? { total := Some(response.value.total); }
      FetchedNext(world, page, size);
      if |response.value.items| < response.value.pageSize {
        r := Success(Export(items, total.value, page, accounting));
        forall b | Static(world, b)
          ensures ExportsAll(r.value, b, size)
        {
          StaticExport(world, b, page, size);
          WholeExact(b, size);
        }
        return;
      }
      PageFull(world, page, size);
      page := page + 1;
    }
  }

  /** The list reached the end of this page when the page was read. */
  predicate Reaches(world: World, page: nat, size: int) {
    world.backtest(page).Some? && page * Effective(size) <= |world.backtest(page).value.trades|
  }

  lemma PageFull(world: World, page: nat, size: int)
    requires page >= 1 && size >= 1 && world.backtest(page).Some?
    requires |PageOf(Listing(world.backtest(page).value), page, Effective(size))| >= Effective(size)
    ensures Reaches(world, page, size) && Effective(size) >= 1
    ensures page * Effective(size) <= |world.backtest(page).value.trades|
    ensures page * Effective(size) == (page - 1) * Effective(size) + Effective(size)
  {
    hide PageOf;
    hide Listing;
    ListingLength(world.backtest(page).value);
    PageLength(Listing(world.backtest(page).value), page, Effective(size));
    assert page * Effective(size) == (page - 1) * Effective(size) + Effective(size);
  }

  lemma StaticExport(world: World, b: Backtest, page: nat, size: int)
    requires Static(world, b) && page >= 1 && size >= 1
    requires page > 1 ==> Reaches(world, page - 1, size)
    requires |PageOf(Listing(b), page, Effective(size))| < Effective(size)
    ensures Export(Fetched(world, page, size), |b.trades|, page, b.accounting) == Whole(b, size)
  {
    hide PageOf;
    hide Listing;
    hide Fetched;
    FetchedStatic(world, b, page, size);
    LastPage(Listing(b), page, Effective(size));
    ListingLength(b);
    PageLength(Listing(b), page, Effective(size));
    assert page == 1 ==> (page - 1) * Effective(size) == 0;
    assert world.backtest(page - 1) == Some(b);
    PageNumber(|b.trades|, page, Effective(size));
  }

  lemma NothingFetched(world: World, size: int)
    ensures Fetched(world, 0, size) == []
  {
  }

  lemma FetchedNext(world: World, page: nat, size: int)
    requires page >= 1 && forall k :: 1 <= k <= page ==> world.backtest(k).Some?
    ensures Fetched(world, page, size)
            == Fetched(world, page - 1, size) + PageOf(Listing(world.backtest(page).value), page, Effective(size))
  {
  }

  lemma ListingLength(b: Backtest)
    ensures |Listing(b)| == |b.trades|
  {
    SortPermutes(Earlier, b.trades);
    assert |multiset(Sort(Earlier, b.trades))| == |b.trades|;
  }

  lemma {:induction false} FetchedStatic(world: World, b: Backtest, pages: nat, size: int)
    requires Static(world, b)
    ensures Fetched(world, pages, size) == Pages(Listing(b), pages, Effective(size))
  {
    hide Listing;
    hide PageOf;
    if pages > 0 { FetchedStatic(world, b, pages - 1, size); }
  }

  lemma PageNumber(n: nat, page: nat, size: nat)
    requires page >= 1 && size >= 1 && (page - 1) * size <= n < page * size
    ensures page == PagesRead(n, size)
  {
    assert page * size == (page - 1) * size + size;
    var rest := n - (page - 1) * size;
    assert n == (page - 1) * size + rest && 0 <= rest < size;
    assert n / size == page - 1 by { DivideExact(page - 1, size, rest); }
  }

  lemma DivideExact(q: nat, d: nat, r: nat)
    requires r < d
    ensures (q * d + r) / d == q
  {
    var x := (q * d + r) / d;
    assert x * d <= q * d + r < x * d + d;
    MulOrder(x + 1, q, d);
    MulOrder(q + 1, x, d);
  }

  lemma MulOrder(a: nat, b: nat, d: nat)
    ensures a <= b ==> a * d <= b * d
    ensures (a - 1) * d == a * d - d
  {
    if a <= b { assert b * d == a * d + (b - a) * d; }
  }

  /** The list holds every trade exactly once, by time and then id. */
  lemma ListingExact(b: Backtest)
    ensures Lists(Listing(b), b, 0, |b.trades|)
    ensures var l := Listing(b);
            (forall i, j :: 0 <= i < j < |b.trades| ==> b.trades[i].id != b.trades[j].id)
            ==> forall i, j :: 0 <= i < j < |l| ==> l[i].id != l[j].id
  {
    WholeExact(b, 1);
    var order := Sort(Earlier, b.trades);
    SortPermutes(Earlier, b.trades);
    hide Sort;
    hide Lists;
    if forall i, j :: 0 <= i < j < |b.trades| ==> b.trades[i].id != b.trades[j].id {
      DistinctIds(b.trades, order);
    }
  }

  lemma EarlierOrder()
    ensures TotalPreorder(Earlier)
  {
  }

  lemma {:induction false} DistinctIds(a: seq<Trade>, b: seq<Trade>)
    requires multiset(a) == multiset(b)
    requires forall i, j :: 0 <= i < j < |a| ==> a[i].id != a[j].id
    ensures forall i, j :: 0 <= i < j < |b| ==> b[i].id != b[j].id
  {
    forall i, j | 0 <= i < j < |b| ensures b[i].id != b[j].id {
      assert b == b[..j] + [b[j]] + b[j + 1..];
      assert b[i] in multiset(b[..j]);
      assert b[i] in multiset(a) && b[j] in multiset(a);
      var k :| 0 <= k < |a| && a[k] == b[i];
      var l :| 0 <= l < |a| && a[l] == b[j];
      if k == l { CountOnce(a, k); }
    }
  }

  lemma CountOnce(a: seq<Trade>, k: nat)
    requires k < |a|
    requires forall i, j :: 0 <= i < j < |a| ==> a[i].id != a[j].id
    ensures multiset(a)[a[k]] == 1
  {
    assert a == a[..k] + [a[k]] + a[k + 1..];
    assert a[k] !in a[..k] && a[k] !in a[k + 1..];
  }
}
