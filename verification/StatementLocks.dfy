/** The lock lists of the store's two statements, and what their order buys. */
module StatementLocks {
  import opened Ordering
  import opened OfferStore
  import opened LockOrder

  /** A row lock: of the products table by SKU, or of the offers table by product. */
  datatype Lock = ProductRow(sku: string) | OfferRowOf(product: int)

  predicate Before(a: Lock, b: Lock) {
    match (a, b)
    case (ProductRow(x), ProductRow(y)) => LessString(x, y)
    case (OfferRowOf(x), OfferRowOf(y)) => x < y
    case (ProductRow(_), OfferRowOf(_)) => true
    case (OfferRowOf(_), ProductRow(_)) => false
  }

  lemma BeforeIsStrict()
    ensures StrictOrder(Before)
  {
    OrdersAreStrict();
    forall a, b | Before(a, b) ensures !Before(b, a) {
      if a.ProductRow? && b.ProductRow? {
        LessStringAsym(a.sku, b.sku);
      }
    }
    forall a, b, c | Before(a, b) && Before(b, c) ensures Before(a, c) {
      if a.ProductRow? && c.ProductRow? {
        LessStringTrans(a.sku, b.sku, c.sku);
      }
    }
    forall a, b ensures a == b || Before(a, b) || Before(b, a) {
      if a.ProductRow? && b.ProductRow? {
        LessStringTotal(a.sku, b.sku);
      }
    }
  }

  /** What one worker's open statement asks for: new products in SKU order, or offers in product order. */
  datatype Statement = InsertsProducts(skus: seq<string>) | UpsertsOffers(rows: seq<Chosen>)

  ghost predicate AsStored(st: Statement) {
    match st
    case InsertsProducts(skus) => Ascending(LessString, skus)
    case UpsertsOffers(rows) => ByProduct(rows)
  }

  function Locks(st: Statement): seq<Lock> {
    match st
    case InsertsProducts(skus) => seq(|skus|, k requires 0 <= k < |skus| => ProductRow(skus[k]))
    case UpsertsOffers(rows) => seq(|rows|, k requires 0 <= k < |rows| => OfferRowOf(rows[k].product))
  }

  /** A statement locks exactly the rows it writes: a product per SKU, or an offer per product. */
  lemma LocksAreRows(st: Statement, sku: string, product: int)
    ensures st.InsertsProducts? ==> (ProductRow(sku) in Locks(st) <==> sku in st.skus) && OfferRowOf(product) !in Locks(st)
    ensures st.UpsertsOffers? ==>
      && (OfferRowOf(product) in Locks(st) <==> exists k :: 0 <= k < |st.rows| && st.rows[k].product == product)
      && ProductRow(sku) !in Locks(st)
  {
    if st.InsertsProducts? && sku in st.skus {
      var k :| 0 <= k < |st.skus| && st.skus[k] == sku;
      assert Locks(st)[k] == ProductRow(sku);
    }
    if st.UpsertsOffers? {
      if k :| 0 <= k < |st.rows| && st.rows[k].product == product {
        assert Locks(st)[k] == OfferRowOf(product);
      }
    }
  }

  lemma LocksAscend(st: Statement)
    requires AsStored(st)
    ensures Ascending(Before, Locks(st))
  {}

  /**
   Any number of workers, each somewhere inside a statement the store sends: while
   one is unfinished, some worker can take its next lock or commit.
   */
  lemma StoreStatementsNeverDeadlock(sts: seq<Statement>, ss: Sessions<Lock>, some: int) returns (w: int)
    requires |sts| == |ss| && 0 <= some < |ss| && !ss[some].done
    requires forall v :: 0 <= v < |ss| ==> AsStored(sts[v]) && ss[v].locks == Locks(sts[v]) && ss[v].taken <= |ss[v].locks|
    ensures CanStep(ss, w)
  {
    BeforeIsStrict();
    forall v | 0 <= v < |ss| ensures Ascending(Before, ss[v].locks) {
      LocksAscend(sts[v]);
    }
    w := OrderedLockingNeverDeadlocks(Before, ss, some);
  }

  /** The workers' statements as sessions that have taken no lock yet. */
  function Opened(sts: seq<Statement>): Sessions<Lock> {
    seq(|sts|, v requires 0 <= v < |sts| => Session(Locks(sts[v]), 0, false))
  }

  lemma OpenedIsReady(sts: seq<Statement>)
    requires forall v :: 0 <= v < |sts| ==> AsStored(sts[v])
    ensures WellFormed(Before, Opened(sts)) && Exclusive(Opened(sts))
  {
    forall v | 0 <= v < |sts| ensures Ascending(Before, Opened(sts)[v].locks) {
      LocksAscend(sts[v]);
    }
  }

  /**
   From the moment the store's statements are sent, every schedule of enabled steps
   excludes them from each other's locks and, once nothing can step, has committed
   them all.
   */
  lemma StoreStatementsComplete(sts: seq<Statement>, sched: seq<nat>)
    requires forall v :: 0 <= v < |sts| ==> AsStored(sts[v])
    requires Legal(Opened(sts), sched)
    ensures forall k :: 0 <= k <= |sched| ==> Exclusive(Play(Opened(sts), sched[..k]))
    ensures |sched| <= Work(Opened(sts))
    ensures (forall w :: !CanStep(Play(Opened(sts), sched), w)) <==> AllDone(Play(Opened(sts), sched))
  {
    BeforeIsStrict();
    OpenedIsReady(sts);
    EveryScheduleCompletes(Before, Opened(sts), sched);
  }
}
