/**
 Several workers resolving products at once (internal/ingest/store.go:204-269). The
 cache lookup, the insert, the select and the publication of its rows are separate
 sections, and those of other workers may fall between any two of them.
 */
module ProductRaces {
  import opened Normalization
  import opened OfferStore

  /** How far a worker has got with resolving its batch. */
  datatype Stage =
    | Idle
    | Looked(bySku: map<string, Normalized>, out: Products)
    | Inserted(bySku: map<string, Normalized>, out: Products)
    | Selected(bySku: map<string, Normalized>, out: Products, rows: Products)
    | Done(bySku: map<string, Normalized>, out: Products)

  /** The products table, the shared cache, and the workers. */
  datatype World = World(products: Products, nextId: nat, cache: Products, stages: seq<Stage>)

  datatype Move =
    | Look(w: nat, bySku: map<string, Normalized>)
    | Insert(w: nat, skus: seq<string>)     // the titled misses, in the order of the statement
    | Select(w: nat)
    | Publish(w: nat)
    | Leave(w: nat)                         // the batch goes on, or a statement has failed
    | RestartAll                            // the process restarts: the cache is gone, the table stays

  /** The statement: new ids for the unknown SKUs, in list order; existing rows are left alone. */
  function InsertAll(p: Products, next: nat, skus: seq<string>): (Products, nat) {
    if skus == [] then (p, next)
    else
      var (q, n) := InsertAll(p, next, skus[..|skus| - 1]);
      var sku := skus[|skus| - 1];
      if sku in q then (q, n) else (q[sku := n], n + 1)
  }

  function Cached(cache: Products, bySku: map<string, Normalized>): Products {
    map sku | sku in bySku && sku in cache :: cache[sku]
  }

  ghost predicate TitledMisses(s: Stage, skus: seq<string>)
    requires s.Looked?
  {
    forall sku :: sku in skus <==> sku in s.bySku && sku !in s.out && s.bySku[sku].title != ""
  }

  ghost function Next(u: World, m: Move): World {
    if m.RestartAll? then World(u.products, u.nextId, map[], seq(|u.stages|, _ => Idle))
    else if m.w >= |u.stages| then u
    else
      var s := u.stages[m.w];
      match m
      case Look(w, bySku) =>
        if s.Idle? then u.(stages := u.stages[w := Looked(bySku, Cached(u.cache, bySku))]) else u
      case Insert(w, skus) =>
        if s.Looked? && TitledMisses(s, skus) then
          var (p, n) := InsertAll(u.products, u.nextId, skus);
          u.(products := p, nextId := n, stages := u.stages[w := Inserted(s.bySku, s.out)])
        else u
      case Select(w) =>
        if s.Inserted? then
          var rows := map sku | sku in s.bySku && sku !in s.out && sku in u.products :: u.products[sku];
          u.(stages := u.stages[w := Selected(s.bySku, s.out, rows)])
        else u
      case Publish(w) =>
        if s.Selected? then u.(cache := u.cache + s.rows, stages := u.stages[w := Done(s.bySku, s.out + s.rows)]) else u
      case Leave(w) => u.(stages := u.stages[w := Idle])
  }

  ghost function Play(u: World, moves: seq<Move>): World {
    if moves == [] then u else Next(Play(u, moves[..|moves| - 1]), moves[|moves| - 1])
  }

  function Begin(workers: nat): World {
    World(map[], 1, map[], seq(workers, _ => Idle))
  }

  /** What is known of ids is what the table says. */
  ghost predicate Agrees(known: Products, products: Products) {
    forall sku :: sku in known ==> sku in products && known[sku] == products[sku]
  }

  ghost predicate StageOk(products: Products, s: Stage) {
    match s
    case Idle => true
    case Looked(_, out) => Agrees(out, products)
    case Inserted(bySku, out) =>
      Agrees(out, products) && forall sku :: sku in bySku && bySku[sku].title != "" ==> sku in products
    case Selected(bySku, out, rows) =>
      && Agrees(out, products) && Agrees(rows, products) && rows.Keys <= bySku.Keys
      && forall sku :: sku in bySku && bySku[sku].title != "" ==> sku in out || sku in rows
    case Done(bySku, out) =>
      Agrees(out, products) && forall sku :: sku in bySku && bySku[sku].title != "" ==> sku in out
  }

  /** What a worker took from the cache or has published is in the cache. */
  ghost predicate Shared(cache: Products, s: Stage) {
    s.Idle? || (Agrees(s.out, cache) && s.out.Keys <= s.bySku.Keys)
  }

  ghost predicate WorldOk(u: World) {
    && Injective(u.products) && FreshAbove(u.products, u.nextId) && Agrees(u.cache, u.products)
    && forall w :: 0 <= w < |u.stages| ==> StageOk(u.products, u.stages[w]) && Shared(u.cache, u.stages[w])
  }

  lemma {:induction false} InsertAllKeeps(p: Products, next: nat, skus: seq<string>)
    requires Injective(p) && FreshAbove(p, next)
    ensures var (q, n) := InsertAll(p, next, skus);
      && Injective(q) && FreshAbove(q, n) && Agrees(p, q)
      && forall sku :: sku in q <==> sku in p || sku in skus
  {
    if skus != [] {
      InsertAllKeeps(p, next, skus[..|skus| - 1]);
    }
  }

  lemma StageKept(p: Products, q: Products, s: Stage)
    requires StageOk(p, s) && Agrees(p, q)
    ensures StageOk(q, s)
  {}

  lemma InsertKeepsWorld(u: World, w: nat, skus: seq<string>)
    requires WorldOk(u) && w < |u.stages| && u.stages[w].Looked? && TitledMisses(u.stages[w], skus)
    ensures WorldOk(Next(u, Insert(w, skus)))
  {
    InsertAllKeeps(u.products, u.nextId, skus);
    var u' := Next(u, Insert(w, skus));
    forall v | 0 <= v < |u.stages| ensures StageOk(u'.products, u'.stages[v]) {
      StageKept(u.products, u'.products, u.stages[v]);
      if v == w {
        var s := u.stages[w];
        forall sku | sku in s.bySku && s.bySku[sku].title != "" ensures sku in u'.products {
          assert sku in s.out || sku in skus;
        }
      }
    }
  }

  /** A worker's other steps keep its own stage in order and only let the cache grow. */
  lemma OwnStageKept(u: World, m: Move)
    requires WorldOk(u) && !m.RestartAll? && !m.Insert? && m.w < |u.stages|
    ensures var u' := Next(u, m);
      && u'.products == u.products && u'.nextId == u.nextId && Agrees(u.cache, u'.cache) && Agrees(u'.cache, u.products)
      && |u'.stages| == |u.stages| && StageOk(u.products, u'.stages[m.w]) && Shared(u'.cache, u'.stages[m.w])
      && forall v :: 0 <= v < |u.stages| && v != m.w ==> u'.stages[v] == u.stages[v]
  {
    assert StageOk(u.products, u.stages[m.w]) && Shared(u.cache, u.stages[m.w]);
  }

  lemma NextKeepsWorld(u: World, m: Move)
    requires WorldOk(u)
    ensures WorldOk(Next(u, m))
  {
    if m.Insert? {
      if m.w < |u.stages| && u.stages[m.w].Looked? && TitledMisses(u.stages[m.w], m.skus) {
        InsertKeepsWorld(u, m.w, m.skus);
      }
    } else if !m.RestartAll? && m.w < |u.stages| {
      OwnStageKept(u, m);
      forall v | 0 <= v < |u.stages| ensures StageOk(u.products, Next(u, m).stages[v]) && Shared(Next(u, m).cache, Next(u, m).stages[v]) {
        assert StageOk(u.products, u.stages[v]) && Shared(u.cache, u.stages[v]);
      }
    }
  }

  lemma {:induction false} PlayKeepsWorld(workers: nat, moves: seq<Move>)
    ensures WorldOk(Play(Begin(workers), moves))
  {
    if moves != [] {
      PlayKeepsWorld(workers, moves[..|moves| - 1]);
      NextKeepsWorld(Play(Begin(workers), moves[..|moves| - 1]), moves[|moves| - 1]);
    }
  }

  /**
   Over any interleaving of any number of workers: the cache never disagrees with the
   table and holds what every worker has resolved; two workers that are done map a SKU they share to the same id and different
   SKUs to different ids; and a worker that is done has an id for each of its titled
   SKUs.
   */
  lemma AllWorkersAgree(workers: nat, moves: seq<Move>, v: nat, w: nat)
    requires var u := Play(Begin(workers), moves);
      v < |u.stages| && w < |u.stages| && u.stages[v].Done? && u.stages[w].Done?
    ensures var u := Play(Begin(workers), moves); var a, b := u.stages[v].out, u.stages[w].out;
      && Agrees(u.cache, u.products) && Agrees(a, u.cache)
      && (forall x, y :: x in a && y in b ==> (a[x] == b[y] <==> x == y))
      && (forall sku :: sku in u.stages[v].bySku && u.stages[v].bySku[sku].title != "" ==> sku in a)
  {
    PlayKeepsWorld(workers, moves);
    var u := Play(Begin(workers), moves);
    assert StageOk(u.products, u.stages[v]) && StageOk(u.products, u.stages[w]);
  }

  /** A worker that selects finds every SKU of its batch that the table has, titled or not, and no other. */
  lemma SelectFindsAll(u: World, w: nat)
    requires WorldOk(u) && w < |u.stages| && u.stages[w].Inserted?
    ensures var s, s' := u.stages[w], Next(Next(u, Select(w)), Publish(w)).stages[w];
      && s'.Done? && s'.bySku == s.bySku
      && (forall sku :: sku in s'.out <==> sku in s.bySku && sku in u.products)
      && (forall sku :: sku in s'.out ==> s'.out[sku] == u.products[sku])
  {
    assert StageOk(u.products, u.stages[w]) && Shared(u.cache, u.stages[w]);
  }

  lemma {:induction false} IdsNeverChange(u: World, moves: seq<Move>)
    requires WorldOk(u)
    ensures WorldOk(Play(u, moves)) && Agrees(u.products, Play(u, moves).products)
  {
    if moves != [] {
      var n := |moves| - 1;
      var before := Play(u, moves[..n]);
      IdsNeverChange(u, moves[..n]);
      NextKeepsWorld(before, moves[n]);
      if moves[n].Insert? {
        InsertAllKeeps(before.products, before.nextId, moves[n].skus);
      }
    }
  }
}
