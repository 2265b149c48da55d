/**
 Whole runs of the service: any sequence of requests, applied one after
 another to the collection, and the invariants that hold across them. The
 Store methods leave exactly the collections these functions compute, so
 what is proved here holds of every sequence of method calls on a Store.
 The last part replays sample scenarios on the start-up data: a price
 window, a create/get/delete round trip and three refusals.
 */
module Traces {
  import opened JsValues
  import opened Products
  import opened ProductStore

  /** One HTTP request to the product routes. `Post` carries the clock
      reading that becomes the new id. */
  datatype Request =
    | Post(body: Body, now: int)
    | GetAll(min: Bound, max: Bound)
    | GetOne(id: int)
    | Put(id: int, body: Body)
    | Patch(id: int, body: Body)
    | Remove(id: int)

  /** The collection after one request. */
  function Apply(s: seq<Product>, req: Request): seq<Product>
  {
    match req
    case Post(body, now) => CreateStep(s, body, now).after
    case GetAll(_, _) => s
    case GetOne(_) => s
    case Put(id, body) => ReplaceStep(s, id, body).after
    case Patch(id, body) => PatchStep(s, id, body).after
    case Remove(id) => DeleteStep(s, id).after
  }

  /** The collection after the requests, in order. */
  function Run(s: seq<Product>, reqs: seq<Request>): seq<Product>
    decreases |reqs|
  {
    if reqs == [] then s else Run(Apply(s, reqs[0]), reqs[1..])
  }

  /** Every price stays positive, whatever is requested: each writer
      checks the price before storing it. */
  lemma {:induction false} RunKeepsPricesPositive(s: seq<Product>, reqs: seq<Request>)
    requires AllPricesPositive(s)
    ensures AllPricesPositive(Run(s, reqs))
    decreases |reqs|
  {
    if reqs != [] {
      if reqs[0].Patch? {
        PatchKeepsInvariants(s, reqs[0].id, reqs[0].body);
      }
      RunKeepsPricesPositive(Apply(s, reqs[0]), reqs[1..]);
    }
  }

  /** From the start-up data, every reachable collection has only positive
      prices. */
  lemma ReachableHasPositivePrices(reqs: seq<Request>)
    ensures AllPricesPositive(Run(Seed(), reqs))
  {
    SeedIsWellFormed();
    RunKeepsPricesPositive(Seed(), reqs);
  }

  /** Every stored name stays trimmed, whatever is requested: each writer
      stores `trim` of the name it was sent. */
  lemma {:induction false} RunKeepsNamesTrimmed(s: seq<Product>, reqs: seq<Request>)
    requires AllNamesTrimmed(s)
    ensures AllNamesTrimmed(Run(s, reqs))
    decreases |reqs|
  {
    if reqs != [] {
      match reqs[0] {
        case Post(body, now) => CreateKeepsNamesTrimmed(s, body, now);
        case GetAll(_, _) =>
        case GetOne(_) =>
        case Put(id, body) => ReplaceKeepsNamesTrimmed(s, id, body);
        case Patch(id, body) => PatchKeepsInvariants(s, id, body);
        case Remove(id) => DeleteKeepsNamesTrimmed(s, id);
      }
      RunKeepsNamesTrimmed(Apply(s, reqs[0]), reqs[1..]);
    }
  }

  /** From the start-up data, every reachable collection holds only
      trimmed names. */
  lemma ReachableHasTrimmedNames(reqs: seq<Request>)
    ensures AllNamesTrimmed(Run(Seed(), reqs))
  {
    SeedIsWellFormed();
    RunKeepsNamesTrimmed(Seed(), reqs);
  }

  /** The clock readings of the create requests. */
  function ClockReadings(reqs: seq<Request>): set<int>
    decreases |reqs|
  {
    if reqs == [] then {}
    else (if reqs[0].Post? then {reqs[0].now} else {}) + ClockReadings(reqs[1..])
  }

  ghost predicate IdsIn(s: seq<Product>, ids: set<int>)
  {
    forall k :: 0 <= k < |s| ==> s[k].id in ids
  }

  /** Ids are assigned only by create: every id in a reachable collection
      was there at the start or is the clock reading of some create. */
  lemma {:induction false} RunIdsComeFromCreates(s: seq<Product>, ids: set<int>, reqs: seq<Request>)
    requires IdsIn(s, ids)
    ensures IdsIn(Run(s, reqs), ids + ClockReadings(reqs))
    decreases |reqs|
  {
    if reqs != [] {
      var req := reqs[0];
      var t := Apply(s, req);
      var more := if req.Post? then {req.now} else {};
      assert IdsIn(t, ids + more) by {
        match req
        case Remove(id) =>
          forall k | 0 <= k < |t| ensures t[k].id in ids + more {
            assert t[k] in s;
          }
        case Patch(id, body) => PatchKeepsInvariants(s, id, body);
        case _ =>
      }
      RunIdsComeFromCreates(t, ids + more, reqs[1..]);
      assert ids + more + ClockReadings(reqs[1..]) == ids + ClockReadings(reqs);
    }
  }

  /** The clock never hands a create an id that is already stored. The
      service does not ensure this (two creates within one millisecond get
      the same id); it is the hypothesis under which ids stay unique. */
  ghost predicate FreshClock(s: seq<Product>, reqs: seq<Request>)
    decreases |reqs|
  {
    reqs == [] ||
    ((reqs[0].Post? ==> !HasId(s, reqs[0].now)) && FreshClock(Apply(s, reqs[0]), reqs[1..]))
  }

  /** Replace and patch keep every id in place, so they keep ids unique. */
  lemma SameIdsKeepUnique(s: seq<Product>, t: seq<Product>)
    requires SameIds(s, t) && UniqueIds(s)
    ensures UniqueIds(t)
  {
    forall i, j | 0 <= i < |t| && 0 <= j < |t| && t[i].id == t[j].id ensures i == j {
      assert s[i].id == s[j].id;
    }
  }

  /** With a fresh clock, ids stay unique over any run. */
  lemma {:induction false} RunKeepsIdsUnique(s: seq<Product>, reqs: seq<Request>)
    requires UniqueIds(s) && FreshClock(s, reqs)
    ensures UniqueIds(Run(s, reqs))
    decreases |reqs|
  {
    if reqs != [] {
      var t := Apply(s, reqs[0]);
      match reqs[0] {
        case Post(body, now) => CreateKeepsIdsUnique(s, body, now);
        case GetAll(_, _) =>
        case GetOne(_) =>
        case Put(id, body) => SameIdsKeepUnique(s, t);
        case Patch(id, body) =>
          PatchKeepsInvariants(s, id, body);
          SameIdsKeepUnique(s, t);
        case Remove(id) => DeleteKeepsOrder(s, id);
      }
      RunKeepsIdsUnique(t, reqs[1..]);
    }
  }

  // ------------------------------------------------------------- scenarios

  /** GET /products?minPrice=10000&maxPrice=40000 on the start-up data
      returns the smartphone and the tablet, in that order. */
  lemma SeedPriceWindow()
    ensures Listed(Seed(), At(10000), At(40000)) == [Seed()[0], Seed()[2]]
  {
    var s, low, high := Seed(), MinFilter(At(10000)), MaxFilter(At(40000));
    assert Keep(s[3..], low) == [] by { assert s[3..][1..] == []; }
    assert Keep(s[2..], low) == [s[2]] by { assert s[2..][1..] == s[3..]; }
    assert Keep(s[1..], low) == [s[1], s[2]] by { assert s[1..][1..] == s[2..]; }
    var kept := Keep(s, low);
    assert kept == [s[0], s[1], s[2]];
    assert Keep(kept[2..], high) == [s[2]] by { assert kept[2..][1..] == []; }
    assert Keep(kept[1..], high) == [s[2]] by { assert kept[1..][1..] == kept[2..]; }
  }

  /** POST of a fresh "Mouse" at 999, then GET, DELETE and GET of its id:
      201 with the record, 200 with the same record, the id echoed back, and
      finally NotFound. */
  lemma MouseRoundTrip(s: seq<Product>, now: int)
    requires !HasId(s, now)
    ensures var c := CreateStep(s, Body(Str("Mouse"), Num(999)), now);
      && c.reply == Ok(Product(now, "Mouse", 999))
      && Lookup(c.after, now) == c.reply
      && DeleteStep(c.after, now).reply == Ok(now)
      && Lookup(DeleteStep(c.after, now).after, now) == Err(NotFound)
      && DeleteStep(c.after, now).after == s
  {
    var c := CreateStep(s, Body(Str("Mouse"), Num(999)), now);
    NoEdgeSpaceTrimIsIdentity("Mouse");
    var t := c.after;
    assert t[|s|] == Product(now, "Mouse", 999);
    KeepEverything(s, OtherThan(now));
    assert Keep(t, OtherThan(now)) == Keep(s, OtherThan(now)) by {
      KeepAppendFailing(s, Product(now, "Mouse", 999), OtherThan(now));
    }
  }

  /** Filtering `s + [x]` where `x` fails the filter is filtering `s`. */
  lemma {:induction false} KeepAppendFailing(s: seq<Product>, x: Product, f: Product -> bool)
    requires !f(x)
    ensures Keep(s + [x], f) == Keep(s, f)
  {
    if s != [] {
      assert (s + [x])[1..] == s[1..] + [x];
      KeepAppendFailing(s[1..], x, f);
    }
  }

  /** PATCH /products/1 with a price of -5 is refused and record 1 keeps
      its fields; DELETE /products/9999 is NotFound and changes nothing;
      POST with an empty name is refused. */
  lemma SeedRefusals()
    ensures PatchStep(Seed(), 1, Body(Absent, Num(-5))) == Outcome(Err(BadRequest(NotPositive)), Seed())
    ensures DeleteStep(Seed(), 9999) == Outcome(Err(NotFound), Seed())
    ensures CreateStep(Seed(), Body(Str(""), Num(100)), 0) == Outcome(Err(BadRequest(Missing)), Seed())
  {
    var s := Seed();
    assert s[0].id == 1 && s[1].id == 2 && s[2].id == 3 && s[3].id == 4;
    assert IndexOf(s, 1) == Some(0);
    assert s[0 := Revised(s[0], Body(Absent, Num(-5)))] == s;
    assert !HasId(s, 9999);
  }

  /** The scenarios above run through Store objects, using only the
      contracts of its methods. */
  method WindowWalkthrough()
  {
    var store := new Store();
    var window := store.List(At(10000), At(40000));
    SeedPriceWindow();
    assert window == [Seed()[0], Seed()[2]];
  }

  method MouseWalkthrough(now: int)
    requires now !in {1, 2, 3, 4}
  {
    var store := new Store();
    MouseRoundTrip(Seed(), now);
    var created := store.Create(Body(Str("Mouse"), Num(999)), now);
    assert created == Ok(Product(now, "Mouse", 999));
    var got := store.Get(now);
    assert got == created;
    var deleted := store.Delete(now);
    assert deleted == Ok(now);
    var gone := store.Get(now);
    assert gone == Err(NotFound);
  }

  method RefusalWalkthrough()
  {
    var store := new Store();
    SeedRefusals();
    var refused := store.Create(Body(Str(""), Num(100)), 0);
    assert refused == Err(BadRequest(Missing)) && store.products == Seed();
    var badPatch := store.Patch(1, Body(Absent, Num(-5)));
    assert badPatch == Err(BadRequest(NotPositive)) && store.products == Seed();
    var missing := store.Delete(9999);
    assert missing == Err(NotFound) && |store.products| == 4;
  }
}
