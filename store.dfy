/**
 The module-level `products` array of the service as an object, with one
 method per route. Each method performs the route's steps on the stored
 sequence (append, assignment at an index, field writes on the found
 record, reassignment by a filter) and is proved to leave exactly the
 reply and the collection that the matching function of module Products
 describes.
 */
module ProductStore {
  import opened JsValues
  import opened Products

  class Store {
    var products: seq<Product>

    /** Every stored price is positive, as every writer that stores a price
        checks it first (delete only drops records), and
        every stored name is trimmed, as all three name writers trim it. */
    ghost predicate Valid()
      reads this
    {
      AllPricesPositive(products) && AllNamesTrimmed(products)
    }

    /** The collection at start-up holds the four seed records. */
    constructor ()
      ensures Valid() && products == Seed()
    {
      products := Seed();
      SeedIsWellFormed();
    }

    /** POST /products: validate, then append a record whose id is the
        clock reading `now`. */
    method Create(body: Body, now: int) returns (r: Result<Product>)
      requires Valid()
      modifies this
      ensures Valid()
      ensures r == CreateStep(old(products), body, now).reply
      ensures products == CreateStep(old(products), body, now).after
    {
      if !Truthy(body.name) || !Truthy(body.price) {
        return Err(BadRequest(Missing));
      }
      if !IsPositiveNumber(body.price) {
        return Err(BadRequest(NotPositive));
      }
      if !body.name.Str? {
        return Err(TypeError);
      }
      CreateKeepsNamesTrimmed(products, body, now);
      var created := Product(now, Trim(body.name.s), body.price.n);
      products := products + [created];
      r := Ok(created);
    }

    /** GET /products: start from a copy and narrow it by each bound given. */
    method List(min: Bound, max: Bound) returns (r: seq<Product>)
      ensures r == Listed(products, min, max)
    {
      r := products;
      if !min.Unset? {
        r := Keep(r, MinFilter(min));
      }
      if !max.Unset? {
        r := Keep(r, MaxFilter(max));
      }
    }

    /** GET /products/:id. */
    method Get(id: int) returns (r: Result<Product>)
      ensures r == Lookup(products, id)
    {
      var found := IndexOf(products, id);
      if found.None? {
        return Err(NotFound);
      }
      r := Ok(products[found.value]);
    }

    /** PUT /products/:id: validate, find, then overwrite the whole record. */
    method Replace(id: int, body: Body) returns (r: Result<Product>)
      requires Valid()
      modifies this
      ensures Valid()
      ensures r == ReplaceStep(old(products), id, body).reply
      ensures products == ReplaceStep(old(products), id, body).after
    {
      if !Truthy(body.name) || !Truthy(body.price) {
        return Err(BadRequest(Missing));
      }
      if !IsPositiveNumber(body.price) {
        return Err(BadRequest(NotPositive));
      }
      var found := IndexOf(products, id);
      if found.None? {
        return Err(NotFound);
      }
      if !body.name.Str? {
        return Err(TypeError);
      }
      var i := found.value;
      ReplaceKeepsNamesTrimmed(products, id, body);
      products := products[i := Product(id, Trim(body.name.s), body.price.n)];
      r := Ok(products[i]);
    }

    /** PATCH /products/:id: find, write a present name, then check and
        write a present price. */
    method Patch(id: int, body: Body) returns (r: Result<Product>)
      requires Valid()
      modifies this
      ensures Valid()
      ensures r == PatchStep(old(products), id, body).reply
      ensures products == PatchStep(old(products), id, body).after
    {
      ghost var before := products;
      PatchKeepsInvariants(before, id, body);
      var found := IndexOf(products, id);
      if found.None? {
        return Err(NotFound);
      }
      var i := found.value;
      ghost var revised := before[i := Revised(before[i], body)];
      if body.name != Absent {
        if !body.name.Str? {
          return Err(TypeError);
        }
        products := products[i := products[i].(name := Trim(body.name.s))];
      }
      if body.price != Absent {
        if !IsPositiveNumber(body.price) {
          assert products == revised;
          return Err(BadRequest(NotPositive));
        }
        products := products[i := products[i].(price := body.price.n)];
      }
      assert products == revised;
      r := Ok(products[i]);
    }

    /** DELETE /products/:id: check that the id exists, then keep only the
        records with other ids. */
    method Delete(id: int) returns (r: Result<int>)
      requires Valid()
      modifies this
      ensures Valid()
      ensures r == DeleteStep(old(products), id).reply
      ensures products == DeleteStep(old(products), id).after
    {
      if !HasId(products, id) {
        return Err(NotFound);
      }
      KeepKeepsPricesPositive(products, OtherThan(id));
      DeleteKeepsNamesTrimmed(products, id);
      products := Keep(products, OtherThan(id));
      r := Ok(id);
    }
  }
}
