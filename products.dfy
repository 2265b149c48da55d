/**
 The product collection of the service and what each route does to it,
 as pure functions giving the reply and, for the writers, the collection
 after the request. Their contracts, or for `Listed` and `PatchStep` the
 lemmas after them, state each error case and the new collection. The
 `Store` class in module ProductStore runs the same steps imperatively and
 is proved equal to these functions.
 */
module Products {
  import opened JsValues

  /** One stored record `{id, name, price}`. */
  datatype Product = Product(id: int, name: string, price: int)

  /** The two fields a request body may carry. */
  datatype Body = Body(name: Field, price: Field)

  /** Why a body was refused with status 400: a required field is missing
      or falsy, or the price is not a positive number. */
  datatype Invalid = Missing | NotPositive

  /** The ways a request can fail. `TypeError` is the exception thrown when
      `trim` is called on a name that is not a string; Express turns it into
      status 500, and the collection is left as it was. */
  datatype Failure = BadRequest(reason: Invalid) | NotFound | TypeError

  datatype Result<T> = Ok(value: T) | Err(failure: Failure)

  datatype Option<T> = None | Some(value: T)

  /** A `minPrice` or `maxPrice` query parameter: not given (or empty),
      a number, or a string that converts to `NaN`. */
  datatype Bound = Unset | At(limit: int) | Unparseable

  /** The reply to one request and the collection after it. */
  datatype Outcome<T> = Outcome(reply: Result<T>, after: seq<Product>)

  /** The four records the collection holds at start-up. */
  function Seed(): seq<Product>
  {
    [ Product(1, "Смартфон XYZ Pro", 24990),
      Product(2, "Ноутбук UltraBook 15", 54990),
      Product(3, "Планшет Tab S8", 35990),
      Product(4, "Наушники AirSound", 4990) ]
  }

  predicate AllPricesPositive(s: seq<Product>)
  {
    forall k :: 0 <= k < |s| ==> s[k].price > 0
  }

  /** Every stored name has no whitespace at either end (so `trim` leaves
      it as it is): each writer stores `trim` of the name it was sent. */
  predicate AllNamesTrimmed(s: seq<Product>)
  {
    forall k :: 0 <= k < |s| ==> IsTrimmed(s[k].name)
  }

  predicate UniqueIds(s: seq<Product>)
  {
    forall i, j :: 0 <= i < |s| && 0 <= j < |s| && s[i].id == s[j].id ==> i == j
  }

  /** `s.some(p => p.id === id)`: some record has this id. */
  predicate HasId(s: seq<Product>, id: int)
  {
    exists k :: 0 <= k < |s| && s[k].id == id
  }

  /** `t` has the same length as `s` and the same id at every position. */
  predicate SameIds(s: seq<Product>, t: seq<Product>)
  {
    |t| == |s| && forall k :: 0 <= k < |s| ==> t[k].id == s[k].id
  }

  lemma SeedIsWellFormed()
    ensures AllPricesPositive(Seed()) && UniqueIds(Seed()) && AllNamesTrimmed(Seed())
  {
    assert IsTrimmed("Смартфон XYZ Pro") && IsTrimmed("Ноутбук UltraBook 15")
      && IsTrimmed("Планшет Tab S8") && IsTrimmed("Наушники AirSound");
    var s := Seed();
    assert UniqueIds(s) by {
      assert s[0].id == 1 && s[1].id == 2 && s[2].id == 3 && s[3].id == 4;
    }
  }

  /** `findIndex(p => p.id === id)`: the position of the first record with
      this id, or none when no record has it. */
  function IndexOf(s: seq<Product>, id: int): (r: Option<nat>)
    ensures r.Some? ==> r.value < |s| && s[r.value].id == id
    ensures r.Some? ==> forall k :: 0 <= k < r.value ==> s[k].id != id
    ensures r.None? <==> !HasId(s, id)
  {
    if s == [] then None
    else if s[0].id == id then Some(0)
    else match IndexOf(s[1..], id)
      case None =>
        assert forall k :: 1 <= k < |s| ==> s[k] == s[1..][k - 1];
        None
      case Some(k) => Some(k + 1)
  }

  /** `filter(f)`: the elements of `s` that satisfy `f`, in their order. */
  function Keep(s: seq<Product>, f: Product -> bool): (r: seq<Product>)
    ensures |r| <= |s|
    ensures forall x :: x in r <==> x in s && f(x)
  {
    if s == [] then []
    else if f(s[0]) then [s[0]] + Keep(s[1..], f)
    else Keep(s[1..], f)
  }

  /** `a` is `b` with some elements left out, the rest in their order. */
  ghost predicate IsSubsequence<T>(a: seq<T>, b: seq<T>)
    decreases |b|
  {
    a == [] || (b != [] && ((a[0] == b[0] && IsSubsequence(a[1..], b[1..])) || IsSubsequence(a, b[1..])))
  }

  /** Filtering keeps the order of what it keeps. */
  lemma {:induction false} KeepIsSubsequence(s: seq<Product>, f: Product -> bool)
    ensures IsSubsequence(Keep(s, f), s)
  {
    if s != [] {
      KeepIsSubsequence(s[1..], f);
      if f(s[0]) {
        assert Keep(s, f)[1..] == Keep(s[1..], f);
      }
    }
  }

  /** Filtering keeps every copy of an element that passes and no copy of
      one that fails. */
  lemma {:induction false} KeepCount(s: seq<Product>, f: Product -> bool, x: Product)
    ensures multiset(Keep(s, f))[x] == if f(x) then multiset(s)[x] else 0
  {
    if s != [] {
      KeepCount(s[1..], f, x);
      assert s == [s[0]] + s[1..];
    }
  }

  /** A filter that every element passes removes nothing. */
  lemma {:induction false} KeepEverything(s: seq<Product>, f: Product -> bool)
    requires forall x :: x in s ==> f(x)
    ensures Keep(s, f) == s
  {
    if s != [] {
      KeepEverything(s[1..], f);
    }
  }

  /** Two filters in a row are one filter by the conjunction. */
  lemma {:induction false} KeepTwice(s: seq<Product>, f: Product -> bool, g: Product -> bool, h: Product -> bool)
    requires forall x :: h(x) == (f(x) && g(x))
    ensures Keep(Keep(s, f), g) == Keep(s, h)
  {
    if s != [] {
      KeepTwice(s[1..], f, g, h);
      if f(s[0]) {
        assert Keep(s, f)[1..] == Keep(s[1..], f);
      }
    }
  }

  /** Filtering a collection with unique ids leaves the ids unique. */
  lemma {:induction false} KeepKeepsIdsUnique(s: seq<Product>, f: Product -> bool)
    requires UniqueIds(s)
    ensures UniqueIds(Keep(s, f))
  {
    if s != [] {
      var rest := s[1..];
      assert UniqueIds(rest) by {
        forall i, j | 0 <= i < |rest| && 0 <= j < |rest| && rest[i].id == rest[j].id ensures i == j {
          assert s[i + 1].id == s[j + 1].id;
        }
      }
      KeepKeepsIdsUnique(rest, f);
      if f(s[0]) {
        var r := Keep(s, f);
        assert r == [s[0]] + Keep(rest, f);
        forall p | p in Keep(rest, f) ensures p.id != s[0].id {
          var k :| 0 <= k < |rest| && rest[k] == p;
          assert s[k + 1] == p;
        }
        forall i, j | 0 <= i < |r| && 0 <= j < |r| && r[i].id == r[j].id ensures i == j {
          if i != 0 && j != 0 {
            assert r[i] == Keep(rest, f)[i - 1] && r[j] == Keep(rest, f)[j - 1];
          }
        }
      }
    }
  }

  /** Filtering keeps the prices of what it keeps. */
  lemma KeepKeepsPricesPositive(s: seq<Product>, f: Product -> bool)
    ensures AllPricesPositive(s) ==> AllPricesPositive(Keep(s, f))
  {
    var r := Keep(s, f);
    if AllPricesPositive(s) {
      forall k | 0 <= k < |r| ensures r[k].price > 0 {
        assert r[k] in s;
      }
    }
  }

  // ---------------------------------------------------------------- GET one

  /** GET /products/:id: the first record with this id, or NotFound. */
  function Lookup(s: seq<Product>, id: int): (r: Result<Product>)
    ensures r.Ok? <==> HasId(s, id)
    ensures r.Err? ==> r.failure == NotFound
    ensures r.Ok? ==> r.value.id == id
    ensures r.Ok? ==> exists i :: 0 <= i < |s| && s[i] == r.value && forall k :: 0 <= k < i ==> s[k].id != id
  {
    match IndexOf(s, id)
    case Some(i) => Ok(s[i])
    case None => Err(NotFound)
  }

  // --------------------------------------------------------------- GET all

  /** `p.price >= Number(minPrice)`; a NaN bound lets nothing through. */
  predicate MeetsMin(b: Bound, p: Product)
  {
    match b
    case Unset => true
    case At(v) => p.price >= v
    case Unparseable => false
  }

  /** `p.price <= Number(maxPrice)`; a NaN bound lets nothing through. */
  predicate MeetsMax(b: Bound, p: Product)
  {
    match b
    case Unset => true
    case At(v) => p.price <= v
    case Unparseable => false
  }

  function MinFilter(b: Bound): Product -> bool
  {
    (p: Product) => MeetsMin(b, p)
  }

  function MaxFilter(b: Bound): Product -> bool
  {
    (p: Product) => MeetsMax(b, p)
  }

  function RangeFilter(min: Bound, max: Bound): Product -> bool
  {
    (p: Product) => MeetsMin(min, p) && MeetsMax(max, p)
  }

  /** GET /products: a copy of the collection, narrowed by `minPrice` when
      it is given and then by `maxPrice` when it is given. */
  function Listed(s: seq<Product>, min: Bound, max: Bound): seq<Product>
  {
    var low := if min.Unset? then s else Keep(s, MinFilter(min));
    if max.Unset? then low else Keep(low, MaxFilter(max))
  }

  /** The two filters of GET /products compose: the list is the one-pass
      filter by both bounds. */
  lemma ListedIsOnePass(s: seq<Product>, min: Bound, max: Bound)
    ensures Listed(s, min, max) == Keep(s, RangeFilter(min, max))
  {
    var low := if min.Unset? then s else Keep(s, MinFilter(min));
    if min.Unset? {
      if max.Unset? {
        KeepEverything(s, RangeFilter(min, max));
      } else {
        KeepTwice(s, MinFilter(min), MaxFilter(max), RangeFilter(min, max));
        KeepEverything(s, MinFilter(min));
      }
    } else if max.Unset? {
      KeepTwice(s, MinFilter(min), MaxFilter(max), RangeFilter(min, max));
      KeepEverything(Keep(s, MinFilter(min)), MaxFilter(max));
    } else {
      KeepTwice(s, MinFilter(min), MaxFilter(max), RangeFilter(min, max));
    }
  }

  /** What GET /products returns: the records within the bounds, each as
      many times as it is stored, in stored order; with no bound given, the
      whole collection. */
  lemma ListedExactly(s: seq<Product>, min: Bound, max: Bound)
    ensures var r := Listed(s, min, max);
      forall p :: multiset(r)[p] == if MeetsMin(min, p) && MeetsMax(max, p) then multiset(s)[p] else 0
    ensures IsSubsequence(Listed(s, min, max), s)
    ensures forall p :: p in Listed(s, min, max) <==> p in s && MeetsMin(min, p) && MeetsMax(max, p)
    ensures min.Unset? && max.Unset? ==> Listed(s, min, max) == s
  {
    ListedIsOnePass(s, min, max);
    forall p ensures multiset(Listed(s, min, max))[p] == if MeetsMin(min, p) && MeetsMax(max, p) then multiset(s)[p] else 0 {
      KeepCount(s, RangeFilter(min, max), p);
    }
    KeepIsSubsequence(s, RangeFilter(min, max));
  }

  // ------------------------------------------------------------------- POST

  /** The two checks that POST and PUT make, in order: `!name || !price`,
      then `typeof price !== 'number' || price <= 0`. */
  function FullBodyError(body: Body): (r: Option<Invalid>)
    ensures r.None? <==> Truthy(body.name) && IsPositiveNumber(body.price)
    ensures r == Some(Missing) <==> !Truthy(body.name) || !Truthy(body.price)
  {
    if !Truthy(body.name) || !Truthy(body.price) then Some(Missing)
    else if !IsPositiveNumber(body.price) then Some(NotPositive)
    else None
  }

  /** POST /products with the clock reading `now`, which becomes the id. */
  function CreateStep(s: seq<Product>, body: Body, now: int): (o: Outcome<Product>)
    ensures o.reply.Err? ==> o.after == s
    ensures o.reply == Err(BadRequest(Missing)) <==> !Truthy(body.name) || !Truthy(body.price)
    ensures o.reply == Err(BadRequest(NotPositive)) <==>
              Truthy(body.name) && Truthy(body.price) && !IsPositiveNumber(body.price)
    ensures o.reply == Err(TypeError) <==> Truthy(body.name) && !body.name.Str? && IsPositiveNumber(body.price)
    ensures o.reply.Ok? <==> body.name.Str? && body.name.s != "" && IsPositiveNumber(body.price)
    ensures o.reply.Ok? ==>
              && body.name.Str? && body.price.Num?
              && o.reply.value == Product(now, Trim(body.name.s), body.price.n)
              && o.after == s + [o.reply.value]
    ensures AllPricesPositive(s) ==> AllPricesPositive(o.after)
  {
    match FullBodyError(body)
    case Some(why) => Outcome(Err(BadRequest(why)), s)
    case None =>
      if !body.name.Str? then Outcome(Err(TypeError), s)
      else
        var p := Product(now, Trim(body.name.s), body.price.n);
        Outcome(Ok(p), s + [p])
  }

  /** A create whose clock reading is not yet an id keeps the ids unique. */
  lemma CreateKeepsIdsUnique(s: seq<Product>, body: Body, now: int)
    requires UniqueIds(s) && !HasId(s, now)
    ensures UniqueIds(CreateStep(s, body, now).after)
  {
    var t := CreateStep(s, body, now).after;
    if t != s {
      forall i, j | 0 <= i < |t| && 0 <= j < |t| && t[i].id == t[j].id ensures i == j {
        if i < |s| && j < |s| {
          assert t[i] == s[i] && t[j] == s[j];
        }
      }
    }
  }

  /** A create stores a trimmed name. */
  lemma CreateKeepsNamesTrimmed(s: seq<Product>, body: Body, now: int)
    requires AllNamesTrimmed(s)
    ensures AllNamesTrimmed(CreateStep(s, body, now).after)
  {
    if body.name.Str? {
      TrimmedMeansFixed(body.name.s);
    }
    var t := CreateStep(s, body, now).after;
    forall k | 0 <= k < |t| ensures IsTrimmed(t[k].name) {
      if k < |s| {
        assert t[k] == s[k];
      }
    }
  }

  // -------------------------------------------------------------------- PUT

  /** PUT /products/:id: the body checks come first, then the lookup, then
      the record at the found position is overwritten by a new one. */
  function ReplaceStep(s: seq<Product>, id: int, body: Body): (o: Outcome<Product>)
    ensures o.reply.Err? ==> o.after == s
    ensures o.reply == Err(BadRequest(Missing)) <==> !Truthy(body.name) || !Truthy(body.price)
    ensures o.reply == Err(BadRequest(NotPositive)) <==>
              Truthy(body.name) && Truthy(body.price) && !IsPositiveNumber(body.price)
    ensures o.reply == Err(NotFound) <==>
              Truthy(body.name) && IsPositiveNumber(body.price) && !HasId(s, id)
    ensures o.reply == Err(TypeError) <==>
              Truthy(body.name) && !body.name.Str? && IsPositiveNumber(body.price) && HasId(s, id)
    ensures o.reply.Ok? ==>
              && body.name.Str? && body.price.Num? && IndexOf(s, id).Some?
              && o.reply.value == Product(id, Trim(body.name.s), body.price.n)
              && o.after == s[IndexOf(s, id).value := o.reply.value]
    ensures SameIds(s, o.after)
    ensures AllPricesPositive(s) ==> AllPricesPositive(o.after)
  {
    match FullBodyError(body)
    case Some(why) => Outcome(Err(BadRequest(why)), s)
    case None =>
      match IndexOf(s, id)
      case None => Outcome(Err(NotFound), s)
      case Some(i) =>
        if !body.name.Str? then Outcome(Err(TypeError), s)
        else
          var p := Product(id, Trim(body.name.s), body.price.n);
          Outcome(Ok(p), s[i := p])
  }

  /** A replace stores a trimmed name. */
  lemma ReplaceKeepsNamesTrimmed(s: seq<Product>, id: int, body: Body)
    requires AllNamesTrimmed(s)
    ensures AllNamesTrimmed(ReplaceStep(s, id, body).after)
  {
    if body.name.Str? {
      TrimmedMeansFixed(body.name.s);
    }
  }

  // ------------------------------------------------------------------ PATCH

  /** The record `p` once PATCH has written `body` into it: a string name
      is trimmed and stored, a positive price is stored, and every other
      field keeps its value. */
  function Revised(p: Product, body: Body): Product
  {
    p.(name := if body.name.Str? then Trim(body.name.s) else p.name,
       price := if IsPositiveNumber(body.price) then body.price.n else p.price)
  }

  /** PATCH /products/:id: after the lookup, a present name is trimmed and
      written, then a present price is checked and written. A bad price is
      refused only after the name has been written, so that write stays.
      What the replies and the new collection mean is stated by the three
      lemmas below, which keeps this definition cheap to unfold. */
  function PatchStep(s: seq<Product>, id: int, body: Body): (o: Outcome<Product>)
    ensures o.reply == Err(NotFound) || o.reply == Err(TypeError) ==> o.after == s
  {
    match IndexOf(s, id)
    case None => Outcome(Err(NotFound), s)
    case Some(i) =>
      if body.name != Absent && !body.name.Str? then Outcome(Err(TypeError), s)
      else
        var t := s[i := Revised(s[i], body)];
        if body.price != Absent && !IsPositiveNumber(body.price) then Outcome(Err(BadRequest(NotPositive)), t)
        else Outcome(Ok(t[i]), t)
  }

  /** The replies of PATCH, in the order the route checks: NotFound for an
      unknown id, then TypeError for a present name that is not a string,
      then BadRequest for a present price that is not a positive number;
      the required-field refusal of POST and PUT never happens. */
  lemma PatchReplies(s: seq<Product>, id: int, body: Body)
    ensures var o := PatchStep(s, id, body);
      && (o.reply == Err(NotFound) <==> !HasId(s, id))
      && (o.reply == Err(TypeError) <==> HasId(s, id) && body.name != Absent && !body.name.Str?)
      && (o.reply == Err(BadRequest(NotPositive)) <==>
            HasId(s, id) && (body.name == Absent || body.name.Str?)
            && body.price != Absent && !IsPositiveNumber(body.price))
      && o.reply != Err(BadRequest(Missing))
      && (o.reply.Ok? <==>
            HasId(s, id) && (body.name == Absent || body.name.Str?)
            && (body.price == Absent || IsPositiveNumber(body.price)))
  {
  }

  /** What a PATCH that found its record leaves behind: only that record
      changes; its id stays; its name is the trimmed new name when one was
      sent and the old name otherwise; its price is the new price when that
      is a positive number and the old price otherwise, so a refused price
      still leaves a sent name written. A successful reply is the revised
      record. */
  lemma PatchChangesOnlyTheRecord(s: seq<Product>, id: int, body: Body)
    requires HasId(s, id) && (body.name == Absent || body.name.Str?)
    ensures var o := PatchStep(s, id, body); var i := IndexOf(s, id).value;
      && |o.after| == |s|
      && (forall k :: 0 <= k < |s| && k != i ==> o.after[k] == s[k])
      && o.after[i].id == s[i].id
      && o.after[i].name == (if body.name.Str? then Trim(body.name.s) else s[i].name)
      && o.after[i].price == (if IsPositiveNumber(body.price) then body.price.n else s[i].price)
      && (o.reply.Ok? ==> o.reply.value == o.after[i])
  {
  }

  /** PATCH keeps every id in its place, keeps prices positive and keeps
      stored names trimmed. */
  lemma PatchKeepsInvariants(s: seq<Product>, id: int, body: Body)
    ensures SameIds(s, PatchStep(s, id, body).after)
    ensures AllPricesPositive(s) ==> AllPricesPositive(PatchStep(s, id, body).after)
    ensures AllNamesTrimmed(s) ==> AllNamesTrimmed(PatchStep(s, id, body).after)
  {
    if HasId(s, id) && (body.name == Absent || body.name.Str?) {
      var i := IndexOf(s, id).value;
      if body.name.Str? {
        TrimmedMeansFixed(body.name.s);
      }
      assert PatchStep(s, id, body).after == s[i := Revised(s[i], body)];
    }
  }

  // ----------------------------------------------------------------- DELETE

  /** `p => p.id !== id`, the callback of DELETE's filter. */
  function OtherThan(id: int): Product -> bool
  {
    (p: Product) => p.id != id
  }

  /** DELETE /products/:id: NotFound when no record has the id, otherwise
      every record with that id is dropped and the id is echoed back. */
  function DeleteStep(s: seq<Product>, id: int): (o: Outcome<int>)
    ensures o.reply.Err? <==> !HasId(s, id)
    ensures o.reply.Err? ==> o.reply.failure == NotFound && o.after == s
    ensures o.reply.Ok? ==> o.reply.value == id && o.after == Keep(s, OtherThan(id))
    ensures !HasId(o.after, id)
    ensures forall p :: p in o.after <==> p in s && p.id != id
    ensures AllPricesPositive(s) ==> AllPricesPositive(o.after)
  {
    if !HasId(s, id) then Outcome(Err(NotFound), s)
    else
      var r := Keep(s, OtherThan(id));
      KeepKeepsPricesPositive(s, OtherThan(id));
      assert forall k :: 0 <= k < |r| ==> r[k] in r;
      Outcome(Ok(id), r)
  }

  /** A delete keeps stored names as they were. */
  lemma DeleteKeepsNamesTrimmed(s: seq<Product>, id: int)
    requires AllNamesTrimmed(s)
    ensures AllNamesTrimmed(DeleteStep(s, id).after)
  {
    var t := DeleteStep(s, id).after;
    forall k | 0 <= k < |t| ensures IsTrimmed(t[k].name) {
      assert t[k] in s;
    }
  }

  /** Deleting keeps the remaining records in their order, and keeps ids
      unique when they were. */
  lemma DeleteKeepsOrder(s: seq<Product>, id: int)
    ensures IsSubsequence(DeleteStep(s, id).after, s)
    ensures UniqueIds(s) ==> UniqueIds(DeleteStep(s, id).after)
  {
    if HasId(s, id) {
      KeepIsSubsequence(s, OtherThan(id));
      if UniqueIds(s) {
        KeepKeepsIdsUnique(s, OtherThan(id));
      }
    } else {
      assert IsSubsequence(s, s) by { SubsequenceOfItself(s); }
    }
  }

  lemma {:induction false} SubsequenceOfItself<T>(s: seq<T>)
    ensures IsSubsequence(s, s)
  {
    if s != [] {
      SubsequenceOfItself(s[1..]);
    }
  }

  /** When ids are unique, a successful delete removes exactly one record. */
  lemma {:induction false} DeleteShrinksByOne(s: seq<Product>, id: int)
    requires UniqueIds(s) && HasId(s, id)
    ensures |DeleteStep(s, id).after| == |s| - 1
  {
    var rest := s[1..];
    if s[0].id == id {
      forall p | p in rest ensures OtherThan(id)(p) {
        var k :| 0 <= k < |rest| && rest[k] == p;
        assert s[k + 1] == p;
      }
      KeepEverything(rest, OtherThan(id));
    } else {
      assert UniqueIds(rest) by {
        forall i, j | 0 <= i < |rest| && 0 <= j < |rest| && rest[i].id == rest[j].id ensures i == j {
          assert s[i + 1].id == s[j + 1].id;
        }
      }
      var k :| 0 <= k < |s| && s[k].id == id;
      assert rest[k - 1].id == id;
      DeleteShrinksByOne(rest, id);
    }
  }
}
