/** InMemoryRepository: a dictionary from Guid to entity, mutated by create, update
    and delete. Besides the dictionary, each repository keeps a ghost trace of the
    calls made on it, so that handlers can state which repository calls they make
    (what the unit tests check with mocks). */
module InMemory {
  import opened Domain

  datatype RepoCall =
    | GetAllCall
    | GetSingleCall(id: Guid)
    | CreateSingleCall(entity: Option<Product>)
    | UpdateSingleCall(entity: Option<Product>)
    | DeleteSingleCall(entity: Option<Product>)

  /** The only exception the repository raises itself. */
  datatype RepositoryError = ArgumentNull

  datatype Result<T> = Returned(value: T) | Threw(error: RepositoryError)

  /** Every product is stored under its own id. */
  ghost predicate Keyed(store: map<Guid, Product>) {
    forall k :: k in store ==> store[k].id == k
  }

  /** `after` is `before` with the quantity of product `id` set to `q` and nothing
      else changed: no other field of it, no other product, no key. */
  ghost predicate OnlyQuantityChanged(before: map<Guid, Product>, after: map<Guid, Product>, id: Guid, q: Int32) {
    && id in before
    && after.Keys == before.Keys
    && after[id].quantity == q
    && SameExceptQuantity(before[id], after[id])
    && forall k :: k in before && k != id ==> after[k] == before[k]
  }

  /** The set of ids of a list of products. */
  ghost function IdsOf(ps: seq<Product>): set<Guid> {
    set i | 0 <= i < |ps| :: ps[i].id
  }

  lemma {:induction false} IdsOfAppend(ps: seq<Product>, p: Product)
    ensures IdsOf(ps + [p]) == IdsOf(ps) + {p.id}
  {
    var qs := ps + [p];
    assert forall i :: 0 <= i < |ps| ==> qs[i] == ps[i];
    assert qs[|ps|] == p;
  }

  /** `all` lists every stored product exactly once, in some order. */
  ghost predicate Lists(all: seq<Product>, store: map<Guid, Product>) {
    && |all| == |store|
    && IdsOf(all) == store.Keys
    && (forall i :: 0 <= i < |all| ==> all[i].id in store && store[all[i].id] == all[i])
    && (forall i, j :: 0 <= i < j < |all| ==> all[i].id != all[j].id)
  }

  /** `all` lists the stored products whose ids are in `listed`, each exactly once. */
  ghost predicate ListsPart(all: seq<Product>, listed: set<Guid>, store: map<Guid, Product>) {
    && listed <= store.Keys
    && IdsOf(all) == listed
    && |all| == |listed|
    && (forall i :: 0 <= i < |all| ==> all[i].id in store && store[all[i].id] == all[i])
    && (forall i, j :: 0 <= i < j < |all| ==> all[i].id != all[j].id)
  }

  lemma {:induction false} ListsPartStep(all: seq<Product>, listed: set<Guid>, store: map<Guid, Product>, k: Guid)
    requires Keyed(store) && ListsPart(all, listed, store)
    requires k in store && k !in listed
    ensures ListsPart(all + [store[k]], listed + {k}, store)
  {
    var p := store[k];
    var next := all + [p];
    IdsOfAppend(all, p);
    assert forall i :: 0 <= i < |all| ==> next[i] == all[i];
    assert forall i :: 0 <= i < |all| ==> all[i].id in IdsOf(all);
    assert |listed + {k}| == |listed| + 1;
  }

  lemma {:induction false} ListsPartComplete(all: seq<Product>, store: map<Guid, Product>)
    requires ListsPart(all, store.Keys, store)
    ensures Lists(all, store)
  {
  }

  class InMemoryRepository {
    var data: map<Guid, Product>
    ghost var calls: seq<RepoCall>

    ghost predicate Valid()
      reads this
    {
      Keyed(data)
    }

    constructor ()
      ensures Valid() && data == map[] && calls == []
    {
      data := map[];
      calls := [];
    }

    /** GetAllAsync: the dictionary's values, in the dictionary's (unspecified) order. */
    method GetAll() returns (all: seq<Product>)
      requires Valid()
      modifies this`calls
      ensures calls == old(calls) + [GetAllCall]
      ensures Lists(all, data)
    {
      all := [];
      var remaining := data.Keys;
      ghost var listed: set<Guid> := {};
      while remaining != {}
        invariant calls == old(calls)
        invariant listed + remaining == data.Keys && listed !! remaining
        invariant ListsPart(all, listed, data)
        decreases remaining
      {
        var k :| k in remaining;
        ListsPartStep(all, listed, data, k);
        all := all + [data[k]];
        listed := listed + {k};
        remaining := remaining - {k};
      }
      ListsPartComplete(all, data);
      calls := calls + [GetAllCall];
    }

    /** GetSingleAsync: the entity stored under `id`, or null. */
    method GetSingle(id: Guid) returns (r: Option<Product>)
      requires Valid()
      modifies this`calls
      ensures calls == old(calls) + [GetSingleCall(id)]
      ensures r.Some? <==> id in data
      ensures r.Some? ==> r.value == data[id] && r.value.id == id
    {
      calls := calls + [GetSingleCall(id)];
      r := if id in data then Some(data[id]) else None;
    }

    /** CreateSingleAsync: `key` is the Guid.NewGuid() the repository draws and `now`
        the clock reading; both overwrite what the entity carried. */
    method CreateSingle(entity: Option<Product>, key: Guid, now: Instant) returns (r: Result<Product>)
      requires Valid()
      modifies this
      ensures Valid()
      ensures calls == old(calls) + [CreateSingleCall(entity)]
      ensures entity.None? ==> r == Threw(ArgumentNull) && data == old(data)
      ensures entity.Some? ==> r.Returned? && r.value == entity.value.(id := key, createdOnUtc := now)
      ensures entity.Some? ==> data == old(data)[key := r.value]
    {
      calls := calls + [CreateSingleCall(entity)];
      if entity.None? {
        return Threw(ArgumentNull);
      }
      var e := entity.value.(id := key);
      e := e.(createdOnUtc := now);
      data := data[key := e];
      r := Returned(e);
    }

    /** UpdateSingleAsync: stores the entity under its own id, inserting it when the key
        is absent. */
    method UpdateSingle(entity: Option<Product>) returns (r: Result<()>)
      requires Valid()
      modifies this
      ensures Valid()
      ensures calls == old(calls) + [UpdateSingleCall(entity)]
      ensures entity.None? ==> r == Threw(ArgumentNull) && data == old(data)
      ensures entity.Some? ==> r == Returned(()) && data == old(data)[entity.value.id := entity.value]
    {
      calls := calls + [UpdateSingleCall(entity)];
      if entity.None? {
        return Threw(ArgumentNull);
      }
      data := data[entity.value.id := entity.value];
      r := Returned(());
    }

    /** DeleteSingleAsync: removes the entity's id; an absent id is left alone. */
    method DeleteSingle(entity: Option<Product>) returns (r: Result<()>)
      requires Valid()
      modifies this
      ensures Valid()
      ensures calls == old(calls) + [DeleteSingleCall(entity)]
      ensures entity.None? ==> r == Threw(ArgumentNull) && data == old(data)
      ensures entity.Some? ==> r == Returned(()) && data == old(data) - {entity.value.id}
      ensures entity.Some? && entity.value.id !in old(data) ==> data == old(data)
    {
      calls := calls + [DeleteSingleCall(entity)];
      if entity.None? {
        return Threw(ArgumentNull);
      }
      data := data - {entity.value.id};
      r := Returned(());
    }
  }
}
