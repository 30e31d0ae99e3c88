/**
 * schema.go: one table of the key/value store. The store is a map from key
 * to value plus the order its iterator visits the keys in (new keys go to
 * the end); `open` is false once Close has released the store handle.
 */
module Schemas {
  import opened Types
  import opened Errors
  import opened Env
  import opened Sequences

  /** The values the iterator yields for `keys`, in that order. */
  function Values(keys: seq<Bytes>, store: map<Bytes, Bytes>): (vs: seq<Bytes>)
    requires forall i :: 0 <= i < |keys| ==> keys[i] in store
    ensures |vs| == |keys| && forall i :: 0 <= i < |keys| ==> vs[i] == store[keys[i]]
  {
    if keys == [] then [] else [store[keys[0]]] + Values(keys[1..], store)
  }

  /**
   * The index of the first value whose handler error stays fatal after
   * FilterError, or |vals| when every record is either accepted or demoted.
   */
  function FirstFatal(cfg: Config, handler: Bytes -> Option<Error>, vals: seq<Bytes>): (k: nat)
    ensures k <= |vals|
    ensures k < |vals| ==> FilterError(cfg, handler(vals[k])).result.Some?
    ensures forall j :: 0 <= j < k ==> FilterError(cfg, handler(vals[j])).result.None?
  {
    if vals == [] then 0
    else if FilterError(cfg, handler(vals[0])).result.Some? then 0
    else 1 + FirstFatal(cfg, handler, vals[1..])
  }

  /** The iteration order holds every stored key exactly once. */
  ghost predicate Indexed(store: map<Bytes, Bytes>, order: seq<Bytes>) {
    Distinct(order) && |order| == |store| && forall key :: key in store <==> key in order
  }

  lemma DeleteKeepsIndexed(store: map<Bytes, Bytes>, order: seq<Bytes>, key: Bytes)
    requires Indexed(store, order)
    ensures Indexed(store - {key}, Without(order, key))
  {
    if key in store {
      WithoutDistinct(order, key);
      assert |store - {key}| == |store| - 1 by {
        assert (store - {key}).Keys + {key} == store.Keys;
      }
    } else {
      WithoutAbsent(order, key);
      assert store - {key} == store;
    }
  }

  lemma PutKeepsIndexed(store: map<Bytes, Bytes>, order: seq<Bytes>, key: Bytes, value: Bytes)
    requires Indexed(store, order)
    ensures key in store ==> Indexed(store[key := value], order)
    ensures key !in store ==> Indexed(store[key := value], order + [key])
  {
    if key !in store {
      DistinctSnoc(order, key);
    } else {
      assert store[key := value].Keys == store.Keys;
    }
  }

  /** What LoadData ends with. */
  datatype LoadOutcome =
    | Loaded(count: nat)    // "Loaded N name." was logged and nil returned
    | Failed(err: Error)    // a handler error stayed fatal and was returned
    | Fatal(err: Error)     // the deferred Close failed and failOnError ended the process

  /** What Close ends with. */
  datatype CloseOutcome = Closed | CloseFailed(err: Error) | DoubleClose

  class Schema {
    var name: string
    var store: map<Bytes, Bytes>
    var order: seq<Bytes>
    var open: bool

    /** The iteration order holds every stored key exactly once. */
    ghost predicate Valid()
      reads this
    {
      Indexed(store, order)
    }

    /** An open, empty table. */
    constructor(name: string)
      ensures this.name == name && store == map[] && order == [] && open
      ensures Valid()
    {
      this.name := name;
      store := map[];
      order := [];
      open := true;
    }

    /** Name: the table's name. */
    function Name(): (r: string)
      reads this
      ensures r == name
    {
      name
    }

    /** Count: the number of stored keys, which is the length of the iteration order. */
    function Count(): (r: nat)
      reads this
      requires open
      ensures Valid() ==> r == |order|
    {
      |store|
    }

    /**
     * Close: closing twice is the source's panic; a store that fails to
     * close keeps its handle, so the table stays open.
     */
    method Close(storeClose: Option<Error>) returns (r: CloseOutcome)
      modifies this
      ensures !old(open) ==> r == DoubleClose && !open
      ensures old(open) && storeClose.Some? ==> r == CloseFailed(storeClose.value) && open
      ensures old(open) && storeClose.None? ==> r == Closed && !open
      ensures store == old(store) && order == old(order) && name == old(name)
    {
      if !open {
        return DoubleClose;
      }
      if storeClose.Some? {
        return CloseFailed(storeClose.value);
      }
      open := false;
      return Closed;
    }

    /** Put: the key now holds the value; a new key joins the end of the iteration order. */
    method Put(key: Bytes, value: Bytes)
      requires open && Valid()
      modifies this
      ensures store == old(store)[key := value]
      ensures order == if key in old(store) then old(order) else old(order) + [key]
      ensures Valid() && open && name == old(name)
      ensures key in old(store) ==> Count() == old(Count())
      ensures key !in old(store) ==> Count() == old(Count()) + 1
    {
      PutKeepsIndexed(store, order, key, value);
      if key !in store {
        order := order + [key];
      }
      store := store[key := value];
    }

    /** Delete: the key and its place in the iteration order are gone. */
    method Delete(key: Bytes)
      requires open && Valid()
      modifies this
      ensures store == old(store) - {key} && order == Without(old(order), key)
      ensures Valid() && open && name == old(name)
    {
      DeleteKeepsIndexed(store, order, key);
      order := Without(order, key);
      store := store - {key};
    }

    /** The stored values in iteration order. */
    ghost function Records(): (vs: seq<Bytes>)
      reads this
      requires Valid()
      ensures |vs| == |order|
    {
      Values(order, store)
    }

    /**
     * The iteration of LoadData: hands each stored value to `handler` in
     * iteration order. The first handler error that FilterError keeps fatal
     * deletes that record's key and ends the iteration; demoted errors count
     * as loaded.
     */
    method LoadRecords(cfg: Config, handler: Bytes -> Option<Error>)
      returns (failure: Option<Error>, loaded: nat)
      requires open && Valid()
      modifies this
      ensures Valid() && open && name == old(name)
      ensures loaded == FirstFatal(cfg, handler, old(Records()))
      ensures failure.None? <==> loaded == |old(order)|
      ensures failure.None? ==> store == old(store) && order == old(order)
      ensures failure.Some? ==> loaded < |old(order)|
                                && failure == handler(old(Records())[loaded])
                                && store == old(store) - {old(order)[loaded]}
                                && order == Without(old(order), old(order)[loaded])
    {
      ghost var vals := Records();
      ghost var k := FirstFatal(cfg, handler, vals);
      loaded := 0;
      var fatal := false;
      while loaded < |order| && !fatal
        invariant loaded <= k <= |vals| == |order|
        invariant fatal ==> loaded == k < |vals|
        decreases |order| - loaded, if fatal then 0 else 1
      {
        var value := store[order[loaded]];
        assert value == vals[loaded];
        if FilterError(cfg, handler(value)).result.Some? {
          fatal := true;
        } else {
          loaded := loaded + 1;
        }
      }
      if fatal {
        failure := handler(store[order[loaded]]);
        Delete(order[loaded]);
      } else {
        failure := None;
      }
    }

    /**
     * LoadData: LoadRecords, then the deferred Close. A normal end reports
     * the number loaded; a fatal handler error is returned; a failing close
     * ends the process whatever happened before.
     */
    method LoadData(cfg: Config, handler: Bytes -> Option<Error>, storeClose: Option<Error>)
      returns (r: LoadOutcome)
      requires open && Valid()
      modifies this
      ensures Valid() && name == old(name)
      ensures var k := FirstFatal(cfg, handler, old(Records()));
        && (storeClose.Some? ==> r == Fatal(storeClose.value) && open)
        && (storeClose.None? && k == |old(order)| ==> r == Loaded(k) && !open)
        && (storeClose.None? && k < |old(order)| ==> r == Failed(handler(old(Records())[k]).value) && !open)
      ensures FirstFatal(cfg, handler, old(Records())) < |old(order)| ==>
        store == old(store) - {old(order)[FirstFatal(cfg, handler, old(Records()))]}
      ensures FirstFatal(cfg, handler, old(Records())) == |old(order)| ==> store == old(store)
    {
      var failure, loaded;
      failure, loaded := LoadRecords(cfg, handler);
      var closed := Close(storeClose);
      if storeClose.Some? {
        r := Fatal(storeClose.value);
      } else if failure.Some? {
        r := Failed(failure.value);
      } else {
        r := Loaded(loaded);
      }
    }
  }
}
