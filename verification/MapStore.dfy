/** The in-memory store of sneakystack: what it means, and its methods one at a time. */
module MapStore {
  import opened Sorting

  // ----- the flat store -----

  /** What callers may believe in: objects by (kind, id), and the kinds that were ever put. */
  datatype Flat<T> = Flat(kinds: set<string>, objects: map<(string, string), T>)

  datatype Op<T> = Put(kind: string, id: string, obj: T) | Get(kind: string, id: string) | List(kind: string) | Delete(kind: string, id: string)

  datatype Ret<T> = Done | NotFound | Object(obj: T) | NilList | Objects(objs: seq<T>)

  predicate IsWrite<T>(op: Op<T>) {
    op.Put? || op.Delete?
  }

  ghost function Next<T>(f: Flat<T>, op: Op<T>): Flat<T> {
    match op
    case Put(k, i, x) => Flat(f.kinds + {k}, f.objects[(k, i) := x])
    case Delete(k, i) => Flat(f.kinds, f.objects - {(k, i)})
    case _ => f
  }

  /** `objs` are the objects of one kind, each once, in the order `ids` were visited. */
  ghost predicate Listing<T>(f: Flat<T>, kind: string, ids: seq<string>, objs: seq<T>) {
    && Distinct(ids) && |ids| == |objs|
    && (forall i :: i in Elements(ids) <==> (kind, i) in f.objects)
    && (forall n :: 0 <= n < |ids| ==> (kind, ids[n]) in f.objects && objs[n] == f.objects[(kind, ids[n])])
  }

  /** The answers an atomic flat store may give. */
  ghost predicate Answers<T>(f: Flat<T>, op: Op<T>, ret: Ret<T>) {
    match op
    case Put(_, _, _) => ret.Done?
    case Get(k, i) => ret == if (k, i) in f.objects then Object(f.objects[(k, i)]) else NotFound
    case Delete(k, i) => ret == if (k, i) in f.objects then Done else NotFound
    case List(k) =>
      if k in f.kinds then ret.Objects? && exists ids: seq<string> :: Listing(f, k, ids, ret.objs)
      else ret.NilList?
  }

  // ----- MapStore -----

  ghost predicate Agrees<T>(data: map<string, map<string, T>>, f: Flat<T>) {
    && f.kinds == data.Keys
    && (forall k, i :: (k, i) in f.objects <==> k in data && i in data[k])
    && (forall k, i :: (k, i) in f.objects ==> f.objects[(k, i)] == data[k][i])
  }

  class MapStore<T> {
    var data: map<string, map<string, T>>
    ghost var flat: Flat<T>

    ghost predicate Valid()
      reads this
    {
      Agrees(data, flat)
    }

    constructor ()
      ensures Valid() && flat == Flat({}, map[])
    {
      data := map[];
      flat := Flat({}, map[]);
    }

    method Put(kind: string, id: string, obj: T) returns (ret: Ret<T>)
      requires Valid()
      modifies this
      ensures Valid()
      ensures Answers(old(flat), Op.Put(kind, id, obj), ret) && flat == Next(old(flat), Op.Put(kind, id, obj))
    {
      if kind !in data {
        data := data[kind := map[]];
      }
      data := data[kind := data[kind][id := obj]];
      flat := Next(flat, Op.Put(kind, id, obj));
      ret := Done;
    }

    method Get(kind: string, id: string) returns (ret: Ret<T>)
      requires Valid()
      ensures Answers(flat, Op.Get(kind, id), ret)
    {
      if kind !in data {
        return NotFound;
      }
      var bucket := data[kind];
      if id !in bucket {
        return NotFound;
      }
      return Object(bucket[id]);
    }

    /** The filter argument is ignored, as in the source. */
    method List(kind: string) returns (ret: Ret<T>)
      requires Valid()
      ensures Answers(flat, Op.List(kind), ret)
    {
      if kind !in data {
        return NilList;
      }
      var bucket := data[kind];
      var result: seq<T> := [];
      ghost var ids: seq<string> := [];
      var left := bucket.Keys;
      while left != {}
        invariant left <= bucket.Keys && Elements(ids) == bucket.Keys - left
        invariant Distinct(ids) && |ids| == |result|
        invariant forall n :: 0 <= n < |ids| ==> ids[n] in bucket && result[n] == bucket[ids[n]]
        decreases |left|
      {
        var id :| id in left;
        assert id !in Elements(ids);
        assert Elements(ids + [id]) == Elements(ids) + {id};
        ids := ids + [id];
        result := result + [bucket[id]];
        left := left - {id};
      }
      assert Listing(flat, kind, ids, result);
      return Objects(result);
    }

    method Delete(kind: string, id: string) returns (ret: Ret<T>)
      requires Valid()
      modifies this
      ensures Valid()
      ensures Answers(old(flat), Op.Delete(kind, id), ret) && flat == Next(old(flat), Op.Delete(kind, id))
    {
      if kind !in data || id !in data[kind] {
        assert (kind, id) !in flat.objects;
        assert flat.objects - {(kind, id)} == flat.objects;
        return NotFound;
      }
      data := data[kind := data[kind] - {id}];
      flat := Next(flat, Op.Delete(kind, id));
      return Done;
    }
  }
}
