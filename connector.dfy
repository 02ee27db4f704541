/**
 * The connector object itself: its per-name collection cache, the
 * `data.id === null` clean-up in `create`, the whole of `all` up to the
 * point where the cursor is handed to the store, and the mapping of the
 * store's `_id` back to `id` on the documents it returns.
 */
module Tingo {
  import opened Wrappers
  import opened JsValues
  import opened ObjectIds
  import opened Where
  import opened Order

  /** What `db.collection(name)` hands back; opaque apart from the name it was opened with. */
  class CollectionHandle {
    const name: string

    constructor (name: string)
      ensures this.name == name
    {
      this.name := name;
    }
  }

  // ---------------------------------------------------------------------------
  // Cursor configuration (lib/tingodb.js:184-191).

  /** `if (filter.limit) cursor.limit(filter.limit)`. */
  function LimitFor(limit: Value): (r: Option<Value>)
    ensures r.Some? <==> Truthy(limit)
    ensures r.Some? ==> r.value == limit
  {
    if Truthy(limit) then Some(limit) else None
  }

  /** `skip` wins over `offset`; a falsy value of either is as good as none. */
  function SkipFor(skip: Value, offset: Value): (r: Option<Value>)
    ensures Truthy(skip) ==> r == Some(skip)
    ensures !Truthy(skip) && Truthy(offset) ==> r == Some(offset)
    ensures !Truthy(skip) && !Truthy(offset) ==> r == None
  {
    if Truthy(skip) then Some(skip)
    else if Truthy(offset) then Some(offset)
    else None
  }

  /** Whatever the cursor is configured with is a truthy value taken from the filter. */
  lemma SkipIsFilterValue(skip: Value, offset: Value)
    ensures SkipFor(skip, offset).Some? ==>
      Truthy(SkipFor(skip, offset).value) && SkipFor(skip, offset).value in {skip, offset}
    ensures SkipFor(skip, offset).None? <==> !Truthy(skip) && !Truthy(offset)
  {
  }

  // ---------------------------------------------------------------------------
  // The filter and the plan `all` derives from it.

  /**
   * The parts of a filter `all` looks at: `where` (a plain object or
   * absent), `order`, `limit`, `skip` and `offset` as any values.
   */
  datatype Filter = Filter(where: Option<JsObject>, order: Value, limit: Value, skip: Value, offset: Value)

  /** What the cursor is asked for: the query, the sort document, the limit and the skip. */
  datatype Plan = Plan(query: seq<Field>, sort: Option<seq<Field>>, limit: Option<Value>, skip: Option<Value>)

  /** The cursor `all` builds: the collection it runs on and its configuration. */
  datatype Cursor = Cursor(collection: CollectionHandle, plan: Plan)

  /** `if (!filter) filter = {}`. */
  function Options(filter: Option<Filter>): Filter {
    if filter.Some? then filter.value else Filter(None, Undefined, Undefined, Undefined, Undefined)
  }

  /** The where object of a filter, as a frame. */
  function WhereObject(filter: Option<Filter>): set<JsObject> {
    if Options(filter).where.Some? then {Options(filter).where.value} else {}
  }

  /** The current contents of a filter's where object. */
  function WhereFields(filter: Option<Filter>): Option<seq<Field>>
    reads WhereObject(filter)
  {
    if Options(filter).where.Some? then Some(Options(filter).where.value.fields) else None
  }

  /**
   * The plan for a filter: the query document first, then the sort
   * document; whichever throws first decides the error.
   */
  function PlanFor(where: Option<seq<Field>>, order: Value, limit: Value, skip: Value, offset: Value): Result<Plan> {
    match QueryFor(where)
    case Fail(e) => Fail(e)
    case Ok(q) =>
      match SortFor(order)
      case Fail(e) => Fail(e)
      case Ok(s) => Ok(Plan(q, s, LimitFor(limit), SkipFor(skip, offset)))
  }

  /** With no filter at all the cursor is the whole collection, unsorted, unlimited and unskipped. */
  lemma NoFilterPlan()
    ensures var f := Options(None);
      PlanFor(None, f.order, f.limit, f.skip, f.offset) == Ok(Plan([], None, None, None))
  {
  }

  /**
   * A plan exists exactly when the where object and the order both
   * translate; it then holds the query of the where object, the sort
   * document when the order is truthy, and the cursor options.
   */
  lemma {:induction false} PlanMeaning(where: Option<seq<Field>>, order: Value, limit: Value, skip: Value, offset: Value)
    ensures PlanFor(where, order, limit, skip, offset).Ok? <==>
      QueryFor(where).Ok? && (!Truthy(order) || SortSpec(OrderItems(order)).Ok?)
    ensures QueryFor(where).Fail? ==> PlanFor(where, order, limit, skip, offset) == Fail(QueryFor(where).error)
    ensures PlanFor(where, order, limit, skip, offset).Ok? ==>
      var p := PlanFor(where, order, limit, skip, offset).value;
      && p.query == QueryFor(where).value
      && (p.sort.Some? <==> Truthy(order))
      && (p.sort.Some? ==> p.sort.value == SortSpec(OrderItems(order)).value)
      && (p.limit.Some? <==> Truthy(limit))
  {
  }

  // ---------------------------------------------------------------------------
  // Documents the store returns (lib/tingodb.js:194).

  /** `o.id = o._id`. */
  function WithId(doc: seq<Field>): seq<Field> {
    Put(doc, "id", Get(doc, "_id"))
  }

  /** A returned document gains `id` equal to its `_id`; its other properties are untouched. */
  lemma WithIdProps(doc: seq<Field>)
    requires WellFormed(doc)
    ensures WellFormed(WithId(doc))
    ensures Get(WithId(doc), "id") == Get(doc, "_id")
    ensures Get(WithId(doc), "_id") == Get(doc, "_id")
    ensures forall x :: x != "id" ==> Get(WithId(doc), x) == Get(doc, x)
    ensures forall x :: x in Keys(WithId(doc)) <==> x in Keys(doc) || x == "id"
  {
    PutProps(doc, "id", Get(doc, "_id"));
    PutUnique(doc, "id", Get(doc, "_id"));
    PutOrdered(doc, "id", Get(doc, "_id"));
  }

  /** A document without an `id` gets it as its last property. */
  lemma WithIdAppends(doc: seq<Field>)
    requires "id" !in Keys(doc)
    ensures WithId(doc) == doc + [Field("id", Get(doc, "_id"))]
  {
    HasKeyIff(doc, "id");
    NotIndex("id");
    InsertAppends(doc, "id", Get(doc, "_id"));
  }

  /** Copying `_id` into `id` twice is the same as once. */
  lemma WithIdIdempotent(doc: seq<Field>)
    ensures WithId(WithId(doc)) == WithId(doc)
  {
    var w := WithId(doc);
    PutProps(doc, "id", Get(doc, "_id"));
    HasKeyIff(w, "id");
    PutSame(w, "id");
  }

  /**
   * `data.map(function (o) { o.id = o._id; return o; })`: the same objects,
   * each updated in place. An object listed twice ends up as if updated once.
   */
  method CopyIds(docs: seq<JsObject>) returns (objs: seq<JsObject>)
    modifies set d | d in docs
    ensures objs == docs
    ensures forall i :: 0 <= i < |docs| ==> docs[i].fields == WithId(old(docs[i].fields))
  {
    var i := 0;
    while i < |docs|
      invariant 0 <= i <= |docs|
      invariant forall j :: 0 <= j < |docs| && docs[j] in docs[..i] ==> docs[j].fields == WithId(old(docs[j].fields))
      invariant forall j :: 0 <= j < |docs| && docs[j] !in docs[..i] ==> docs[j].fields == old(docs[j].fields)
    {
      var o := docs[i];
      WithIdIdempotent(old(o.fields));
      o.fields := WithId(o.fields);
      assert o.fields == WithId(old(o.fields));
      assert forall d :: d in docs[..i + 1] <==> d in docs[..i] || d == o by {
        assert docs[..i + 1] == docs[..i] + [o];
      }
      i := i + 1;
    }
    assert docs[..i] == docs;
    objs := docs;
  }

  // ---------------------------------------------------------------------------
  // `create`'s clean-up of a null id (lib/tingodb.js:54-56).

  /** `if (data.id === null) delete data.id`. */
  function NullIdDropped(fs: seq<Field>): seq<Field> {
    if Get(fs, "id") == Null then Delete(fs, "id") else fs
  }

  /** Only a null id is removed; undefined, missing and every other id stay, as does every other property. */
  lemma NullIdDroppedProps(fs: seq<Field>)
    requires WellFormed(fs)
    ensures WellFormed(NullIdDropped(fs))
    ensures Get(fs, "id") == Null ==> "id" !in Keys(NullIdDropped(fs))
    ensures Get(fs, "id") != Null ==> NullIdDropped(fs) == fs
    ensures forall x :: x != "id" ==> Get(NullIdDropped(fs), x) == Get(fs, x)
  {
    DeleteProps(fs, "id");
    DeleteUnique(fs, "id");
    DeleteOrdered(fs, "id");
  }

  // ---------------------------------------------------------------------------
  // The connector.

  /** The connector's state: the collections opened so far, cached by name. */
  class TingoDB {
    var collections: map<string, CollectionHandle>
    /** Every name the connector has asked the store to open, in order. */
    ghost var openLog: seq<string>

    ghost predicate Valid()
      reads this
    {
      && (forall i, j :: 0 <= i < j < |openLog| ==> openLog[i] != openLog[j])
      && (forall n :: n in collections <==> n in openLog)
      && (forall n :: n in collections ==> collections[n].name == n)
    }

    constructor ()
      ensures Valid()
      ensures collections == map[] && openLog == []
    {
      collections := map[];
      openLog := [];
    }

    /**
     * `collection(name)`: a cached name gives back the cached handle and
     * changes nothing; a new name is opened once and cached.
     */
    method Collection(name: string) returns (h: CollectionHandle)
      requires Valid()
      modifies this
      ensures Valid()
      ensures name in collections && h == collections[name] && h.name == name
      ensures name in old(collections) ==> collections == old(collections) && openLog == old(openLog)
      ensures name !in old(collections) ==>
        && fresh(h)
        && collections == old(collections)[name := h]
        && openLog == old(openLog) + [name]
    {
      if name !in collections {
        h := new CollectionHandle(name);
        collections := collections[name := h];
        openLog := openLog + [name];
      }
      h := collections[name];
    }

    /** `create`: a null id is dropped from data, then the model's collection is looked up. */
    method Create(model: string, data: JsObject) returns (h: CollectionHandle)
      requires Valid()
      modifies this, data
      ensures Valid()
      ensures data.fields == NullIdDropped(old(data.fields))
      ensures model in collections && h == collections[model]
      ensures model in old(collections) ==> collections == old(collections) && openLog == old(openLog)
      ensures model !in old(collections) ==>
        && fresh(h)
        && collections == old(collections)[model := h]
        && openLog == old(openLog) + [model]
    {
      if Get(data.fields, "id") == Null {
        data.fields := Delete(data.fields, "id");
      }
      h := Collection(model);
    }

    /**
     * `all` up to `cursor.toArray`: rewrites the where object's id in
     * place, builds the query, looks up the collection, then builds the
     * sort document and the cursor options. A TypeError while building the
     * query leaves the cache alone; one while building the sort document
     * comes after the collection was looked up.
     */
    method All(model: string, filter: Option<Filter>) returns (r: Result<Cursor>)
      requires Valid()
      requires Options(filter).where.Some? ==> Options(filter).where.value.Valid()
      modifies this, WhereObject(filter)
      ensures Valid()
      ensures Options(filter).where.Some? ==>
        Options(filter).where.value.fields == IdRewritten(old(Options(filter).where.value.fields))
      ensures var f := Options(filter);
        var p := PlanFor(old(WhereFields(filter)), f.order, f.limit, f.skip, f.offset);
        && (r.Ok? <==> p.Ok?)
        && (r.Fail? ==> r.error == p.error)
        && (r.Ok? ==> r.value.plan == p.value && model in collections && r.value.collection == collections[model])
      ensures QueryFor(old(WhereFields(filter))).Fail? ==>
        collections == old(collections) && openLog == old(openLog)
      ensures QueryFor(old(WhereFields(filter))).Ok? ==>
        && model in collections
        && (model in old(collections) ==> collections == old(collections) && openLog == old(openLog))
        && (model !in old(collections) ==>
              collections == old(collections)[model := collections[model]] && openLog == old(openLog) + [model])
    {
      var f := Options(filter);
      var query: seq<Field> := [];
      if f.where.Some? {
        var where := f.where.value;
        RewriteId(where);
        var q := BuildQuery(where.fields);
        if q.Fail? {
          return Fail(q.error);
        }
        query := q.value;
      }
      var h := Collection(model);
      var sort: Option<seq<Field>> := None;
      if Truthy(f.order) {
        var s := SortArgs(OrderItems(f.order));
        if s.Fail? {
          return Fail(s.error);
        }
        sort := Some(s.value);
      }
      var limit: Option<Value> := None;
      if Truthy(f.limit) {
        limit := Some(f.limit);
      }
      var skip: Option<Value> := None;
      if Truthy(f.skip) {
        skip := Some(f.skip);
      } else if Truthy(f.offset) {
        skip := Some(f.offset);
      }
      r := Ok(Cursor(h, Plan(query, sort, limit, skip)));
    }
  }
}
