/**
 * Translation of the ORM's `where` filter into the store's native query
 * document (lib/tingodb.js, `all`).  The `id` key is first renamed to `_id`
 * in the caller's own where object; then every property of that object is
 * translated on its own, in enumeration order, and written into the query.
 */
module Where {
  import opened Wrappers
  import opened JsValues
  import opened ObjectIds

  // ---------------------------------------------------------------------------
  // One condition.

  /** `cond.map(x => x instanceof ObjectID ? x : new ObjectID(x))`. */
  function CoerceAll(xs: seq<Value>): (ys: seq<Value>)
    ensures |ys| == |xs|
    ensures forall i :: 0 <= i < |xs| ==> ys[i] == CoerceId(xs[i])
  {
    if xs == [] then [] else [CoerceId(xs[0])] + CoerceAll(xs[1..])
  }

  /** `cond[i]` for i = 0 or 1, read while translating the condition of key k. */
  function Element(k: string, cond: Value, i: nat): (r: Result<Value>)
    requires i < 2
    ensures r.Fail? <==> cond == Null || cond == Undefined
  {
    match cond
    case Undefined => Fail(NotIndexable(k))
    case Null => Fail(NotIndexable(k))
    case Arr(items) => Ok(if i < |items| then items[i] else Undefined)
    case Str(s) => Ok(if i < |s| then Str([s[i]]) else Undefined)
    case Obj(fields) => Ok(Get(fields, if i == 0 then "0" else "1"))
    case _ => Ok(Undefined)
  }

  /** A condition that is not an operator object: null asks for a null field, anything else is matched as is. */
  function PlainCondition(cond: Value): Value {
    if cond == Null then Obj([Field("$type", Num(10))]) else cond
  }

  /** The operator object `{op: cond}` of key k. */
  function OperatorCondition(k: string, op: string, cond: Value): Result<Value> {
    if op == "between" then
      match Element(k, cond, 0)
      case Fail(e) => Fail(e)
      case Ok(lo) =>
        match Element(k, cond, 1)
        case Fail(e) => Fail(e)
        case Ok(hi) => Ok(Obj([Field("$gte", lo), Field("$lte", hi)]))
    else if op == "inq" then
      if cond.Arr? then Ok(Obj([Field("$in", Arr(CoerceAll(cond.items)))]))
      else Fail(NotAnArray(k))
    else
      Ok(Obj([Field("$" + op, cond)]))
  }

  /** An own `constructor` property that is null or undefined: reading its `name` throws. */
  predicate ConstructorUnreadable(fields: seq<Field>) {
    && HasKey(fields, "constructor")
    && (Get(fields, "constructor") == Null || Get(fields, "constructor") == Undefined)
  }

  /**
   * `cond.constructor.name === 'Object'` for an object literal: true for the
   * inherited `Object`, and otherwise only when the own `constructor` is an
   * object whose `name` is the string "Object".
   */
  predicate SeenAsPlain(fields: seq<Field>) {
    || !HasKey(fields, "constructor")
    || (Get(fields, "constructor").Obj? && Get(Get(fields, "constructor").fields, "name") == Str("Object"))
  }

  /**
   * The query value for `where[k] = cond`.  Only an object seen as plain is
   * an operator object, and only its first key is looked at; an empty first
   * key (or none at all) is no operator, and its value is then matched plainly.
   */
  function TranslateCondition(k: string, cond: Value): Result<Value> {
    if cond.Obj? && ConstructorUnreadable(cond.fields) then Fail(NoConstructorName(k))
    else if cond.Obj? && SeenAsPlain(cond.fields) then
      var fields := cond.fields;
      var spec := if fields == [] then "" else fields[0].key;
      var inner := if fields == [] then Undefined else Get(fields, spec);
      if spec != "" then OperatorCondition(k, spec, inner)
      else Ok(PlainCondition(inner))
    else
      Ok(PlainCondition(cond))
  }

  // ---------------------------------------------------------------------------
  // Properties of the translation of one condition.

  /** `{between: [a, b, …]}` becomes `{$gte: a, $lte: b}`; further keys of the operator object are ignored. */
  lemma BetweenIsRange(k: string, a: Value, b: Value, rest: seq<Value>, others: seq<Field>)
    requires WellFormed([Field("between", Arr([a, b] + rest))] + others)
    requires SeenAsPlain([Field("between", Arr([a, b] + rest))] + others)
    ensures TranslateCondition(k, Obj([Field("between", Arr([a, b] + rest))] + others))
         == Ok(Obj([Field("$gte", a), Field("$lte", b)]))
  {
  }

  /** `{inq: xs}` becomes `{$in: ys}`: same length and order, each element kept if an ObjectID, else coerced. */
  lemma InqIsMembership(k: string, xs: seq<Value>, others: seq<Field>)
    requires WellFormed([Field("inq", Arr(xs))] + others)
    requires SeenAsPlain([Field("inq", Arr(xs))] + others)
    ensures var r := TranslateCondition(k, Obj([Field("inq", Arr(xs))] + others));
      && r.Ok? && r.value.Obj? && |r.value.fields| == 1
      && r.value.fields[0].key == "$in" && r.value.fields[0].val.Arr?
      && |r.value.fields[0].val.items| == |xs|
      && forall i :: 0 <= i < |xs| ==>
           && IsObjectID(r.value.fields[0].val.items[i])
           && r.value.fields[0].val.items[i] == (if IsObjectID(xs[i]) then xs[i] else ToObjectID(xs[i]))
  {
  }

  /** Any other operator `op` becomes `$op` with its operand unchanged; later keys are ignored. */
  lemma OtherOperatorIsPrefixed(k: string, op: string, v: Value, others: seq<Field>)
    requires op != "" && op != "between" && op != "inq"
    requires WellFormed([Field(op, v)] + others)
    requires SeenAsPlain([Field(op, v)] + others)
    ensures TranslateCondition(k, Obj([Field(op, v)] + others)) == Ok(Obj([Field("$" + op, v)]))
  {
  }

  /** null asks for a field of BSON type 10 (null); a value that is no plain object is matched as is. */
  lemma PlainValues(k: string, cond: Value)
    requires !cond.Obj?
    ensures cond == Null ==> TranslateCondition(k, cond) == Ok(Obj([Field("$type", Num(10))]))
    ensures cond != Null ==> TranslateCondition(k, cond) == Ok(cond)
  {
  }

  /**
   * An operator object with no keys translates to undefined; one whose first
   * key is empty is no operator: its value under that key is matched plainly
   * (null as `{$type: 10}`, anything else as is), never read as an operator object.
   */
  lemma NoOperatorKey(k: string, v: Value, others: seq<Field>)
    requires WellFormed([Field("", v)] + others)
    requires SeenAsPlain([Field("", v)] + others)
    ensures TranslateCondition(k, Obj([])) == Ok(Undefined)
    ensures TranslateCondition(k, Obj([Field("", v)] + others)) == Ok(PlainCondition(v))
  {
  }

  /**
   * An own `constructor` property decides whether an object is an operator
   * object: one that is null or undefined throws, and one that is not an
   * object named "Object" leaves the condition to be matched as is.
   */
  lemma OwnConstructor(k: string, fields: seq<Field>)
    requires HasKey(fields, "constructor") && !SeenAsPlain(fields)
    ensures ConstructorUnreadable(fields) ==> TranslateCondition(k, Obj(fields)) == Fail(NoConstructorName(k))
    ensures !ConstructorUnreadable(fields) ==> TranslateCondition(k, Obj(fields)) == Ok(Obj(fields))
  {
  }

  /**
   * The translation throws exactly when reading `cond.constructor.name`
   * fails, when `between` reads past null or undefined, or when `inq` is
   * given something that is not an array.
   */
  lemma TranslateFailsExactly(k: string, cond: Value)
    ensures TranslateCondition(k, cond).Fail? <==>
      && cond.Obj?
      && (|| ConstructorUnreadable(cond.fields)
          || (&& SeenAsPlain(cond.fields) && cond.fields != []
              && var op, v := cond.fields[0].key, cond.fields[0].val;
                 (op == "between" && (v == Null || v == Undefined)) || (op == "inq" && !v.Arr?)))
    ensures TranslateCondition(k, cond).Fail? ==>
      TranslateCondition(k, cond).error in {NoConstructorName(k), NotIndexable(k), NotAnArray(k)}
    ensures cond.Obj? && ConstructorUnreadable(cond.fields) ==>
      TranslateCondition(k, cond) == Fail(NoConstructorName(k))
  {
  }

  // ---------------------------------------------------------------------------
  // The `id` rewrite of the where object (lib/tingodb.js:128-135).

  /** The where object after a truthy `id` has been moved to `_id` and coerced. */
  function IdRewritten(fs: seq<Field>): seq<Field> {
    var id := Get(fs, "id");
    if Truthy(id) then Put(Delete(fs, "id"), "_id", CoerceId(id)) else fs
  }

  /**
   * A truthy `id` disappears and `_id` holds its coerced value (the id itself
   * when already an ObjectID), overwriting any `_id` given; every other key
   * keeps its value.  A falsy `id` (0, "", null, …) leaves the object alone.
   */
  lemma {:induction false} IdRewrittenProps(fs: seq<Field>)
    requires WellFormed(fs)
    ensures WellFormed(IdRewritten(fs))
    ensures !Truthy(Get(fs, "id")) ==> IdRewritten(fs) == fs
    ensures Truthy(Get(fs, "id")) ==>
      && "id" !in Keys(IdRewritten(fs))
      && "_id" in Keys(IdRewritten(fs))
      && Get(IdRewritten(fs), "_id") == CoerceId(Get(fs, "id"))
      && (IsObjectID(Get(fs, "id")) ==> Get(IdRewritten(fs), "_id") == Get(fs, "id"))
    ensures forall x :: x != "id" && x != "_id" ==>
      && (x in Keys(IdRewritten(fs)) <==> x in Keys(fs))
      && Get(IdRewritten(fs), x) == Get(fs, x)
  {
    var id := Get(fs, "id");
    if Truthy(id) {
      var d := Delete(fs, "id");
      DeleteProps(fs, "id");
      DeleteUnique(fs, "id");
      DeleteOrdered(fs, "id");
      PutProps(d, "_id", CoerceId(id));
      PutUnique(d, "_id", CoerceId(id));
      PutOrdered(d, "_id", CoerceId(id));
    }
  }

  /** Without a `_id` of its own, the rewritten object ends with the new `_id`. */
  lemma {:induction false} IdRewrittenAppends(fs: seq<Field>)
    requires WellFormed(fs)
    requires Truthy(Get(fs, "id")) && "_id" !in Keys(fs)
    ensures IdRewritten(fs) == Delete(fs, "id") + [Field("_id", CoerceId(Get(fs, "id")))]
  {
    var d := Delete(fs, "id");
    DeleteProps(fs, "id");
    HasKeyIff(d, "_id");
    NotIndex("_id");
    forall i | 0 <= i < |d| ensures !Before("_id", d[i].key) {
    }
    InsertAppends(d, "_id", CoerceId(Get(fs, "id")));
  }

  /**
   * The id is coerced before any condition is translated, so an operator
   * object under `id` becomes one ObjectID built from the whole object and
   * reaches the query matched as is: `{id: {inq: xs}}` is not a membership test.
   */
  lemma IdConditionCoercedWhole(c: seq<Field>)
    ensures IdRewritten([Field("id", Obj(c))]) == [Field("_id", ToObjectID(Obj(c)))]
    ensures QueryFor(Some([Field("id", Obj(c))])) == Ok([Field("_id", ToObjectID(Obj(c)))])
  {
    NotIndex("_id");
    assert Delete([Field("id", Obj(c))], "id") == [];
    var w := [Field("_id", ToObjectID(Obj(c)))];
    assert IdRewritten([Field("id", Obj(c))]) == w;
    assert w[..|w| - 1] == [];
    assert Translations(w[..|w| - 1]) == Ok([]);
    assert TranslateCondition("_id", ToObjectID(Obj(c))) == Ok(ToObjectID(Obj(c)));
    assert w[|w| - 1] == Field("_id", ToObjectID(Obj(c)));
    assert [] + [w[0]] == w;
    assert Translations(w) == Ok(w);
    assert AssignAll(w) == Put([], "_id", ToObjectID(Obj(c)));
  }

  /** `delete where.id; where._id = id` on the caller's where object. */
  method RewriteId(where: JsObject)
    requires where.Valid()
    modifies where
    ensures where.Valid()
    ensures where.fields == IdRewritten(old(where.fields))
  {
    IdRewrittenProps(where.fields);
    var id := Get(where.fields, "id");
    if Truthy(id) {
      where.fields := Delete(where.fields, "id");
      if !IsObjectID(id) {
        id := ToObjectID(id);
      }
      where.fields := Put(where.fields, "_id", id);
    }
  }

  // ---------------------------------------------------------------------------
  // The query document (lib/tingodb.js:136-162).

  /**
   * The entries of the where object with each condition translated, in
   * order; the first condition whose translation throws aborts the whole lot.
   */
  function Translations(fs: seq<Field>): Result<seq<Field>> {
    if fs == [] then Ok([])
    else
      match Translations(fs[..|fs| - 1])
      case Fail(e) => Fail(e)
      case Ok(ts) =>
        var last := fs[|fs| - 1];
        match TranslateCondition(last.key, last.val)
        case Fail(e) => Fail(e)
        case Ok(v) => Ok(ts + [Field(last.key, v)])
  }

  /** The query document: each translated condition assigned to its key in turn. */
  function QueryOf(fs: seq<Field>): Result<seq<Field>> {
    match Translations(fs)
    case Fail(e) => Fail(e)
    case Ok(ts) => Ok(AssignAll(ts))
  }

  /** The translations of fs, in order, as far as the first that throws. */
  predicate TranslatesUpTo(fs: seq<Field>, n: nat)
    requires n <= |fs|
  {
    forall i :: 0 <= i < n ==> TranslateCondition(fs[i].key, fs[i].val).Ok?
  }

  lemma {:induction false} TranslationsMeaning(fs: seq<Field>)
    ensures Translations(fs).Ok? <==> TranslatesUpTo(fs, |fs|)
    ensures Translations(fs).Ok? ==>
      && |Translations(fs).value| == |fs|
      && forall i :: 0 <= i < |fs| ==>
           Translations(fs).value[i] == Field(fs[i].key, TranslateCondition(fs[i].key, fs[i].val).value)
    ensures Translations(fs).Fail? ==>
      exists n :: 0 <= n < |fs| && TranslatesUpTo(fs, n)
        && TranslateCondition(fs[n].key, fs[n].val) == Fail(Translations(fs).error)
  {
    if fs != [] {
      var init, last := fs[..|fs| - 1], fs[|fs| - 1];
      TranslationsMeaning(init);
      assert forall i :: 0 <= i < |init| ==> fs[i] == init[i];
      if Translations(init).Fail? {
        var n :| 0 <= n < |init| && TranslatesUpTo(init, n)
          && TranslateCondition(init[n].key, init[n].val) == Fail(Translations(init).error);
        assert fs[n] == init[n];
      }
    }
  }

  /**
   * When every condition translates, the query has exactly the keys of the
   * where object, in the same order, each holding the translation of its
   * condition; when one throws, the query fails with the error of the first
   * that does.
   */
  lemma QueryEntryWise(fs: seq<Field>)
    requires WellFormed(fs)
    ensures QueryOf(fs).Ok? <==> TranslatesUpTo(fs, |fs|)
    ensures QueryOf(fs).Ok? ==>
      && |QueryOf(fs).value| == |fs|
      && forall i :: 0 <= i < |fs| ==>
           QueryOf(fs).value[i] == Field(fs[i].key, TranslateCondition(fs[i].key, fs[i].val).value)
    ensures QueryOf(fs).Fail? ==>
      exists n :: 0 <= n < |fs| && TranslatesUpTo(fs, n)
        && TranslateCondition(fs[n].key, fs[n].val) == Fail(QueryOf(fs).error)
  {
    TranslationsMeaning(fs);
    if Translations(fs).Ok? {
      var ts := Translations(fs).value;
      assert Keys(ts) == Keys(fs);
      AssignAllIdentity(ts);
    }
  }

  /** The loop over `Object.keys(where)` that fills the query document. */
  method BuildQuery(fs: seq<Field>) returns (r: Result<seq<Field>>)
    ensures r == QueryOf(fs)
  {
    var query: seq<Field> := [];
    ghost var ts: seq<Field> := [];
    var i := 0;
    while i < |fs|
      invariant 0 <= i <= |fs|
      invariant Translations(fs[..i]) == Ok(ts)
      invariant query == AssignAll(ts)
    {
      var k := fs[i].key;
      var cond := TranslateCondition(k, fs[i].val);
      assert fs[..i + 1][..i] == fs[..i];
      if cond.Fail? {
        TranslationsStayFailed(fs, i + 1);
        return Fail(cond.error);
      }
      query := Put(query, k, cond.value);
      ghost var prev := ts;
      ts := ts + [Field(k, cond.value)];
      assert ts[..|ts| - 1] == prev;
      i := i + 1;
    }
    assert fs[..i] == fs;
    r := Ok(query);
  }

  /** Once a prefix of the entries throws, so does every longer prefix. */
  lemma {:induction false} TranslationsStayFailed(fs: seq<Field>, n: nat)
    requires n <= |fs| && Translations(fs[..n]).Fail?
    ensures Translations(fs) == Translations(fs[..n])
    decreases |fs| - n
  {
    if n < |fs| {
      assert fs[..n + 1][..n] == fs[..n];
      TranslationsStayFailed(fs, n + 1);
    } else {
      assert fs[..n] == fs;
    }
  }

  /** The query document for a filter's where object; no where object gives the empty query. */
  function QueryFor(where: Option<seq<Field>>): Result<seq<Field>> {
    match where
    case None => Ok([])
    case Some(fs) => QueryOf(IdRewritten(fs))
  }

  /** After the rewrite, a truthy `id` never reaches the query: `_id` carries it, coerced. */
  lemma QueryHasNoId(fs: seq<Field>)
    requires WellFormed(fs) && Truthy(Get(fs, "id"))
    requires QueryFor(Some(fs)).Ok?
    ensures "id" !in Keys(QueryFor(Some(fs)).value)
    ensures "_id" in Keys(QueryFor(Some(fs)).value)
  {
    var w := IdRewritten(fs);
    IdRewrittenProps(fs);
    QueryEntryWise(w);
    var q := QueryFor(Some(fs)).value;
    assert Keys(q) == Keys(w) by {
      forall i | 0 <= i < |q| ensures Keys(q)[i] == Keys(w)[i] {
        assert q[i].key == w[i].key;
      }
    }
  }
}
