# A Dafny model of the TingoDB connector's filter translation

The connector (`lib/tingodb.js`) sits between an ORM and the embedded TingoDB
store. Most of its own logic is in `all`, which turns the ORM's declarative
filter into three things:

- a native query document, built from `where`;
- a sort document, built from `order`;
- the cursor's `limit` and `skip`.

Beside `all` the model covers three smaller pieces:

- the per-name collection cache (`collection`);
- removal of a null `id` in `create`;
- copying `_id` into `id` on the documents a query returns.

Modules:

- `Wrappers` (wrappers.dfy) holds `Option`, `Result` and the `Error` values.
  An `Error` stands for a synchronous `TypeError` that the source would throw.
- `JsValues` (js_values.dfy) holds JavaScript values.
  - A plain object is a list of fields in JavaScript's enumeration order.
  - `Put` is property assignment. An existing key keeps its place. A new
    array-index key goes before the other keys, in numeric order. Any other
    new key is appended.
  - `AssignAll` is a run of assignments.
  - `JsObject` is a mutable plain object, such as `filter.where` or the
    `data` of `create`.
- `ObjectIds` (object_ids.dfy) treats `ObjectID` as opaque. `IsObjectID` is
  `instanceof ObjectID`. `ToObjectID` is `new ObjectID(v)`. `CoerceId` keeps
  an ObjectID and converts anything else.
- `Where` (where_query.dfy) translates the `where` object.
  - `RewriteId` is the in-place rewrite of `id` to `_id`.
  - `TranslateCondition` translates one condition. A condition is an
    operator object only if `cond.constructor.name === 'Object'`. An object
    literal inherits `Object` as its `constructor`, unless it has an own
    `constructor` property, which then decides.
  - The id is coerced before any condition is translated. So an operator
    object under `id`, such as `{id: {inq: [a, b]}}`, becomes one ObjectID
    built from the whole object and is matched as is
    (`IdConditionCoercedWhole`). The model keeps this behaviour of the source.
  - `BuildQuery` is the `forEach` loop that fills the query. It is proved
    equal to the specification function `QueryOf`.
- `Order` (order_spec.dfy) builds the sort document.
  - It splits a string on `,`.
  - It models the regular expression `\s+(A|DE)SC$` as an explicit suffix
    check: one or more whitespace characters, then `ASC` or `DESC`, at the
    end.
  - It removes the suffix and trims the rest, using JavaScript's set of
    whitespace characters.
  - `SortArgs` is the `for…in` loop. It is proved equal to `SortSpec`.
- `Tingo` (connector.dfy) holds the connector class `TingoDB`.
  - `TingoDB` has its collection cache and the methods `Collection`,
    `Create` and `All`.
  - The module also holds the cursor options and the post-processing of
    returned documents.

## Model

| member | source | states |
|---|---|---|
| ObjectIds.CoerceId | lib/tingodb.js:131-133 | the coerced id is always an ObjectID, and an id that already is one is kept unchanged |
| Where.CoerceAll | lib/tingodb.js:147-150 | the mapped list has the same length as the input, and each element is the coercion of the element at the same position |
| Where.Element | lib/tingodb.js:145 | reading `cond[0]`/`cond[1]` throws exactly when `cond` is null or undefined |
| Where.BetweenIsRange | lib/tingodb.js:143-145 | `{between: [a, b, …]}` becomes `{$gte: a, $lte: b}`, whatever keys follow `between` |
| Where.InqIsMembership | lib/tingodb.js:146-150 | `{inq: xs}` becomes a one-key object `{$in: ys}`, where `ys` has the length of `xs` and each `ys[i]` is `xs[i]` if that is an ObjectID and its conversion otherwise |
| Where.OtherOperatorIsPrefixed | lib/tingodb.js:151-154 | an operator object with any other non-empty first key `op` becomes `{'$'+op: value}`, and its later keys are ignored |
| Where.NoOperatorKey | lib/tingodb.js:139-143 | an empty plain object translates to undefined; for a plain object whose first key is `""`, the value under that key is matched plainly (null as `{$type: 10}`, anything else as is) and is never read as an operator object |
| Where.PlainValues | lib/tingodb.js:155-160 | a condition that is not a plain object gives `{$type: 10}` when null, and otherwise is copied unchanged |
| Where.OwnConstructor | lib/tingodb.js:139 | an object with an own `constructor` that is not an object named "Object" is no operator object: a null or undefined `constructor` throws, any other is matched as is |
| Where.TranslateFailsExactly | lib/tingodb.js:139-150 | a condition throws exactly when its own `constructor` is null or undefined, or when, as an operator object, its first key is `between` with null or undefined or `inq` with a non-array; the error names the key |
| Where.IdRewrittenProps | lib/tingodb.js:128-135 | for a truthy `where.id`: `id` is removed, `_id` holds the coerced id, every other key is unchanged, and the object stays well formed; a falsy `id` leaves `where` as it is |
| Where.IdRewrittenAppends | lib/tingodb.js:130-134 | when `_id` was absent, the rewrite is the old object without `id`, with `_id` appended last |
| Where.IdConditionCoercedWhole | lib/tingodb.js:128-134 | an operator object under `id` is coerced whole into one ObjectID and reaches the query under `_id` as that ObjectID, untranslated |
| Where.RewriteId | lib/tingodb.js:128-135 | the caller's where object is updated in place to the rewritten contents and stays well formed |
| Where.TranslationsMeaning | lib/tingodb.js:136-162 | the entry-wise translations succeed exactly when every condition translates; if one fails, it is the first failing entry that gives the error |
| Where.QueryEntryWise | lib/tingodb.js:136-162 | the query has one entry per key of `where`, in the same order, each holding its translated condition; otherwise it fails with the first condition's error |
| Where.BuildQuery | lib/tingodb.js:136-162 | the loop returns exactly the query document `QueryOf` |
| Where.TranslationsStayFailed | lib/tingodb.js:136-162 | once a condition throws, no later entry changes the outcome |
| Where.QueryHasNoId | lib/tingodb.js:127-163 | after the rewrite of a truthy `id`, the query has an `_id` key and no `id` key |
| JsValues.DeleteProps | lib/tingodb.js:130 | `delete o[k]` removes k and changes no other key and no other value |
| JsValues.PutProps | lib/tingodb.js:134 | after `o[k] = v`, `o[k]` reads v, the keys are the old keys plus k, and every other key reads as before |
| JsValues.PutSame | lib/tingodb.js:194 | assigning a key the value it already holds changes nothing |
| JsValues.AssignAllIdentity | lib/tingodb.js:136-162 | assigning the fields of a well-formed object one by one, in enumeration order, rebuilds that object |
| JsValues.AssignAllFirstOccurrence | lib/tingodb.js:171-181 | without array-index keys, a run of assignments lists each key where it was first assigned |
| JsValues.AssignAllStringKeyOrder | lib/tingodb.js:171-181 | in a run of assignments the keys that are not array indices are listed where they were first assigned, whatever index keys are mixed in |
| JsValues.AssignAllLastWins | lib/tingodb.js:172-181 | after a run of assignments, a key reads the value of its last assignment |
| Order.IndexOfComma | lib/tingodb.js:169 | the first comma's position: a comma is there and none comes before it |
| Order.SplitPieces | lib/tingodb.js:168-170 | `split(',')` gives at least one piece, and no piece contains a comma |
| Order.SplitJoin | lib/tingodb.js:169 | joining the pieces with commas gives back the string |
| Order.SuffixWord | lib/tingodb.js:173 | the matched word is `ASC`, `DESC` or nothing; when it is a word, it ends the string and whitespace comes right before it |
| Order.DescendingIff | lib/tingodb.js:173-177 | a key is descending exactly when it ends in whitespace followed by `DESC` |
| Order.AscendingOtherwise | lib/tingodb.js:176-180 | every other key, including one ending in whitespace plus `ASC`, has direction 1; each direction is 1 or -1 |
| Order.SuffixRemoved | lib/tingodb.js:173-177 | for `p + spaces + ASC/DESC` the stored key is `p` trimmed, with direction -1 for DESC and 1 for ASC |
| Order.NoSuffixTrimmed | lib/tingodb.js:175-179 | a key without the suffix is stored trimmed with direction 1 |
| Order.TrimmedHasNoEdgeSpace | lib/tingodb.js:175 | `trim()` removes only leading and trailing whitespace (`s == a + Trim(s) + b` with a and b all whitespace) and leaves no whitespace at either end |
| Order.OrderItems | lib/tingodb.js:166-172 | a string order gives exactly the pieces of its `split(',')`, in order, as strings |
| Order.ItemKeysMeaning | lib/tingodb.js:172-175 | the items are read as keys exactly when all are strings; otherwise `match` throws at the first non-string |
| Order.SortSpecMeaning | lib/tingodb.js:166-181 | the sort document exists exactly when every item is a string; its keys are exactly the stored keys, each once, and every value is 1 or -1 |
| Order.SortSpecInOrder | lib/tingodb.js:171-182 | when no stored key is an array index, the sort document lists the distinct stored keys in the order they first occur, which is the sort priority given to `cursor.sort` |
| Order.SortSpecKeyOrder | lib/tingodb.js:171-182 | for string items, the sort document lists the array-index keys first, in numeric order, then the other stored keys in the order they first occur |
| Order.SortSpecDistinct | lib/tingodb.js:171-182 | with distinct stored keys that are not array indices, the sort document is exactly one entry per item, in order, each with its direction |
| Order.SortSpecLastWins | lib/tingodb.js:176-180 | a stored key maps to the direction of its last occurrence: a later duplicate overwrites an earlier one |
| Order.SortArgs | lib/tingodb.js:171-181 | the `for…in` loop returns exactly the sort document `SortSpec` |
| Order.ExampleIndexKeyFirst | lib/tingodb.js:171-181 | the keys `b` then `2` give a sort document that enumerates `2` before `b`, as JavaScript objects do |
| Tingo.LimitFor | lib/tingodb.js:184-186 | a limit is applied exactly when `filter.limit` is truthy, and it is that value |
| Tingo.SkipFor | lib/tingodb.js:187-191 | a truthy `skip` is used; otherwise a truthy `offset`; otherwise no skip |
| Tingo.SkipIsFilterValue | lib/tingodb.js:187-191 | a chosen skip is a truthy value, either `skip` or `offset`; there is no skip exactly when both are falsy |
| Tingo.NoFilterPlan | lib/tingodb.js:123-126 | a missing filter gives the empty query, no sort, no limit and no skip |
| Tingo.PlanMeaning | lib/tingodb.js:126-191 | a plan exists exactly when the query translates and, for a truthy order, the sort document does; a query error comes first; a sort is present exactly when `order` is truthy |
| Tingo.WithIdProps | lib/tingodb.js:194 | a returned document gains `id` equal to its `_id`; `_id` and every other property are unchanged, and its keys are the old keys plus `id` |
| Tingo.WithIdAppends | lib/tingodb.js:194 | a document without `id` gets `id` as its last property |
| Tingo.WithIdIdempotent | lib/tingodb.js:194 | copying `_id` into `id` twice is the same as once |
| Tingo.CopyIds | lib/tingodb.js:194 | `data.map` returns the same objects, each updated in place with `id` set to its `_id`, even if an object appears twice |
| Tingo.NullIdDroppedProps | lib/tingodb.js:54-56 | only an `id` that is strictly null is removed (undefined and missing ids are kept); every other property is unchanged and the object stays well formed |
| Tingo.CollectionHandle.constructor | lib/tingodb.js:48 | a handle remembers the name it was opened with |
| Tingo.TingoDB.constructor | lib/tingodb.js:26 | a new connector has an empty collection cache |
| Tingo.TingoDB.Collection | lib/tingodb.js:46-51 | a cached name returns the same handle and changes nothing; a new name is opened once, is cached under that name, and leaves other cached names unchanged; no name is ever opened twice (`Valid`) |
| Tingo.TingoDB.Create | lib/tingodb.js:53-57 | `data` is replaced by its contents with a null id dropped, then the model's collection is fetched through the cache |
| Tingo.TingoDB.All | lib/tingodb.js:121-191 | where's id is rewritten in place; the result is exactly `PlanFor` of the filter, on the model's cached collection; a throwing where conversion leaves the cache unchanged, and otherwise the model's collection is looked up through the cache |

## Left out

- Calls into the embedded store are left out because they are foreign I/O with no visible semantics. These are `Db`, `insert`, `update`, `findOne`, `remove`, `count`, `findAndModify`, `cursor.toArray` and `close`. A collection handle is an opaque object that carries its name.
- `save`, `exists`, `find`, `destroy` and `updateAttributes` are left out. Each coerces the id (modelled by `CoerceId`) and then makes one store call. Beyond that:
  - `find` also sets `data.id = id` on the document it gets back (lib/tingodb.js:86);
  - `exists` reports `!!(!err && data)` (lib/tingodb.js:77).
  Both act only on what the store returns.
- `count`, `destroyAll` and `disconnect` are left out. Each is one store call with no id coercion.
- `updateOrCreate` is left out because it is asynchronous orchestration over `find`, `updateAttributes` and `create`. It also mutates `data`: it runs `delete data.id` before creating (lib/tingodb.js:99), then `data.id = id; delete data._id` once the store answers (lib/tingodb.js:103-104). Its `this.create(data, callback)` (lib/tingodb.js:93) passes no model argument.
- Callbacks and `process.nextTick` are left out. A `TypeError` that `all` throws synchronously becomes a `Fail` result.
- `include` is left out because it calls out to the ORM's `model.include`.
- `define` and `defineProperty` are left out because they only record ORM descriptors.
- `initialize` is left out. It builds the connector, opens the store and sets `dataSource.ObjectID`; the model's part of that is `TingoDB.constructor`.
- `defineForeignKey` is left out. It hands the ORM the coercion function `TingoObjectID` through a callback, and that function is `ToObjectID`.
- `example/app.js` and `test/init.js` are not part of this model.
- The internals of `ObjectID` construction are left out. Construction never fails here.
- `NaN` and fractional numbers are not modelled: every modelled number is an integer. So a falsy `NaN`, as in `limit: NaN` (lib/tingodb.js:184) or `where: {id: NaN}` (lib/tingodb.js:128), cannot be expressed.
- A truthy `where` that is not a plain object is left out (for example a string or an array): `Filter.where` is a plain object or absent.
- Inherited properties are left out. `this.collections` is modelled as a map with no inherited keys, so `collection('constructor')` or `collection('toString')` are not modelled as returning `Object.prototype` members. The same goes for `for…in` over inherited enumerable properties of `order`.
- Order values that are neither strings, arrays nor plain objects are modelled as having no enumerable properties, so they give an empty sort document. These are numbers, booleans, ObjectIDs and other objects.
- Arrays are dense lists. Holes and extra non-index properties on an array are not modelled.
- Where.Element: strings are sequences of Unicode scalar values, not UTF-16 code units. So `cond[0]`/`cond[1]` of a string operand of `between` that holds a character outside the Basic Multilingual Plane gives the whole character, where JavaScript gives one surrogate half. Splitting, trimming, the suffix test and truthiness are not affected.
- Where.Element: treats a non-plain object (an ObjectID or another class instance) as having no `0` or `1` property, because the model does not look inside such objects.
- JsValues.Put: treats `__proto__` as an ordinary key. In JavaScript, `o['__proto__'] = v` sets the prototype and creates no own property. So Where.QueryOf and Order.ArgsOf differ from the source for a where key or an order key `__proto__`.
- Where.SeenAsPlain: reads the `name` of an own `constructor` only when that is a plain object. A function, ObjectID or other class instance held there counts as not named "Object".
- Where.BetweenIsRange, Where.InqIsMembership, Where.OtherOperatorIsPrefixed and Where.NoOperatorKey: cover only operator objects seen as plain, with a well-formed list of keys. `Where.OwnConstructor` and `Where.TranslateFailsExactly` give the other operator objects.
