/**
 * The store's ObjectID type, kept opaque: the model never looks inside an
 * ObjectID and only needs to know which values already are one.
 */
module ObjectIds {
  import opened JsValues

  /** `v instanceof ObjectID`. */
  predicate IsObjectID(v: Value) {
    v.ObjectId?
  }

  /** `new ObjectID(v)`: the store's identifier built from v. */
  function ToObjectID(v: Value): (r: Value)
    ensures IsObjectID(r)
  {
    ObjectId(v)
  }

  /** The connector's coercion of an identifier: an ObjectID is kept, anything else is converted. */
  function CoerceId(v: Value): (r: Value)
    ensures IsObjectID(r)
    ensures IsObjectID(v) ==> r == v
  {
    if IsObjectID(v) then v else ToObjectID(v)
  }
}
