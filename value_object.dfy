/**
 * The value object of a typography token, shared by reference: the value
 * transforms change its fields in place.
 */
module ValueObjects {
  import opened JsObject

  class ValueObject {
    /** Own keys in insertion order. */
    var keys: seq<string>
    /** The string field of each key. */
    var props: map<string, string>

    ghost predicate Valid()
      reads this
    {
      JsObject.Valid(Record(keys, props))
    }

    /** The fields as a record value. */
    function Snapshot(): Record<string>
      reads this
    {
      Record(keys, props)
    }

    constructor (r: Record<string>)
      requires JsObject.Valid(r)
      ensures Valid() && Snapshot() == r
    {
      keys := r.keys;
      props := r.vals;
    }

    /** `Object.hasOwn(this, k)` */
    function HasOwn(k: string): bool
      reads this
    {
      k in props
    }

    /** `this[k]` for an own key. */
    function Field(k: string): string
      reads this
      requires HasOwn(k)
    {
      props[k]
    }

    /** `this[k] = v` */
    method Put(k: string, v: string)
      requires Valid()
      modifies this
      ensures Valid() && Snapshot() == Set(old(Snapshot()), k, v)
    {
      var r := Set(Record(keys, props), k, v);
      keys, props := r.keys, r.vals;
    }

    /** `delete this[k]` */
    method Remove(k: string)
      requires Valid()
      modifies this
      ensures Valid() && Snapshot() == Delete(old(Snapshot()), k)
    {
      var r := Delete(Record(keys, props), k);
      keys, props := r.keys, r.vals;
    }
  }
}
