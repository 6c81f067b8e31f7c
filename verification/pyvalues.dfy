/**
 * Loosely typed Python values, as they reach the item validator and as
 * they sit inside the item dicts that the reconciler merges.
 */
module PyValues {
  import opened Wrappers
  import Dicts

  /**
   * `Float` stands for any Python float, NaN included (pandas writes a
   * missing cell as NaN); its numeric value plays no part in the model.
   * `Null` is Python's `None`.
   */
  datatype Value =
    | Str(s: string)
    | Int(i: int)
    | Float
    | Null
    | List(items: seq<Value>)
    | Dict(entries: seq<(Value, Value)>)

  /** The Python exceptions the reconciler can raise. */
  datatype PyError = KeyError(key: string) | TypeError

  /** A string-keyed dict, such as an object's `__dict__`. */
  type Record = Dicts.Dict<string, Value>

  /** Python's binary `+` on the kinds modelled here; `None` is a TypeError. */
  function Add(a: Value, b: Value): Option<Value> {
    match (a, b)
    case (List(x), List(y)) => Some(List(x + y))
    case (Str(x), Str(y)) => Some(Str(x + y))
    case (Int(x), Int(y)) => Some(Int(x + y))
    case (Int(_), Float) => Some(Float)
    case (Float, Int(_)) => Some(Float)
    case (Float, Float) => Some(Float)
    case _ => None
  }

  /** A list can only be added to a list. */
  lemma AddListOnlyToList(x: seq<Value>, b: Value)
    ensures Add(List(x), b).Some? <==> b.List?
  {
  }
}
