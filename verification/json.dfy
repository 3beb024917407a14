/** JSON values as the application exchanges them, and the shallow object
    spread `{ ...base, ...patch }` the reducers use to merge plain objects. */
module Json {

  datatype Value =
    | Null
    | Bool(b: bool)
    | Num(n: real)
    | Str(s: string)
    | Arr(items: seq<Value>)
    | Obj(fields: map<string, Value>)

  /** A plain object: its own enumerable properties and their values. */
  type Record = map<string, Value>

  /** `{ ...base, ...patch }`: every key of `patch` takes the patch's value,
      every other key of `base` keeps its value, and no other key appears. */
  function Merge(base: Record, patch: Record): (r: Record)
    ensures r.Keys == base.Keys + patch.Keys
    ensures forall k | k in patch :: r[k] == patch[k]
    ensures forall k | k in base && k !in patch :: r[k] == base[k]
  {
    base + patch
  }

  lemma MergeEmptyPatch(base: Record)
    ensures Merge(base, map[]) == base
  {
  }

  lemma MergeAssociative(a: Record, b: Record, c: Record)
    ensures Merge(Merge(a, b), c) == Merge(a, Merge(b, c))
  {
  }

  /** Applying the same patch twice is the same as applying it once. */
  lemma MergeIdempotent(a: Record, b: Record)
    ensures Merge(Merge(a, b), b) == Merge(a, b)
  {
  }

  /** JavaScript truthiness of a present value: `null`, `false`, zero and
      the empty string are falsy, everything else is truthy. */
  predicate Truthy(v: Value)
  {
    match v
    case Null => false
    case Bool(b) => b
    case Num(n) => n != 0.0
    case Str(s) => s != []
    case _ => true
  }
}
