/** The dictionaries the core passes around: generation options (`**kwargs`)
 *  and the per-trial records the metrics logger keeps. A Python dict is kept
 *  as its entries in insertion order, with no key twice. */
module Records {

  datatype Option<+T> = None | Some(value: T) {
    function GetOr(default: T): T {
      match this
      case Some(v) => v
      case None => default
    }
  }

  /** The values that occur in the core's dicts: `True`/`False`, `None`,
   *  a float (a duration or a sampling parameter) and a `str`. */
  datatype Value = BoolVal(b: bool) | NoneVal | NumVal(x: real) | TextVal(s: string)

  datatype Field = Field(key: string, value: Value)

  ghost predicate DistinctKeys(fields: seq<Field>) {
    forall i, j :: 0 <= i < j < |fields| ==> fields[i].key != fields[j].key
  }

  /** A dict: its entries in insertion order. */
  type Record = fields: seq<Field> | DistinctKeys(fields)

  /** `d.keys()`, in insertion order. */
  function Keys(fields: seq<Field>): (ks: seq<string>)
    ensures |ks| == |fields|
    ensures forall i :: 0 <= i < |fields| ==> ks[i] == fields[i].key
  {
    if fields == [] then [] else [fields[0].key] + Keys(fields[1..])
  }

  /** `d.get(key)`: the value stored under `key`, if any. */
  function Get(fields: seq<Field>, key: string): (v: Option<Value>)
    ensures v.Some? <==> key in Keys(fields)
    ensures forall i :: 0 <= i < |fields| && fields[i].key == key && DistinctKeys(fields)
                        ==> v == Some(fields[i].value)
  {
    if fields == [] then None
    else if fields[0].key == key then Some(fields[0].value)
    else Get(fields[1..], key)
  }
}
