/** The few JavaScript value rules the slot library relies on. */
module JsValues {
  import opened Wrappers

  /** A field value of a slot-like record. Numbers are integers in this model;
      an object or array is known only by an identity, not by its contents. */
  datatype Value = Undefined | Null | Bool(b: bool) | Num(n: int) | Str(s: string) | Obj(id: nat)

  /** `Boolean(v)`: JavaScript truthiness. The falsy values are exactly
      `undefined`, `null`, `false`, `0` and `""`; every object is truthy. */
  predicate Truthy(v: Value)
    ensures Truthy(v) <==> v !in {Undefined, Null, Bool(false), Num(0), Str("")}
  {
    match v
    case Undefined => false
    case Null => false
    case Bool(b) => b
    case Num(n) => n != 0
    case Str(s) => s != ""
    case Obj(_) => true
  }

  /** A value that `Array.isArray` either accepts (with its elements) or rejects. */
  datatype JsList<T> = NotArray | Arr(items: seq<T>)

  /** Truthiness of a time field: `null`, `undefined` and `""` are falsy. */
  predicate Present(s: Option<string>) {
    s.Some? && s.value != ""
  }

  /** `String(s).slice(0, 5)`: the first five characters, or all of a shorter string. */
  function Prefix5(s: string): (r: string)
    ensures |r| == if |s| < 5 then |s| else 5
    ensures r <= s
  {
    if |s| <= 5 then s else s[..5]
  }
}
