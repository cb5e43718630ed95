/** The JavaScript values the core inspects, JavaScript truthiness, and the
    outcome type used where the source throws. */
module Values {

  /** A JavaScript value as the `is` checks see it. `Arr` is what `is.array`
      accepts, `Obj` what `is.baseObject` accepts (its keys in `Object.keys`
      order), `Func` what `is.func` accepts. */
  datatype Value =
    | Null
    | Bool(b: bool)
    | Num(n: int)
    | Str(s: string)
    | Arr(items: seq<Value>)
    | Obj(fields: seq<(string, Value)>)
    | Func(name: string)

  /** `mysql.escape`: a driver function whose definition is not part of this
      model, so every operation that uses it takes it as a parameter. */
  type Escaper = Value -> string

  /** The exceptions the core throws. */
  datatype Fault =
    | OrSyntaxNotReady   // "|| syntax not ready yet", from escape.WHERE
    | ConnectionFault    // pool.getConnection reported an error
    | QueryFault         // the query reported an error
    | NotAFunction       // the buffered callback is not callable
    | InsertsNotArray    // TypeError: the formatter's `inserts` has no `length` or no `shift`

  datatype Option<T> = None | Some(value: T)

  datatype Result<T> = Ok(value: T) | Err(fault: Fault)

  /** Text emitted before a computation that may still throw: kept when it
      succeeds, discarded with the exception otherwise. */
  function Prepend(prefix: string, r: Result<string>): (p: Result<string>)
    ensures p.Err? <==> r.Err?
    ensures p.Ok? ==> p.value == prefix + r.value
    ensures p.Err? ==> p.fault == r.fault
  {
    match r
    case Ok(s) => Ok(prefix + s)
    case Err(f) => Err(f)
  }

  lemma PrependEmpty(r: Result<string>)
    ensures Prepend("", r) == r
  {
    if r.Ok? {
      assert "" + r.value == r.value;
    }
  }

  lemma PrependTwice(a: string, b: string, r: Result<string>)
    ensures Prepend(a, Prepend(b, r)) == Prepend(a + b, r)
  {
    if r.Ok? {
      assert a + (b + r.value) == (a + b) + r.value;
    }
  }

  /** JavaScript truthiness (`x || y` yields `x` exactly when this holds). */
  predicate Truthy(v: Value) {
    match v
    case Null => false
    case Bool(b) => b
    case Num(n) => n != 0
    case Str(s) => s != ""
    case _ => true
  }

  /** The falsy values: `null`, `false`, `0` and the empty string. Empty
      arrays, empty objects, `"0"` and every function are truthy. */
  lemma FalsyValues(v: Value)
    ensures !Truthy(v) <==> v == Null || v == Bool(false) || v == Num(0) || v == Str("")
  {
  }

  /** Property access `obj[key]` on a plain object; `None` is `undefined`. */
  function Lookup(fields: seq<(string, Value)>, key: string): (r: Option<Value>)
    ensures r.None? <==> forall i :: 0 <= i < |fields| ==> fields[i].0 != key
    ensures r.Some? ==> exists i :: 0 <= i < |fields| && fields[i] == (key, r.value)
  {
    if fields == [] then None
    else if fields[0].0 == key then Some(fields[0].1)
    else Lookup(fields[1..], key)
  }
}
