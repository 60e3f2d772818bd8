/** JavaScript values as the WSAPI client meets them: parsed response bodies,
    request arguments, the session record.  Only the rules the client relies on
    are modelled: truthiness, `typeof v === 'object'`, and reading or writing a
    named property (which throws a TypeError on null and undefined). */
module Js {

  datatype Option<+T> = None | Some(value: T) {
    function GetOr(default: T): T {
      match this
      case Some(v) => v
      case None => default
    }
  }

  /** The errors a client call can report.  `TransportError` passes the
      transport's own error through; `HttpError` is the string the session
      negotiation throws on a status other than 200; `SyntaxError` is what
      JSON.parse throws; `TypeError` is a property access on null/undefined. */
  datatype Error =
    | TransportError(cause: string)
    | HttpError
    | SyntaxError
    | TypeError

  datatype Result<+T> = Ok(value: T) | Err(error: Error)

  /** A JavaScript value.  Numbers are integers here; objects map property
      names to values (their key order is not modelled). */
  datatype JsValue =
    | Undefined
    | Null
    | Bool(b: bool)
    | Num(n: int)
    | Str(s: string)
    | Arr(items: seq<JsValue>)
    | Obj(fields: map<string, JsValue>)

  /** JavaScript truthiness: false, 0, "", null and undefined are falsy. */
  predicate Truthy(v: JsValue) {
    match v
    case Undefined => false
    case Null => false
    case Bool(b) => b
    case Num(n) => n != 0
    case Str(s) => s != ""
    case Arr(_) => true
    case Obj(_) => true
  }

  /** `typeof v === 'object'`, which holds for null as well. */
  predicate IsObjectType(v: JsValue) {
    v.Null? || v.Arr? || v.Obj?
  }

  /** `v[key]` for a key that is not an array index and that no prototype
      defines (as `csrf_token` and `csrf`, the only keys the client reads or
      writes): a TypeError on null and undefined, the field of an object,
      undefined for every other value. Inherited keys such as `length` or
      `toString` are not modelled. */
  function GetProp(v: JsValue, key: string): (r: Result<JsValue>)
    ensures r.Err? <==> v.Undefined? || v.Null?
    ensures r.Err? ==> r.error == TypeError
    ensures v.Obj? && key in v.fields ==> r == Ok(v.fields[key])
    ensures r.Ok? && r.value != Undefined ==> v.Obj? && key in v.fields
  {
    match v
    case Undefined => Err(TypeError)
    case Null => Err(TypeError)
    case Obj(fields) => Ok(if key in fields then fields[key] else Undefined)
    case _ => Ok(Undefined)
  }

  /** `v[key] = x` for a key that is not an array index: a TypeError on null
      and undefined; an object gains or overwrites that field; on any other
      value the write leaves nothing this model can observe. */
  function SetProp(v: JsValue, key: string, x: JsValue): (r: Result<JsValue>)
    ensures r.Err? <==> v.Undefined? || v.Null?
    ensures r.Err? ==> r.error == TypeError
    ensures !v.Obj? && r.Ok? ==> r.value == v
    ensures v.Obj? ==> r.Ok? && r.value.Obj? && r.value.fields.Keys == v.fields.Keys + {key}
    ensures v.Obj? ==> GetProp(r.value, key) == Ok(x)
    ensures v.Obj? ==> forall k :: k in v.fields && k != key ==> GetProp(r.value, k) == GetProp(v, k)
  {
    match v
    case Undefined => Err(TypeError)
    case Null => Err(TypeError)
    case Obj(fields) => Ok(Obj(fields[key := x]))
    case _ => Ok(v)
  }
}
