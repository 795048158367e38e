/** The object graph a notifiable record exposes to the engine: the values its
    attributes hold, Ruby's `present?` and truthiness on them, and `send`. */
module Values {

  /** What can go wrong when the engine talks to a record: `send` of a name the
      receiver does not answer (Ruby's NoMethodError). */
  datatype Error = NoMethod(name: string)

  datatype Option<+T> = None | Some(value: T)

  datatype Result<+T> = Ok(value: T) | Err(error: Error)

  /** A Ruby value as far as the engine can tell them apart. An `Obj` is a
      record (the notifiable itself or an associated one): its map answers
      `send` for attribute readers and dirty-tracking queries alike, so
      `"vin"` and `"vin_changed?"` are both keys of it. */
  datatype Value =
    | Nil
    | Bool(b: bool)
    | Int(i: int)
    | Str(s: string)
    | Obj(attrs: map<string, Value>)

  /** The characters `blank?` treats as space (ASCII only). */
  predicate IsSpace(c: char) {
    c == ' ' || c == '\t' || c == '\n' || c == '\r' || c == '\U{000B}' || c == '\U{000C}'
  }

  /** Ruby's `present?`: nil, false and blank strings are not present; any
      record is. */
  predicate Present(v: Value) {
    match v
    case Nil => false
    case Bool(b) => b
    case Int(_) => true
    case Str(s) => exists i :: 0 <= i < |s| && !IsSpace(s[i])
    case Obj(_) => true
  }

  /** Ruby truthiness: everything but nil and false. */
  predicate Truthy(v: Value) {
    v != Nil && v != Bool(false)
  }

  /** `recv.send(name)`: a record answers the names its map holds; anything
      else raises NoMethodError. A name the record lacks is not routed
      through the mixin's `method_missing` here. */
  function Send(recv: Value, name: string): (r: Result<Value>)
    ensures r.Ok? <==> recv.Obj? && name in recv.attrs
    ensures r.Ok? ==> r.value == recv.attrs[name]
    ensures r.Err? ==> r.error == NoMethod(name)
  {
    if recv.Obj? && name in recv.attrs then Ok(recv.attrs[name]) else Err(NoMethod(name))
  }
}
