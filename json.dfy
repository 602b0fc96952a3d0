/** An already-parsed JSON document, and the two lookups that Swift's keyed
    decoding container offers for a `String` field: `decode` and
    `decodeIfPresent`. Byte-level parsing is not modelled; decoding starts
    from the parsed value. */
module Json {

  datatype Option<+T> = None | Some(value: T)

  /** The kinds of `DecodingError` the decoders below can raise, with the
      key they were raised for; the empty key stands for the value being
      decoded itself. */
  datatype DecodeError =
    | KeyNotFound(key: string)
    | ValueNotFound(key: string)
    | TypeMismatch(key: string)

  /** A decode either yields a value or throws; usable with `:-`. */
  datatype Result<+T> = Ok(value: T) | Err(error: DecodeError) {
    predicate IsFailure() {
      Err?
    }

    function PropagateFailure<U>(): Result<U>
      requires Err?
    {
      Err(error)
    }

    function Extract(): T
      requires Ok?
    {
      value
    }
  }

  /** A JSON value. Numbers and booleans are not distinguished: every decoder
      here treats them alike, as "not a string". */
  datatype JVal =
    | JNull
    | JStr(s: string)
    | JArr(items: seq<JVal>)
    | JObj(fields: map<string, JVal>)
    | JOther

  type JObject = map<string, JVal>

  /** A value that is present but is neither a string nor null: decoding it as
      a `String` is a type mismatch. */
  predicate WrongType(v: JVal) {
    !v.JNull? && !v.JStr?
  }

  /** `container.decode(String.self, forKey: key)`: a missing key, a null and
      a non-string all throw. */
  function Decode(obj: JObject, key: string): (r: Result<string>)
    ensures r.Ok? <==> key in obj && obj[key].JStr?
    ensures r.Ok? ==> r.value == obj[key].s
    ensures key !in obj ==> r == Err(KeyNotFound(key))
    ensures key in obj && obj[key].JNull? ==> r == Err(ValueNotFound(key))
  {
    if key !in obj then Err(KeyNotFound(key))
    else match obj[key]
      case JStr(s) => Ok(s)
      case JNull => Err(ValueNotFound(key))
      case _ => Err(TypeMismatch(key))
  }

  /** `container.decodeIfPresent(String.self, forKey: key)`: a missing key and
      a null both give `nil`; only a present non-string value throws. */
  function DecodeIfPresent(obj: JObject, key: string): (r: Result<Option<string>>)
    ensures r.Err? <==> key in obj && WrongType(obj[key])
    ensures r == Ok(None) <==> key !in obj || obj[key].JNull?
    ensures key in obj && obj[key].JStr? ==> r == Ok(Some(obj[key].s))
  {
    if key !in obj then Ok(None)
    else match obj[key]
      case JNull => Ok(None)
      case JStr(s) => Ok(Some(s))
      case _ => Err(TypeMismatch(key))
  }

  /** `decoder.container(keyedBy:)`: only an object has keys; a null is a
      missing value and anything else a type mismatch. */
  function Container(v: JVal): (r: Result<JObject>)
    ensures r.Ok? <==> v.JObj?
    ensures r.Ok? ==> r.value == v.fields
    ensures v.JNull? ==> r == Err(ValueNotFound(""))
    ensures !v.JObj? && !v.JNull? ==> r == Err(TypeMismatch(""))
  {
    match v
    case JObj(fields) => Ok(fields)
    case JNull => Err(ValueNotFound(""))
    case _ => Err(TypeMismatch(""))
  }
}
