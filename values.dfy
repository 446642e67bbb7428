/** The Python objects that flow through the pipeline: the values of a parsed
    configuration file, which become the context a template is rendered with. */
module Values {

  /** A Python `float`: a finite number (the sign of a zero is not kept), an infinity,
      or NaN, which pandas uses for a missing cell. */
  datatype PyFloat = Finite(x: real) | Infinity(negative: bool) | NotANumber

  /** A Python value as the validators and the configuration parser see it.
      `Decimal` holds an integral `decimal.Decimal`; every other object
      (a date, a function) is `Opaque`, identified by its type name. */
  datatype Value =
    | NoneValue
    | Bool(b: bool)
    | Int(i: int)
    | Decimal(d: int)
    | Float(f: PyFloat)
    | Str(s: string)
    | ListValue(items: seq<Value>)
    | DictValue(entries: map<string, Value>)
    | Opaque(typeName: string)

  /** The keyword arguments a template is rendered with. */
  type Context = map<string, Value>
}
