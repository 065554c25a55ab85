/** The Python values the Ge.tt client handles: the keyword arguments its
    callers pass and the JSON bodies its transport decodes. */
module Values {

  datatype Option<+T> = None | Some(value: T)

  datatype Result<+T, +E> = Ok(value: T) | Err(error: E)

  /** A Python 2 value as far as the client looks at it. `VStr` is the
      byte string type `str`; a decoded JSON object is a `VDict` with
      string keys. */
  datatype Value =
    | VNone
    | VBool(b: bool)
    | VInt(i: int)
    | VStr(s: string)
    | VList(items: seq<Value>)
    | VDict(fields: map<string, Value>)

  /** Python truthiness: `if not v` holds exactly when this is false. */
  predicate Truthy(v: Value) {
    match v
    case VNone => false
    case VBool(b) => b
    case VInt(i) => i != 0
    case VStr(s) => s != ""
    case VList(xs) => xs != []
    case VDict(m) => m != map[]
  }

  /** Values Python accepts as dictionary keys: lists and dicts are unhashable. */
  predicate Hashable(v: Value) {
    !v.VList? && !v.VDict?
  }

  /** The exceptions the client raises, or lets through from Python itself. */
  datatype Error =
    | MissingParams               // no keyword argument at all
    | MissingParam(name: string)  // a required credential is absent
    | FalsyParam(name: string)    // a supplied argument is falsy
    | NotAString(name: string)    // apikey or password is not a str
    | NotAnEmail                  // email has no word character, '@', word character
    | EmailNotText                // re.search on a non-string email: Python's TypeError,
                                  // kept apart from TypeError so that its cause is visible
    | MissingArgument(name: string)  // upload_file without filename or data
    | TypeError                   // a value of the wrong Python type
    | KeyError(key: string)       // a subscript of a missing key
    | AttributeError(name: string)   // an attribute read on None, or never set
    | Unrendered                  // "%s" of a list or dict, which the model does not render
}
