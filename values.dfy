/** Values of the YAML documents the bot reads (ad definitions and the
    configuration), Python's truthiness on them, the failures the loader can
    raise, and the two ways the source reads a field: `ad_cfg[key]` (which
    raises KeyError) and `utils.safe_get` (which yields None). */
module Values {

  /** A YAML value as the bot sees it after loading. */
  datatype Value =
    | Null
    | Bool(b: bool)
    | Int(i: int)
    | Str(s: string)
    | List(items: seq<Value>)
    | Dict(entries: map<string, Value>)

  /** One ad definition: a Python dict with string keys. */
  type Ad = map<string, Value>

  /** Everything that aborts `load_ads` or the write-back. */
  datatype Error =
    | MissingKey(key: string)                    // KeyError on ad_cfg[key]
    | TypeMismatch(path: seq<string>)            // TypeError: the value has the wrong kind
    | BadInteger(path: seq<string>)              // ValueError raised by int(...)
    | DescriptionTooLong(length: nat)            // description beyond 4000 characters
    | NotOneOf(path: seq<string>)                // assert_one_of
    | TooShort(path: seq<string>, minLen: nat)   // assert_min_len
    | NotSpecified(path: seq<string>)            // assert_has_value
    | PriceWithGiveAway                          // price given for a GIVE_AWAY ad
    | UnsupportedImageType(file: string)         // image extension outside the allow-list
    | NoImagesFound                              // image patterns given but nothing matched
    | UnknownShippingOption                      // shipping option not in the mapping
    | NoShippingOptions                          // zip(*[]) cannot be unpacked
    | SeveralPackageSizes                        // options for more than one package size

  datatype Option<+T> = None | Some(value: T)

  datatype Result<+T> = Ok(value: T) | Err(error: Error) {
    predicate IsFailure() { Err? }

    function PropagateFailure<U>(): Result<U>
      requires Err?
    {
      Err(error)
    }

    function Extract(): T
      requires Ok?
    {
      value
    }
  }

  /** Python's `bool(v)`. */
  predicate Truthy(v: Value) {
    match v
    case Null => false
    case Bool(b) => b
    case Int(i) => i != 0
    case Str(s) => s != ""
    case List(xs) => xs != []
    case Dict(m) => m != map[]
  }

  /** `v or ""`: the value itself when truthy, otherwise the empty string. */
  function OrEmpty(v: Value): (r: Value)
    ensures Truthy(r) <==> Truthy(v)
    ensures Truthy(v) ==> r == v
  {
    if Truthy(v) then v else Str("")
  }

  /** `ad[key]`: KeyError when the key is missing. */
  function Get(ad: Ad, key: string): Result<Value> {
    if key in ad then Ok(ad[key]) else Err(MissingKey(key))
  }

  /** `utils.safe_get(v, *path)`: follows the keys of `path` through nested
      dicts and yields None as soon as a key is missing or a step is not a dict. */
  function SafeGetIn(v: Value, path: seq<string>): Value
    decreases |path|
  {
    if |path| == 0 then v
    else match v
      case Dict(m) => if path[0] in m then SafeGetIn(m[path[0]], path[1..]) else Null
      case _ => Null
  }

  function SafeGet(ad: Ad, path: seq<string>): Value {
    SafeGetIn(Dict(ad), path)
  }

  /** A nested read only looks below its first key: updating any other key of
      the ad leaves it unchanged. */
  lemma SafeGetOtherKey(ad: Ad, path: seq<string>, key: string, v: Value)
    requires |path| > 0 && path[0] != key
    ensures SafeGet(ad[key := v], path) == SafeGet(ad, path)
  {
  }
}
