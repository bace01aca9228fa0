/**
 * Values produced by Python's `json.load`, with the handful of Python built-ins the
 * normalisation engine applies to them: truthiness, `str()`, `in`, `[...]` and `len()`.
 */
module Json {
  import opened Wrappers
  import opened Strings
  import opened Seqs
  import Assoc

  /**
   * A decoded JSON value. `JDec(mant, exp)` is the float `mant / 10^exp` (a JSON number
   * written with a fraction); a JSON object is an ordered association list.
   */
  datatype Json =
    | JNull
    | JBool(b: bool)
    | JInt(i: int)
    | JDec(mant: int, exp: nat)
    | JStr(s: string)
    | JArr(items: seq<Json>)
    | JObj(fields: seq<(string, Json)>)

  /** The exceptions Python raises on the operations modelled here. */
  datatype PyError = TypeError(msg: string) | KeyError(key: string) | ValueError(msg: string)

  /** Python's `str(e)` of an exception. */
  function ErrorText(e: PyError): string {
    match e
    case TypeError(msg) => msg
    case KeyError(k) => "'" + k + "'"
    case ValueError(msg) => msg
  }

  /** Python's truthiness (`bool(x)`). */
  predicate Truthy(j: Json) {
    match j
    case JNull => false
    case JBool(b) => b
    case JInt(i) => i != 0
    case JDec(m, _) => m != 0
    case JStr(s) => |s| > 0
    case JArr(xs) => |xs| > 0
    case JObj(fs) => |fs| > 0
  }

  /** `type(x).__name__`. */
  function TypeName(j: Json): string {
    match j
    case JNull => "NoneType"
    case JBool(_) => "bool"
    case JInt(_) => "int"
    case JDec(_, _) => "float"
    case JStr(_) => "str"
    case JArr(_) => "list"
    case JObj(_) => "dict"
  }

  /** `isinstance(x, int)`: Python's `bool` is a subclass of `int`. */
  predicate IsInt(j: Json) {
    j.JInt? || j.JBool?
  }

  /** Whether `x` may be a dictionary key. */
  predicate Hashable(j: Json) {
    !j.JArr? && !j.JObj?
  }

  function Pow10(e: nat): (p: nat)
    ensures p >= 1
  {
    if e == 0 then 1 else 10 * Pow10(e - 1)
  }

  function ZerosThen(n: nat, s: string): (r: string)
    ensures |r| == n + |s|
  {
    if n == 0 then s else "0" + ZerosThen(n - 1, s)
  }

  function DropTrailingZeros(s: string): (r: string)
    ensures |r| <= |s|
  {
    if |s| > 0 && s[|s| - 1] == '0' then DropTrailingZeros(s[..|s| - 1]) else s
  }

  /** The integer part of `a / 10^exp`. */
  function WholePart(a: nat, exp: nat): nat {
    var p := Pow10(exp);
    DivOfNat(a, p);
    a / p
  }

  lemma DivOfNat(a: nat, p: nat)
    requires p > 0
    ensures a / p >= 0
  {
  }

  /** The digits after the decimal point of `a / 10^exp`, padded to `exp` places. */
  function FractionDigits(a: nat, exp: nat): string {
    var frac := NatToString(a % Pow10(exp));
    if |frac| < exp then ZerosThen(exp - |frac|, frac) else frac
  }

  /** Python's `repr(float)` of `mant / 10^exp` in positional notation ("12500.5", "2.0"). */
  function DecToString(mant: int, exp: nat): (r: string)
    ensures |r| > 0 && (IsDigit(r[0]) || r[0] == '-')
  {
    var a: nat := if mant < 0 then -mant else mant;
    var whole := NatToString(WholePart(a, exp));
    var shown := DropTrailingZeros(FractionDigits(a, exp));
    var body := whole + "." + (if shown == "" then "0" else shown);
    assert body[0] == whole[0];
    if mant < 0 then "-" + body else body
  }

  /** Python's `repr(x)`; strings are shown in single quotes without escaping. */
  function Repr(j: Json): (r: string)
    ensures |r| > 0
  {
    match j
    case JNull => "None"
    case JBool(b) => if b then "True" else "False"
    case JInt(i) => IntToString(i)
    case JDec(m, e) => DecToString(m, e)
    case JStr(s) => "'" + s + "'"
    case JArr(xs) =>
      "[" + Join(", ", seq(|xs|, k requires 0 <= k < |xs| => Repr(xs[k]))) + "]"
    case JObj(fs) =>
      "{" + Join(", ", seq(|fs|, k requires 0 <= k < |fs| => "'" + fs[k].0 + "': " + Repr(fs[k].1))) + "}"
  }

  /** Python's `str(x)` (and an f-string's `{x}`): a string is shown as itself, anything else as its repr. */
  function Str(j: Json): string {
    if j.JStr? then j.s else Repr(j)
  }

  /** `str(x)` of a truthy value that is not a string always has a visible first character. */
  lemma StrOfNonString(j: Json)
    requires !j.JStr?
    ensures |Str(j)| > 0 && !IsSpace(Str(j)[0])
  {
  }

  /** Python's `key in container` for a string `key`. */
  function PyIn(container: Json, key: string): (r: Result<bool, PyError>)
    ensures r.Err? <==> !(container.JObj? || container.JArr? || container.JStr?)
  {
    match container
    case JObj(fs) => Ok(Assoc.HasKey(fs, key))
    case JArr(xs) => Ok(JStr(key) in xs)
    case JStr(s) => Ok(Contains(s, key))
    case _ => Err(TypeError("argument of type '" + TypeName(container) + "' is not iterable"))
  }

  /** Python's `container[key]` for a string `key`. */
  function PyGetItem(container: Json, key: string): (r: Result<Json, PyError>)
    ensures r.Ok? <==> container.JObj? && Assoc.HasKey(container.fields, key)
    ensures r.Ok? ==> Assoc.Get(container.fields, key) == Some(r.value)
  {
    match container
    case JObj(fs) =>
      (match Assoc.Get(fs, key)
       case Some(v) => Ok(v)
       case None => Err(KeyError(key)))
    case JArr(_) => Err(TypeError("list indices must be integers or slices, not str"))
    case JStr(_) => Err(TypeError("string indices must be integers, not 'str'"))
    case _ => Err(TypeError("'" + TypeName(container) + "' object is not subscriptable"))
  }

  /**
   * The guard `key in model` followed by the read `model[key]` that every per-record step
   * starts with: `Ok(None)` when the key is absent, `Err` when Python raises.
   */
  function Lookup(model: Json, key: string): (r: Result<Option<Json>, PyError>)
    ensures r.Ok? && r.value.Some? ==> model.JObj? && Assoc.Get(model.fields, key) == r.value
    ensures model.JObj? ==> r == Ok(Assoc.Get(model.fields, key))
    ensures r.Err? <==> !model.JObj? && !(PyIn(model, key) == Ok(false))
  {
    match PyIn(model, key)
    case Err(e) => Err(e)
    case Ok(false) => Ok(None)
    case Ok(true) =>
      match PyGetItem(model, key)
      case Ok(v) => Ok(Some(v))
      case Err(e) => Err(e)
  }

  /** Python's `len(x)`. */
  function PyLen(j: Json): (r: Result<nat, PyError>)
    ensures r.Ok? <==> j.JStr? || j.JArr? || j.JObj?
  {
    match j
    case JStr(s) => Ok(|s|)
    case JArr(xs) => Ok(|xs|)
    case JObj(fs) => Ok(|fs|)
    case _ => Err(TypeError("object of type '" + TypeName(j) + "' has no len()"))
  }

  /** The tail of most issue messages: ` in {file_name} - {model_name}`. */
  function Where(file: string, modelName: string): string {
    " in " + file + " - " + modelName
  }

  /** Python's `d.get(key)` on a dictionary. */
  function GetField(fs: seq<(string, Json)>, key: string): Json {
    Assoc.GetOr(fs, key, JNull)
  }
}
