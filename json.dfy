/** The values a record of the pipeline's JSON files can hold, and the few Python
    operations the normaliser and the loader apply to them: truthiness, `dict.get`,
    `a or b` and the rendering of an f-string placeholder. Floats do not occur in the
    fields these stages compute with and are not modelled. */
module PyJson {
  import opened Util

  datatype Json = Null | Str(s: string) | Bool(b: bool) | Int(i: int)

  /** A record: a JSON object, keyed by field name. */
  type Record = map<string, Json>

  /** Python's `bool(v)`. */
  predicate Truthy(v: Json) {
    match v
    case Null => false
    case Str(s) => s != ""
    case Bool(b) => b
    case Int(i) => i != 0
  }

  /** `d.get(k)`: None for a missing key. */
  function Get(d: Record, k: string): Json {
    if k in d then d[k] else Null
  }

  /** `a or b`. */
  function Or(a: Json, b: Json): Json {
    if Truthy(a) then a else b
  }

  /** `str(v)`, which is what an f-string placeholder shows. */
  function Render(v: Json): string {
    match v
    case Null => "None"
    case Str(s) => s
    case Bool(b) => if b then "True" else "False"
    case Int(i) => if i < 0 then "-" + Decimal(-i) else Decimal(i)
  }

  /** A value or the TypeError a Python built-in raises on a value of the wrong type. */
  datatype Result<+T> = Ok(value: T) | TypeError

  /** `Some(s)` as the JSON string `s`, `None` as null. */
  function OfOption(s: Option<string>): Json {
    if s.Some? then Str(s.value) else Null
  }

  /** A JSON string as an optional text; every other value as None. */
  function AsText(v: Json): Option<string> {
    if v.Str? then Some(v.s) else None
  }

  /** The rendering of an integer reads back as that integer. */
  lemma RenderInt(i: int)
    ensures i >= 0 ==> AllDigits(Render(Int(i))) && DigitsValue(Render(Int(i))) == i
    ensures i < 0 ==>
      Render(Int(i))[0] == '-' && AllDigits(Render(Int(i))[1..]) && DigitsValue(Render(Int(i))[1..]) == -i
  {
    if i >= 0 {
      DecimalValue(i);
    } else {
      DecimalValue(-i);
      assert Render(Int(i))[1..] == Decimal(-i);
    }
  }
}
