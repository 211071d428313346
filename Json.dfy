/**
 * JavaScript values as the application sees them after `JSON.parse`:
 * numbers, JSON values, truthiness (`||`, `!`) and `String(v)`.
 *
 * A number is represented by its `Number#toString` rendering. Distinct
 * finite doubles render differently, except `0` and `-0`, which both render
 * as "0" and are also `===`-equal, so `n !== 0` is `n.text != "0"`.
 */
module Json {
  import opened Text

  /** A JavaScript number, given by its `Number#toString` rendering. */
  datatype Num = Num(text: string)

  const Zero: Num := Num("0")

  /** `NaN` renders as "NaN"; it is the only number that is not `=== ` to itself. */
  predicate IsNaN(n: Num) {
    n.text == "NaN"
  }

  /** The integer `i` as a JavaScript number. */
  function IntNum(i: int): (r: Num)
    ensures i == 0 <==> r == Zero
  {
    var r := Num(IntText(i));
    assert i != 0 ==> r != Zero by {
      if i < 0 {
        assert r.text[0] == '-';
      } else if i >= 10 {
        assert |r.text| > 1;
      } else {
        assert r.text == [DigitChar(i)];
      }
    }
    r
  }

  /** A value produced by `JSON.parse`. Object keys are looked up, never
      enumerated, so an object is a map. */
  datatype Json =
    | Null
    | Bool(b: bool)
    | Number(n: Num)
    | Str(s: string)
    | Arr(items: seq<Json>)
    | Obj(fields: map<string, Json>)

  /** JavaScript truthiness (`!!v`). */
  predicate Truthy(v: Json) {
    match v
    case Null => false
    case Bool(b) => b
    case Number(n) => n != Zero && !IsNaN(n)
    case Str(s) => s != ""
    case Arr(_) => true
    case Obj(_) => true
  }

  /** `v[key]`; `None` is `undefined`. Only objects carry named properties. */
  function Field(v: Json, key: string): (r: Option<Json>)
    ensures r.Some? ==> v.Obj? && key in v.fields
  {
    if v.Obj? && key in v.fields then Some(v.fields[key]) else None
  }

  /** `o !== undefined && o !== null` */
  predicate Present(o: Option<Json>) {
    o.Some? && !o.value.Null?
  }

  /** Truthiness of a possibly-undefined value. */
  predicate TruthyOpt(o: Option<Json>) {
    o.Some? && Truthy(o.value)
  }

  /** `String(v)`. An array renders as its elements joined by commas, with
      `null` elements rendered as the empty string. */
  function ToText(v: Json): string
    decreases v, 0
  {
    match v
    case Null => "null"
    case Bool(b) => if b then "true" else "false"
    case Number(n) => n.text
    case Str(s) => s
    case Arr(items) => Join(seq(|items|, i requires 0 <= i < |items| => ElementText(items[i])), ",")
    case Obj(_) => "[object Object]"
  }

  function ElementText(v: Json): string
    decreases v, 1
  {
    if v.Null? then "" else ToText(v)
  }

  /** `String(o)` for a possibly-undefined value. */
  function OptText(o: Option<Json>): string {
    match o
    case None => "undefined"
    case Some(v) => ToText(v)
  }

  /** `String(o || d)` for a string default `d`: the value when it is truthy,
      the default otherwise. */
  function TextOr(o: Option<Json>, d: string): (r: string)
    ensures !TruthyOpt(o) ==> r == d
    ensures TruthyOpt(o) ==> r == ToText(o.value)
  {
    if TruthyOpt(o) then ToText(o.value) else d
  }
}
