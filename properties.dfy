/**
 * The property model shared by every target language: a typed, named value,
 * optionally hidden and optionally commented.
 */
module Properties {
  import opened Results
  import opened Texts

  /** The six property types a configuration may declare. */
  datatype PropertyType = BOOL | INT | FLOAT | DOUBLE | STRING | REGEX

  /**
   * A property value as it comes out of validation: a string, a boolean, an
   * integer or a float. A float is kept as the text Python's `str` gives it.
   */
  datatype Scalar =
    | Str(s: string)
    | Boolean(b: bool)
    | Integer(i: int)
    | Floating(text: string)

  /** Python truthiness of a value: empty strings, `False`, `0` and `0.0` are false. */
  predicate Truthy(v: Scalar)
  {
    match v
    case Str(s) => s != ""
    case Boolean(b) => b
    case Integer(i) => i != 0
    case Floating(text) => text != "0.0" && text != "-0.0"
  }

  /** `str(v)`, the text an f-string inserts for a value. */
  function Text(v: Scalar): string
  {
    match v
    case Str(s) => s
    case Boolean(b) => if b then "True" else "False"
    case Integer(i) => IntText(i)
    case Floating(text) => text
  }

  /**
   * One property. `hidden` and `comment` are `None` when the input leaves
   * them out.
   */
  datatype Property = Property(
    ptype: PropertyType,
    name: string,
    value: Scalar,
    hidden: Option<bool>,
    comment: Option<string>)

  /** `property.hidden` is truthy; an absent flag counts as visible. */
  predicate IsHidden(p: Property)
  {
    p.hidden == Some(true)
  }
}
