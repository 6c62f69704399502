/**
 * The Ruby values a property, an allowed value or an option can take in this
 * model, with Ruby's truthiness and `to_s`.
 */
module Values {
  import Text

  /** Structural equality on `Value` is Ruby's `==` on these four kinds of value. */
  datatype Value = Nil | Bool(b: bool) | Int(i: int) | Str(s: string)

  /** In Ruby only `nil` and `false` are falsy. */
  predicate Truthy(v: Value) {
    !(v.Nil? || v == Bool(false))
  }

  /** `to_s`, which is also what string interpolation uses. */
  function ToS(v: Value): string {
    match v
    case Nil => ""
    case Bool(b) => if b then "true" else "false"
    case Int(i) => Text.IntToString(i)
    case Str(s) => s
  }

  /** `value.to_s.downcase`, the key case-insensitive matching compares. */
  function Folded(v: Value): (r: string)
    ensures Text.IsLower(r)
    ensures |r| == |ToS(v)|
  {
    Text.DowncaseIsLower(ToS(v));
    Text.Downcase(ToS(v))
  }

  lemma FoldedInt(i: int)
    ensures Folded(Int(i)) == Text.IntToString(i)
  {
    Text.IntToStringIsLower(i);
  }

  /** Two integers fold to the same key only if they are equal. */
  lemma FoldedIntInjective(i: int, k: int)
    requires Folded(Int(i)) == Folded(Int(k))
    ensures i == k
  {
    FoldedInt(i);
    FoldedInt(k);
    Text.IntToStringInjective(i, k);
  }
}
