/**
 * Values shared by every module of the model.
 *
 * The original code is JavaScript, where a property can be missing
 * (`undefined`), explicitly `null`, or hold a string. Several comparisons in
 * the tab bookkeeping use `!==`, which tells `undefined` and `null` apart, so
 * the model keeps the three cases distinct instead of folding them into one
 * `Option`.
 */
module JsValues {

  /** A JavaScript property that is missing, `null`, or a string. */
  datatype Field = Absent | Null | Text(s: string)
  {
    /** JavaScript truthiness of the property: only a non-empty string is truthy. */
    predicate Truthy() {
      Text? && s != ""
    }
  }

  datatype Option<+T> = None | Some(value: T)

  /** `p` is a prefix of `s`. */
  predicate StartsWith(s: string, p: string) {
    |p| <= |s| && s[..|p|] == p
  }

  /** The elements of `xs` are pairwise distinct. */
  predicate Distinct<T(==)>(xs: seq<T>) {
    forall i, j :: 0 <= i < j < |xs| ==> xs[i] != xs[j]
  }
}
