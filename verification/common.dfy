/** common.go: the generic conditional expression. */
module Common {

  /** Ternary(cond, t, f) is `t` when `cond` holds and `f` otherwise. */
  function Ternary<T>(cond: bool, trueValue: T, falseValue: T): (r: T)
    ensures cond ==> r == trueValue
    ensures !cond ==> r == falseValue
  {
    if cond then trueValue else falseValue
  }

  /** With equal branches the condition does not matter. */
  lemma TernarySame<T>(cond: bool, a: T)
    ensures Ternary(cond, a, a) == a
  {
  }

  /** Negating the condition and swapping the branches changes nothing. */
  lemma TernaryNegated<T>(cond: bool, a: T, b: T)
    ensures Ternary(!cond, b, a) == Ternary(cond, a, b)
  {
  }
}
