/** The language's `and`, `or` and `not` on nullable booleans: a null operand
    is unknown, so `false` absorbs `and`, `true` absorbs `or`, and otherwise a
    null operand makes the result null (Kleene's three-valued logic). */
module Logic {
  import opened Wrappers

  /** A nullable boolean. */
  type Bool3 = Option<bool>

  function And(a: Bool3, b: Bool3): (r: Bool3)
    ensures r == Some(false) <==> a == Some(false) || b == Some(false)
    ensures r == Some(true) <==> a == Some(true) && b == Some(true)
  {
    if a == Some(false) || b == Some(false) then Some(false)
    else if a.None? || b.None? then None
    else Some(a.value && b.value)
  }

  function Or(a: Bool3, b: Bool3): (r: Bool3)
    ensures r == Some(true) <==> a == Some(true) || b == Some(true)
    ensures r == Some(false) <==> a == Some(false) && b == Some(false)
  {
    if a == Some(true) || b == Some(true) then Some(true)
    else if a.None? || b.None? then None
    else Some(a.value || b.value)
  }

  /** `not`: null stays null, and the truth order is reversed. */
  function Not(a: Bool3): (r: Bool3)
    ensures r.None? <==> a.None?
    ensures r == Some(true) <==> a == Some(false)
    ensures r == Some(false) <==> a == Some(true)
    ensures Rank(r) == 2 - Rank(a)
  {
    match a
    case None => None
    case Some(x) => Some(!x)
  }

  /** Truth order false < null < true. */
  function Rank(a: Bool3): int {
    match a
    case Some(false) => 0
    case None => 1
    case Some(true) => 2
  }

  /** Reference definition: `and` is the minimum and `or` the maximum in the
      truth order. */
  lemma AndIsMin(a: Bool3, b: Bool3)
    ensures Rank(And(a, b)) == if Rank(a) <= Rank(b) then Rank(a) else Rank(b)
  {
  }

  lemma OrIsMax(a: Bool3, b: Bool3)
    ensures Rank(Or(a, b)) == if Rank(a) >= Rank(b) then Rank(a) else Rank(b)
  {
  }

  /** On non-null operands the operators are the ordinary ones. */
  lemma TwoValued(x: bool, y: bool)
    ensures And(Some(x), Some(y)) == Some(x && y)
    ensures Or(Some(x), Some(y)) == Some(x || y)
  {
  }

  /** `and` and `or` are commutative and associative, and De Morgan's laws
      relate them through `not`. */
  lemma Algebra(a: Bool3, b: Bool3, c: Bool3)
    ensures And(a, b) == And(b, a) && Or(a, b) == Or(b, a)
    ensures And(And(a, b), c) == And(a, And(b, c))
    ensures Or(Or(a, b), c) == Or(a, Or(b, c))
    ensures Not(And(a, b)) == Or(Not(a), Not(b))
    ensures Not(Or(a, b)) == And(Not(a), Not(b))
  {
  }

  /** The null-handling rows of the logical-operator tests. */
  lemma NullHandlingScenario()
    ensures And(None, None) == None && And(None, Some(true)) == None && And(None, Some(false)) == Some(false)
    ensures Or(None, None) == None && Or(None, Some(true)) == Some(true) && Or(None, Some(false)) == None
  {
  }
}
