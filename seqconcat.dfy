/**
  Regroupings of sequence concatenations. The string lemmas that cut a path
  or a message into literal pieces call these instead of letting the solver
  re-associate long chains of literals.
 */
module SeqConcat {
  lemma Assoc<T>(a: seq<T>, b: seq<T>, c: seq<T>)
    ensures a + b + c == a + (b + c)
  {
  }

  /** Everything after the first of two copies of `x`, grouped together. */
  lemma GroupAfter<T>(a: seq<T>, x: seq<T>, b: seq<T>, c: seq<T>)
    ensures a + x + b + x + c == a + x + (b + x + c)
  {
  }

  /** `s/x/(t.x)` cut into the pieces around its two copies of `x`. */
  lemma AroundTwo<T>(s: seq<T>, sl: seq<T>, x: seq<T>, t: seq<T>, d: seq<T>)
    ensures s + sl + x + sl + (t + (d + x)) == (s + sl) + x + (sl + t + d) + x + []
  {
  }

  /** Moving the piece before the first `x` out of the rest. */
  lemma ShiftFront<T>(p: seq<T>, x: seq<T>, q: seq<T>, sl: seq<T>, b: seq<T>)
    ensures (p + x + q + sl) + x + b + x + [] == p + x + ((q + sl) + x + b + x + [])
  {
  }

  /** A seven-piece chain regrouped around its fifth piece. */
  lemma AroundFifth<T>(p: seq<T>, a: seq<T>, b: seq<T>, c: seq<T>, x: seq<T>, d: seq<T>, e: seq<T>)
    ensures p + a + b + (c + x + d) + e == p + (a + b + c) + x + (d + e)
  {
  }
}
