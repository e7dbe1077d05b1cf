/** Assignments, clauses and formulas in conjunctive normal form. */
module Clauses {

  /** A total assignment of the variables 1, 2, ... */
  type Assignment = int -> bool

  /** A literal is a variable or its negation, never zero. */
  type Clause = seq<int>

  predicate Holds(a: Assignment, lit: int) { if lit > 0 then a(lit) else !a(-lit) }

  ghost predicate SatClause(a: Assignment, c: Clause) {
    exists i :: 0 <= i < |c| && Holds(a, c[i])
  }

  ghost predicate Model(a: Assignment, formula: set<Clause>) {
    forall c :: c in formula ==> SatClause(a, c)
  }

  /** Every model of the formula satisfies the clause. */
  ghost predicate Implied(formula: set<Clause>, c: Clause) {
    forall a: Assignment :: Model(a, formula) ==> SatClause(a, c)
  }

  ghost predicate Unsatisfiable(formula: set<Clause>) {
    forall a: Assignment :: !Model(a, formula)
  }
}
