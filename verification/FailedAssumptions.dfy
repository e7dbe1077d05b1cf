/**
 Failed-assumption analysis of the bundled CaDiCaL solver: from a falsified assumption a search through
 the implication graph collects the assumptions that caused it.
 */
module FailedAssumptions {
  import opened Clauses

  // ----- literals, clauses, formulas -----------------------------------------------------

  type Literal = l: int | l != 0 witness 1

  function Var(l: Literal): nat { var i: int := l; if i < 0 then -i else i }

  function Negated(l: Literal): (r: Literal)
    ensures Var(r) == Var(l)
  {
    var i: int := l;
    -i
  }

  lemma {:induction false} NegationFlips(a: Assignment, l: Literal)
    ensures Holds(a, Negated(l)) <==> !Holds(a, l)
  {
  }

  // ----- the trail ---------------------------------------------------------------------------

  /** Assigned literals in order; level and reason of the variables. A variable without reason was decided. */
  datatype Trail = Trail(lits: seq<Literal>, level: map<nat, nat>, reason: map<nat, seq<Literal>>)

  /** Sign of the literal's value: true, false or unassigned. */
  function Val(t: Trail, l: Literal): int {
    if l in t.lits then 1 else if Negated(l) in t.lits then -1 else 0
  }

  function Level(t: Trail, v: nat): nat { if v in t.level then t.level[v] else 0 }

  /** A reason clause contains the literal it implies; its other literals were false before. */
  ghost predicate ReasonFor(t: Trail, i: nat, c: seq<Literal>)
    requires i < |t.lits|
  {
    && t.lits[i] in c
    && forall j :: 0 <= j < |c| && c[j] != t.lits[i] ==> Negated(c[j]) in t.lits[..i]
  }

  /** The trail of a solver whose only decisions are assumptions. */
  ghost predicate ValidTrail(t: Trail, formula: set<Clause>, assumptions: set<Literal>) {
    && (forall i, j :: 0 <= i < j < |t.lits| ==> Var(t.lits[i]) != Var(t.lits[j]))
    && forall i :: 0 <= i < |t.lits| ==>
         var v := Var(t.lits[i]);
         if Level(t, v) == 0 then Implied(formula, [t.lits[i]])
         else if v in t.reason then Implied(formula, t.reason[v]) && ReasonFor(t, i, t.reason[v])
         else t.lits[i] in assumptions
  }

  // ----- soundness of a collected core ----------------------------------------------------------

  /** A set of true literals that is closed under reasons, with its decisions in `core`. */
  ghost predicate Closed(t: Trail, analyzed: set<Literal>, core: set<Literal>) {
    forall l :: l in analyzed ==>
      && l in t.lits
      && var v := Var(l);
         Level(t, v) > 0 ==>
           if v in t.reason then
             forall j :: 0 <= j < |t.reason[v]| && t.reason[v][j] != l ==> Negated(t.reason[v][j]) in analyzed
           else l in core
  }

  /** Under a model in which the core is true, everything in a closed set is true. */
  lemma {:induction false} ClosedIsForced(t: Trail, formula: set<Clause>, assumptions: set<Literal>,
      analyzed: set<Literal>, core: set<Literal>, a: Assignment, i: nat)
    requires ValidTrail(t, formula, assumptions) && Closed(t, analyzed, core)
    requires Model(a, formula) && (forall l :: l in core ==> Holds(a, l))
    requires i < |t.lits| && t.lits[i] in analyzed
    ensures Holds(a, t.lits[i])
    decreases i
  {
    var l := t.lits[i];
    var v := Var(l);
    if Level(t, v) == 0 {
      assert SatClause(a, [l]);
    } else if v in t.reason {
      var c := t.reason[v];
      assert ReasonFor(t, i, c) && SatClause(a, c);
      var j :| 0 <= j < |c| && Holds(a, c[j]);
      if c[j] != l {
        var m := Negated(c[j]);
        assert m in analyzed && m in t.lits[..i];
        var k :| 0 <= k < i && t.lits[..i][k] == m;
        ClosedIsForced(t, formula, assumptions, analyzed, core, a, k);
        NegationFlips(a, c[j]);
      }
    }
  }

  // ----- the search ---------------------------------------------------------------------------------

  /** The literals found to be involved, as they stand on the trail: the start literal negated. */
  ghost function OnTrail(analyzed: seq<Literal>, k: nat): Literal
    requires k < |analyzed|
  {
    if k == 0 then Negated(analyzed[0]) else analyzed[k]
  }

  ghost function Involved(analyzed: seq<Literal>, m: nat): (r: set<Literal>)
    requires m <= |analyzed|
  {
    set k | 0 <= k < m :: OnTrail(analyzed, k)
  }

  /** Literals on the work list stand on the trail, one per variable seen. */
  ghost predicate WorkList(t: Trail, analyzed: seq<Literal>, seen: set<nat>) {
    && |analyzed| > 0
    && (forall k :: 0 <= k < |analyzed| ==> OnTrail(analyzed, k) in t.lits && Var(OnTrail(analyzed, k)) in seen)
    && (forall v :: v in seen ==> exists k :: 0 <= k < |analyzed| && Var(OnTrail(analyzed, k)) == v)
  }

  /** The literal's reason, up to its literal `m`, has been followed. */
  ghost predicate Followed(t: Trail, l: Literal, analyzed: seq<Literal>, core: set<Literal>, m: nat) {
    var v := Var(l);
    Level(t, v) > 0 ==>
      if v in t.reason then
        forall j :: 0 <= j < |t.reason[v]| && j < m && t.reason[v][j] != l ==>
          Negated(t.reason[v][j]) in Involved(analyzed, |analyzed|)
      else l in core
  }

  ghost predicate Processed(t: Trail, analyzed: seq<Literal>, core: set<Literal>, next: nat) {
    next <= |analyzed| &&
    forall k :: 0 <= k < next ==>
      Followed(t, OnTrail(analyzed, k), analyzed, core, ReasonLength(t, Var(OnTrail(analyzed, k))))
  }

  ghost function ReasonLength(t: Trail, v: nat): nat { if v in t.reason then |t.reason[v]| else 0 }

  /** Trail literals are determined by their variable. */
  lemma {:induction false} SameVariable(t: Trail, formula: set<Clause>, assumptions: set<Literal>, l: Literal,
      m: Literal)
    requires ValidTrail(t, formula, assumptions) && l in t.lits && m in t.lits && Var(l) == Var(m)
    ensures l == m
  {
    var i :| 0 <= i < |t.lits| && t.lits[i] == l;
    var j :| 0 <= j < |t.lits| && t.lits[j] == m;
    assert !(i < j) && !(j < i);
  }

  /** The negations of the other literals of a reason stand on the trail. */
  lemma {:induction false} ReasonOnTrail(t: Trail, formula: set<Clause>, assumptions: set<Literal>, l: Literal, j: nat)
    requires ValidTrail(t, formula, assumptions) && l in t.lits && Level(t, Var(l)) > 0 && Var(l) in t.reason
    requires j < |t.reason[Var(l)]| && t.reason[Var(l)][j] != l
    ensures Negated(t.reason[Var(l)][j]) in t.lits
    ensures Var(t.reason[Var(l)][j]) != Var(l)
  {
    var i :| 0 <= i < |t.lits| && t.lits[i] == l;
    var c := t.reason[Var(l)];
    assert ReasonFor(t, i, c);
    var m := Negated(c[j]);
    assert m in t.lits[..i];
    var k :| 0 <= k < i && t.lits[..i][k] == m;
    assert t.lits[k] == m;
  }

  lemma {:induction false} InvolvedGrows(analyzed: seq<Literal>, l: Literal)
    requires |analyzed| > 0
    ensures Involved(analyzed + [l], |analyzed| + 1) == Involved(analyzed, |analyzed|) + {l}
  {
    var more := analyzed + [l];
    assert forall k :: 0 <= k < |analyzed| ==> OnTrail(more, k) == OnTrail(analyzed, k);
    assert OnTrail(more, |analyzed|) == l;
    forall x ensures x in Involved(more, |more|) <==> x in Involved(analyzed, |analyzed|) + {l} {
      if x in Involved(analyzed, |analyzed|) {
        var k :| 0 <= k < |analyzed| && OnTrail(analyzed, k) == x;
        assert OnTrail(more, k) == x;
      }
      if x == l { assert OnTrail(more, |analyzed|) == x; }
    }
  }

  /** Appending to the work list keeps what was processed. */
  lemma {:induction false} ProcessedGrows(t: Trail, analyzed: seq<Literal>, core: set<Literal>, next: nat, l: Literal)
    requires |analyzed| > 0 && Processed(t, analyzed, core, next)
    ensures Processed(t, analyzed + [l], core, next)
  {
    InvolvedGrows(analyzed, l);
    hide Involved;
    var more := analyzed + [l];
    forall k | 0 <= k < next
      ensures Followed(t, OnTrail(more, k), more, core, ReasonLength(t, Var(OnTrail(more, k))))
    {
      assert OnTrail(more, k) == OnTrail(analyzed, k);
    }
  }

  lemma {:induction false} WorkListGrows(t: Trail, analyzed: seq<Literal>, seen: set<nat>, l: Literal)
    requires WorkList(t, analyzed, seen) && l in t.lits
    ensures WorkList(t, analyzed + [l], seen + {Var(l)})
  {
    var more := analyzed + [l];
    assert forall k :: 0 <= k < |analyzed| ==> OnTrail(more, k) == OnTrail(analyzed, k);
    assert OnTrail(more, |analyzed|) == l;
    forall v | v in seen + {Var(l)} ensures exists k :: 0 <= k < |more| && Var(OnTrail(more, k)) == v {
      if v in seen {
        var k :| 0 <= k < |analyzed| && Var(OnTrail(analyzed, k)) == v;
        assert Var(OnTrail(more, k)) == v;
      } else {
        assert Var(OnTrail(more, |analyzed|)) == v;
      }
    }
  }

  /** A seen variable's trail literal is involved. */
  lemma {:induction false} SeenIsInvolved(t: Trail, formula: set<Clause>, assumptions: set<Literal>,
      analyzed: seq<Literal>, seen: set<nat>, l: Literal)
    requires ValidTrail(t, formula, assumptions) && WorkList(t, analyzed, seen) && l in t.lits && Var(l) in seen
    ensures l in Involved(analyzed, |analyzed|)
  {
    var k :| 0 <= k < |analyzed| && Var(OnTrail(analyzed, k)) == Var(l);
    SameVariable(t, formula, assumptions, l, OnTrail(analyzed, k));
  }

  /** No assumption is the negation of another one. */
  ghost predicate NoClash(assumptions: set<Literal>) {
    forall l :: l in assumptions ==> Negated(l) !in assumptions
  }

  /** What the search keeps: the clause lists the negated failed assumptions, all of which are involved. */
  ghost predicate Core(t: Trail, assumptions: set<Literal>, first: Literal, core: set<Literal>,
      clause: seq<Literal>, failed: set<Literal>) {
    && first in assumptions && Negated(first) in t.lits && core <= assumptions
    && failed == core + {first}
    && (forall l :: l in failed ==> Negated(l) in clause)
    && (forall l :: l in clause ==> Negated(l) in failed)
  }

  // ----- what is reached ------------------------------------------------------------------------------

  /** The second literal's negation is one of the other literals in the first one's reason. */
  ghost predicate CausedBy(t: Trail, l: Literal, m: Literal) {
    Level(t, Var(l)) > 0 && Var(l) in t.reason
    && exists j :: 0 <= j < |t.reason[Var(l)]| && t.reason[Var(l)][j] != l && Negated(t.reason[Var(l)][j]) == m
  }

  /** Following that many reasons leads from one literal of the trail to the other. */
  ghost predicate Leads(t: Trail, start: Literal, l: Literal, k: nat)
    decreases k
  {
    if k == 0 then l == start else exists m :: Leads(t, start, m, k - 1) && CausedBy(t, m, l)
  }

  ghost predicate Reached(t: Trail, start: Literal, l: Literal) { exists k: nat :: Leads(t, start, l, k) }

  /** A decision that the literal depends on: reached through reasons, and without a reason itself. */
  ghost predicate DependsOn(t: Trail, start: Literal, l: Literal) {
    Reached(t, start, l) && Level(t, Var(l)) > 0 && Var(l) !in t.reason
  }

  ghost predicate AllReached(t: Trail, start: Literal, analyzed: seq<Literal>) {
    forall k :: 0 <= k < |analyzed| ==> Reached(t, start, OnTrail(analyzed, k))
  }

  lemma {:induction false} ReachedFurther(t: Trail, start: Literal, l: Literal, m: Literal)
    requires Reached(t, start, l) && CausedBy(t, l, m)
    ensures Reached(t, start, m)
  {
    var k: nat :| Leads(t, start, l, k);
    assert Leads(t, start, m, k + 1);
  }

  lemma {:induction false} AllReachedGrows(t: Trail, start: Literal, analyzed: seq<Literal>, l: Literal, j: nat)
    requires |analyzed| > 0 && AllReached(t, start, analyzed) && Reached(t, start, l)
    requires Level(t, Var(l)) > 0 && Var(l) in t.reason && j < |t.reason[Var(l)]| && t.reason[Var(l)][j] != l
    ensures AllReached(t, start, analyzed + [Negated(t.reason[Var(l)][j])])
  {
    var m := Negated(t.reason[Var(l)][j]);
    assert CausedBy(t, l, m);
    ReachedFurther(t, start, l, m);
    hide Reached;
    assert forall k :: 0 <= k < |analyzed| ==> OnTrail(analyzed + [m], k) == OnTrail(analyzed, k);
  }

  /** A set that is closed under reasons holds all that is reached from its literals. */
  lemma {:induction false} ClosedHolds(t: Trail, analyzed: set<Literal>, core: set<Literal>, start: Literal, l: Literal,
      k: nat)
    requires Closed(t, analyzed, core) && start in analyzed && Leads(t, start, l, k)
    ensures l in analyzed
    decreases k
  {
    if k > 0 {
      var m :| Leads(t, start, m, k - 1) && CausedBy(t, m, l);
      ClosedHolds(t, analyzed, core, start, m, k - 1);
    }
  }

  /** The core consists of exactly the decisions that the start of the search depends on. */
  lemma {:induction false} CoreIsExact(t: Trail, analyzed: seq<Literal>, seen: set<nat>, core: set<Literal>,
      start: Literal)
    requires WorkList(t, analyzed, seen) && Processed(t, analyzed, core, |analyzed|) && OnTrail(analyzed, 0) == start
    requires forall l :: l in core ==> DependsOn(t, start, l)
    ensures forall l :: l in core <==> DependsOn(t, start, l)
  {
    var involved := Involved(analyzed, |analyzed|);
    ProcessedIsClosed(t, analyzed, seen, core);
    assert start in involved;
    hide WorkList, Processed, Involved;
    forall l | DependsOn(t, start, l) ensures l in core {
      var k: nat :| Leads(t, start, l, k);
      ClosedHolds(t, involved, core, start, l, k);
    }
  }

  /** Follows one reason: literals of unseen variables join the work list. */
  method FollowReason(t: Trail, ghost formula: set<Clause>, ghost assumptions: set<Literal>, ghost start: Literal,
      ghost core: set<Literal>, ghost next: nat, ghost l: Literal, v: nat, analyzed0: seq<Literal>, seen0: set<nat>)
    returns (analyzed: seq<Literal>, seen: set<nat>)
    requires ValidTrail(t, formula, assumptions) && WorkList(t, analyzed0, seen0)
    requires Processed(t, analyzed0, core, next) && next < |analyzed0| && l == OnTrail(analyzed0, next)
    requires v == Var(l) && Level(t, v) > 0 && v in t.reason && AllReached(t, start, analyzed0)
    ensures WorkList(t, analyzed, seen) && analyzed0 <= analyzed && seen0 <= seen
    ensures AllReached(t, start, analyzed)
    ensures Processed(t, analyzed, core, next)
    ensures Followed(t, l, analyzed, core, |t.reason[v]|)
    ensures seen == seen0 ==> analyzed == analyzed0
  {
    analyzed, seen := analyzed0, seen0;
    var c := t.reason[v];
    assert Reached(t, start, l);
    hide ValidTrail, WorkList, Processed, Involved, Followed, AllReached, Reached;
    NothingFollowed(t, l, analyzed, core);
    NonEmpty(t, analyzed, seen);
    for j := 0 to |c|
      invariant WorkList(t, analyzed, seen) && analyzed0 <= analyzed && seen0 <= seen && |analyzed| > 0
      invariant Processed(t, analyzed, core, next)
      invariant Followed(t, l, analyzed, core, j)
      invariant seen == seen0 ==> analyzed == analyzed0
      invariant AllReached(t, start, analyzed)
    {
      var other := c[j];
      OwnVariableSeen(t, analyzed0, seen0, next);
      if Var(other) in seen {
        FollowedSeen(t, formula, assumptions, analyzed, seen, core, l, j);
      } else {
        FollowedNew(t, formula, assumptions, analyzed, core, l, j);
        ProcessedGrows(t, analyzed, core, next, Negated(other));
        WorkListGrows(t, analyzed, seen, Negated(other));
        AllReachedGrows(t, start, analyzed, l, j);
        seen := seen + {Var(other)};
        analyzed := analyzed + [Negated(other)];
      }
    }
  }

  lemma {:induction false} NonEmpty(t: Trail, analyzed: seq<Literal>, seen: set<nat>)
    requires WorkList(t, analyzed, seen)
    ensures |analyzed| > 0
  {
  }

  lemma {:induction false} OwnVariableSeen(t: Trail, analyzed: seq<Literal>, seen: set<nat>, k: nat)
    requires WorkList(t, analyzed, seen) && k < |analyzed|
    ensures Var(OnTrail(analyzed, k)) in seen && OnTrail(analyzed, k) in t.lits
  {
  }

  lemma {:induction false} NothingFollowed(t: Trail, l: Literal, analyzed: seq<Literal>, core: set<Literal>)
    requires Var(l) in t.reason
    ensures Followed(t, l, analyzed, core, 0)
  {
  }

  lemma {:induction false} FollowedSeen(t: Trail, formula: set<Clause>, assumptions: set<Literal>,
      analyzed: seq<Literal>, seen: set<nat>, core: set<Literal>, l: Literal, j: nat)
    requires ValidTrail(t, formula, assumptions) && WorkList(t, analyzed, seen) && l in t.lits
    requires Level(t, Var(l)) > 0 && Var(l) in t.reason && j < |t.reason[Var(l)]|
    requires Var(t.reason[Var(l)][j]) in seen && Followed(t, l, analyzed, core, j)
    ensures Followed(t, l, analyzed, core, j + 1)
  {
    var other := t.reason[Var(l)][j];
    if other != l {
      ReasonOnTrail(t, formula, assumptions, l, j);
      SeenIsInvolved(t, formula, assumptions, analyzed, seen, Negated(other));
    }
    hide ValidTrail, WorkList, Involved;
  }

  lemma {:induction false} FollowedNew(t: Trail, formula: set<Clause>, assumptions: set<Literal>,
      analyzed: seq<Literal>, core: set<Literal>, l: Literal, j: nat)
    requires ValidTrail(t, formula, assumptions) && |analyzed| > 0 && l in t.lits
    requires Level(t, Var(l)) > 0 && Var(l) in t.reason && j < |t.reason[Var(l)]|
    requires Var(t.reason[Var(l)][j]) != Var(l) && Followed(t, l, analyzed, core, j)
    ensures Negated(t.reason[Var(l)][j]) in t.lits
    ensures Followed(t, l, analyzed + [Negated(t.reason[Var(l)][j])], core, j + 1)
  {
    ReasonOnTrail(t, formula, assumptions, l, j);
    InvolvedGrows(analyzed, Negated(t.reason[Var(l)][j]));
    hide ValidTrail, Involved;
  }

  /** Once the work list is processed, the clause is implied: if the core holds, so does the negation of
      the assumption the search started from. */
  lemma {:induction false} CoreIsImplied(t: Trail, formula: set<Clause>, assumptions: set<Literal>, first: Literal,
      analyzed: seq<Literal>, seen: set<nat>, core: set<Literal>, clause: seq<Literal>, failed: set<Literal>)
    requires ValidTrail(t, formula, assumptions) && WorkList(t, analyzed, seen) && analyzed[0] == first
    requires Processed(t, analyzed, core, |analyzed|) && Core(t, assumptions, first, core, clause, failed)
    ensures Implied(formula, clause)
  {
    var involved := Involved(analyzed, |analyzed|);
    ProcessedIsClosed(t, analyzed, seen, core);
    var n := Negated(first);
    assert OnTrail(analyzed, 0) == n && n in involved;
    var i :| 0 <= i < |t.lits| && t.lits[i] == n;
    forall a: Assignment | Model(a, formula) ensures SatClause(a, clause) {
      if forall l :: l in core ==> Holds(a, l) {
        ClosedIsForced(t, formula, assumptions, involved, core, a, i);
        assert n in clause;
      } else {
        var l :| l in core && !Holds(a, l);
        NegationFlips(a, l);
        assert Negated(l) in clause;
      }
    }
  }

  lemma {:induction false} ProcessedIsClosed(t: Trail, analyzed: seq<Literal>, seen: set<nat>, core: set<Literal>)
    requires WorkList(t, analyzed, seen) && Processed(t, analyzed, core, |analyzed|)
    ensures Closed(t, Involved(analyzed, |analyzed|), core)
  {
    var involved := Involved(analyzed, |analyzed|);
    forall l | l in involved
      ensures l in t.lits && Followed(t, l, analyzed, core, ReasonLength(t, Var(l)))
    {
      var k :| 0 <= k < |analyzed| && OnTrail(analyzed, k) == l;
    }
  }

  ghost function TrailVars(t: Trail): set<nat> { set i | 0 <= i < |t.lits| :: Var(t.lits[i]) }

  lemma {:induction false} SeenOnTrail(t: Trail, analyzed: seq<Literal>, seen: set<nat>)
    requires WorkList(t, analyzed, seen)
    ensures seen <= TrailVars(t)
  {
    forall v | v in seen ensures v in TrailVars(t) {
      var k :| 0 <= k < |analyzed| && Var(OnTrail(analyzed, k)) == v;
      var i :| 0 <= i < |t.lits| && t.lits[i] == OnTrail(analyzed, k);
    }
  }

  lemma {:induction false} ProcessedUnit(t: Trail, analyzed: seq<Literal>, core: set<Literal>, next: nat)
    requires Processed(t, analyzed, core, next) && next < |analyzed|
    requires Followed(t, OnTrail(analyzed, next), analyzed, core, ReasonLength(t, Var(OnTrail(analyzed, next))))
    ensures Processed(t, analyzed, core, next + 1)
  {
  }

  lemma {:induction false} ProcessedPrefix(t: Trail, analyzed: seq<Literal>, analyzed': seq<Literal>, next: nat)
    requires |analyzed| > 0 && analyzed <= analyzed' && next < |analyzed|
    ensures OnTrail(analyzed', next) == OnTrail(analyzed, next)
  {
  }

  /** A larger core keeps what was processed. */
  lemma {:induction false} ProcessedLargerCore(t: Trail, analyzed: seq<Literal>, core: set<Literal>,
      core': set<Literal>, next: nat)
    requires Processed(t, analyzed, core, next) && core <= core'
    ensures Processed(t, analyzed, core', next)
  {
    forall k | 0 <= k < next
      ensures Followed(t, OnTrail(analyzed, k), analyzed, core', ReasonLength(t, Var(OnTrail(analyzed, k))))
    {
      assert Followed(t, OnTrail(analyzed, k), analyzed, core, ReasonLength(t, Var(OnTrail(analyzed, k))));
    }
  }

  /** A literal above level zero without reason is an assumption, and not the start of the search. */
  lemma {:induction false} DecisionIsAssumption(t: Trail, formula: set<Clause>, assumptions: set<Literal>,
      first: Literal, analyzed: seq<Literal>, seen: set<nat>, k: nat)
    requires ValidTrail(t, formula, assumptions) && WorkList(t, analyzed, seen) && k < |analyzed|
    requires analyzed[0] == first && first in assumptions && NoClash(assumptions)
    requires Level(t, Var(OnTrail(analyzed, k))) > 0 && Var(OnTrail(analyzed, k)) !in t.reason
    ensures OnTrail(analyzed, k) in assumptions && k > 0 && analyzed[k] == OnTrail(analyzed, k)
  {
    var l := OnTrail(analyzed, k);
    var i :| 0 <= i < |t.lits| && t.lits[i] == l;
    assert l in assumptions;
  }

  /** Breadth-first search from a falsified assumption back to decisions and units. */
  method SearchImplicationGraph(t: Trail, ghost formula: set<Clause>, ghost assumptions: set<Literal>, first: Literal)
    returns (clause: seq<Literal>, failed: set<Literal>)
    requires ValidTrail(t, formula, assumptions) && NoClash(assumptions)
    requires first in assumptions && Negated(first) in t.lits
    ensures Implied(formula, clause) && failed <= assumptions && first in failed
    ensures forall l :: l in failed <==> Negated(l) in clause
    ensures forall l :: l in failed <==> l == first || DependsOn(t, Negated(first), l)
  {
    hide ValidTrail, Processed, Followed, Involved, Implied, Core, Reached;
    var analyzed, seen, next := [first], {Var(first)}, 0;
    failed, clause := {first}, [Negated(first)];
    ghost var core := {};
    StartOfSearch(t, assumptions, first, analyzed, seen, clause, failed);
    hide WorkList, AllReached;
    while next < |analyzed|
      invariant next <= |analyzed| && |analyzed| > 0 && analyzed[0] == first
      invariant WorkList(t, analyzed, seen) && Processed(t, analyzed, core, next)
      invariant Core(t, assumptions, first, core, clause, failed)
      invariant AllReached(t, Negated(first), analyzed) && forall l :: l in core ==> DependsOn(t, Negated(first), l)
      decreases TrailVars(t) - seen, |analyzed| - next
    {
      var lit := analyzed[next];
      ghost var l := OnTrail(analyzed, next);
      var v := Var(lit);
      OwnVariableSeen(t, analyzed, seen, next);
      OneReached(t, Negated(first), analyzed, next);
      SeenOnTrail(t, analyzed, seen);
      if Level(t, v) == 0 {
        UnitIsFollowed(t, l, analyzed, core);
        ProcessedUnit(t, analyzed, core, next);
      } else if v in t.reason {
        var analyzed', seen' := FollowReason(t, formula, assumptions, Negated(first), core, next, l, v, analyzed,
            seen);
        ProcessedPrefix(t, analyzed, analyzed', next);
        SeenOnTrail(t, analyzed', seen');
        ProcessedUnit(t, analyzed', core, next);
        analyzed, seen := analyzed', seen';
      } else {
        DecisionIsAssumption(t, formula, assumptions, first, analyzed, seen, next);
        ProcessedLargerCore(t, analyzed, core, core + {lit}, next);
        DecisionIsFollowed(t, l, analyzed, core + {lit});
        ProcessedUnit(t, analyzed, core + {lit}, next);
        CoreGrows(t, assumptions, first, core, clause, failed, lit);
        core := core + {lit};
        clause := clause + [Negated(lit)];
        failed := failed + {lit};
      }
      next := next + 1;
    }
    CoreIsImplied(t, formula, assumptions, first, analyzed, seen, core, clause, failed);
    CoreFacts(t, assumptions, first, core, clause, failed);
    CoreIsExact(t, analyzed, seen, core, Negated(first));
  }

  lemma {:induction false} OneReached(t: Trail, start: Literal, analyzed: seq<Literal>, k: nat)
    requires AllReached(t, start, analyzed) && k < |analyzed|
    ensures Reached(t, start, OnTrail(analyzed, k))
  {
  }

  lemma {:induction false} StartOfSearch(t: Trail, assumptions: set<Literal>, first: Literal,
      analyzed: seq<Literal>, seen: set<nat>, clause: seq<Literal>, failed: set<Literal>)
    requires first in assumptions && Negated(first) in t.lits
    requires analyzed == [first] && seen == {Var(first)} && clause == [Negated(first)] && failed == {first}
    ensures WorkList(t, analyzed, seen) && Processed(t, analyzed, {}, 0)
    ensures Core(t, assumptions, first, {}, clause, failed) && AllReached(t, Negated(first), analyzed)
  {
    assert Leads(t, Negated(first), Negated(first), 0);
    assert OnTrail(analyzed, 0) == Negated(first);
    assert Negated(Negated(first)) == first;
  }

  lemma {:induction false} UnitIsFollowed(t: Trail, l: Literal, analyzed: seq<Literal>, core: set<Literal>)
    requires Level(t, Var(l)) == 0
    ensures Followed(t, l, analyzed, core, ReasonLength(t, Var(l)))
  {
  }

  lemma {:induction false} DecisionIsFollowed(t: Trail, l: Literal, analyzed: seq<Literal>, core: set<Literal>)
    requires Var(l) !in t.reason && l in core
    ensures Followed(t, l, analyzed, core, ReasonLength(t, Var(l)))
  {
  }

  lemma {:induction false} CoreGrows(t: Trail, assumptions: set<Literal>, first: Literal, core: set<Literal>,
      clause: seq<Literal>, failed: set<Literal>, lit: Literal)
    requires Core(t, assumptions, first, core, clause, failed) && lit in assumptions
    ensures Core(t, assumptions, first, core + {lit}, clause + [Negated(lit)], failed + {lit})
  {
    var clause', failed' := clause + [Negated(lit)], failed + {lit};
    forall l | l in clause' ensures Negated(l) in failed' {
      if l == Negated(lit) { assert Negated(l) == lit; } else { assert l in clause; }
    }
    forall l | l in failed' ensures Negated(l) in clause' {
      if l == lit { assert clause'[|clause|] == Negated(l); } else { assert Negated(l) in clause; }
    }
  }

  lemma {:induction false} CoreFacts(t: Trail, assumptions: set<Literal>, first: Literal, core: set<Literal>,
      clause: seq<Literal>, failed: set<Literal>)
    requires Core(t, assumptions, first, core, clause, failed)
    ensures failed <= assumptions && first in failed && failed == core + {first}
    ensures forall l :: l in failed <==> Negated(l) in clause
  {
    forall l: Literal ensures l in failed <==> Negated(l) in clause {
      assert Negated(Negated(l)) == l;
    }
  }

  /** An implied clause of negated literals means that these literals cannot all be true in a model. */
  lemma {:induction false} CoreIsUnsatisfiable(formula: set<Clause>, clause: seq<Literal>, failed: set<Literal>,
      a: Assignment)
    requires Implied(formula, clause) && Model(a, formula)
    requires forall l :: l in failed <==> Negated(l) in clause
    ensures exists l :: l in failed && !Holds(a, l)
  {
    assert SatClause(a, clause);
    var i :| 0 <= i < |clause| && Holds(a, clause[i]);
    var l := Negated(clause[i]);
    assert Negated(l) == clause[i];
    NegationFlips(a, l);
    assert l in failed;
  }

  lemma {:induction false} ClashIsImplied(formula: set<Clause>, l: Literal)
    ensures Implied(formula, [l, Negated(l)])
  {
    forall a: Assignment ensures SatClause(a, [l, Negated(l)]) {
      NegationFlips(a, l);
      if Holds(a, l) { assert Holds(a, [l, Negated(l)][0]); } else { assert Holds(a, [l, Negated(l)][1]); }
    }
  }

  lemma {:induction false} UnitFailure(t: Trail, formula: set<Clause>, assumptions: set<Literal>, first: Literal)
    requires ValidTrail(t, formula, assumptions) && Negated(first) in t.lits && Level(t, Var(first)) == 0
    ensures Implied(formula, [Negated(first)])
  {
    var i :| 0 <= i < |t.lits| && t.lits[i] == Negated(first);
  }

  lemma {:induction false} UnitDependsOnNothing(t: Trail, first: Literal)
    requires Level(t, Var(first)) == 0
    ensures forall l :: !DependsOn(t, Negated(first), l)
  {
    forall l: Literal, k: nat | Leads(t, Negated(first), l, k) ensures l == Negated(first) {
      UnitLeadsNowhere(t, Negated(first), l, k);
    }
  }

  lemma {:induction false} UnitLeadsNowhere(t: Trail, start: Literal, l: Literal, k: nat)
    requires Level(t, Var(start)) == 0 && Leads(t, start, l, k)
    ensures l == start
    decreases k
  {
    if k > 0 {
      var m :| Leads(t, start, m, k - 1) && CausedBy(t, m, l);
      UnitLeadsNowhere(t, start, m, k - 1);
    }
  }

  /** Exactly a falsified assumption of the smallest level, and the assumptions that its negation depends on. */
  ghost predicate Fails(t: Trail, first: Literal, assumed: set<Literal>, failed: set<Literal>) {
    && first in assumed && Val(t, first) < 0
    && (forall l :: l in assumed && Val(t, l) < 0 ==> Level(t, Var(first)) <= Level(t, Var(l)))
    && (forall l :: l in failed <==> l == first || DependsOn(t, Negated(first), l))
  }

  function Lits(c: seq<Literal>): set<Literal> { set l | l in c }

  /** The solver's assumption stack and the flags of its literals. */
  class Assumptions {
    var assumptions: seq<Literal>
    var assumed: set<Literal>
    var failed: set<Literal>

    /** Flags agree with the stack, which has no duplicates. */
    ghost predicate Valid()
      reads this
    {
      && assumed == Lits(assumptions) && failed <= assumed
      && (forall i, j :: 0 <= i < j < |assumptions| ==> assumptions[i] != assumptions[j])
    }

    constructor ()
      ensures Valid() && assumptions == [] && failed == {}
    {
      assumptions, assumed, failed := [], {}, {};
    }

    method Assume(lit: Literal)
      requires Valid()
      modifies this
      ensures Valid() && failed == old(failed)
      ensures assumptions == if lit in old(assumptions) then old(assumptions) else old(assumptions) + [lit]
    {
      if lit in assumed { return; }
      assumed := assumed + {lit};
      assumptions := assumptions + [lit];
    }

    /** Clears the stack and both flags of its literals. */
    method ResetAssumptions()
      requires Valid()
      modifies this
      ensures Valid() && assumptions == [] && assumed == {} && failed == {}
    {
      for i := 0 to |assumptions|
        invariant assumptions == old(assumptions)
        invariant forall l :: l in assumed ==> l in assumptions[i..]
        invariant failed <= assumed
      {
        var lit := assumptions[i];
        assumed, failed := assumed - {lit}, failed - {lit};
        assert assumptions[i..] == [lit] + assumptions[i + 1..];
      }
      assumptions := [];
    }

    method FindClash() returns (first: Literal, found: bool)
      requires Valid()
      ensures found ==> first in assumptions && first in assumed && Negated(first) in assumed && !NoClash(assumed)
      ensures !found ==> NoClash(assumed)
    {
      first, found := 1, false;
      for i := 0 to |assumptions|
        invariant forall k :: 0 <= k < i ==> Negated(assumptions[k]) !in assumed
      {
        if Negated(assumptions[i]) in assumed {
          assert assumptions[i] in assumed;
          return assumptions[i], true;
        }
      }
    }

    /** Among the falsified assumptions one with the smallest decision level. */
    method FindFalsified(t: Trail) returns (first: Literal)
      requires Valid() && exists l :: l in assumed && Val(t, l) < 0
      ensures first in assumed && Val(t, first) < 0
      ensures forall l :: l in assumed && Val(t, l) < 0 ==> Level(t, Var(first)) <= Level(t, Var(l))
    {
      first := 1;
      var found := false;
      for i := 0 to |assumptions|
        invariant found ==> first in assumed && Val(t, first) < 0
        invariant !found ==> forall k :: 0 <= k < i ==> Val(t, assumptions[k]) >= 0
        invariant found ==> forall k :: 0 <= k < i && Val(t, assumptions[k]) < 0 ==>
                                          Level(t, Var(first)) <= Level(t, Var(assumptions[k]))
      {
        var lit := assumptions[i];
        if Val(t, lit) < 0 && (!found || Level(t, Var(first)) > Level(t, Var(lit))) {
          first, found := lit, true;
        }
      }
    }

    /** Marks a set of failed assumptions. The clause of their negations is implied by the formula, so no
        model of the formula makes all of them true; nothing but assumptions is marked. */
    method Failing(t: Trail, ghost formula: set<Clause>) returns (clause: seq<Literal>)
      requires Valid() && failed == {}
      requires ValidTrail(t, formula, assumed)
      requires !NoClash(assumed) || exists l :: l in assumed && Val(t, l) < 0
      modifies `failed
      ensures Valid() && failed != {}
      ensures Implied(formula, clause)
      ensures forall l :: l in failed <==> Negated(l) in clause
      ensures if NoClash(assumed) then exists first :: Fails(t, first, assumed, failed)
              else exists first :: first in assumed && Negated(first) in assumed && failed == {first, Negated(first)}
    {
      hide ValidTrail, Implied, NoClash, Level, DependsOn;
      var first, clash := FindClash();
      if clash {
        ClashIsImplied(formula, first);
        clause := [first, Negated(first)];
        assert Negated(Negated(first)) == first;
        failed := failed + {first} + {Negated(first)};
      } else {
        first := FindFalsified(t);
        if Level(t, Var(first)) == 0 {
          UnitFailure(t, formula, assumed, first);
          UnitDependsOnNothing(t, first);
          clause := [Negated(first)];
          assert Negated(Negated(first)) == first;
          failed := failed + {first};
        } else {
          var core;
          clause, core := SearchImplicationGraph(t, formula, assumed, first);
          failed := failed + core;
        }
        assert Fails(t, first, assumed, failed);
      }
    }
  }
}
