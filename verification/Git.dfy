/** Commits the way git stores them: a commit's name is a hash of its content
    and of its parents' names, so a commit determines its whole history. */
module Git {

  datatype Commit = Commit(parents: seq<Commit>, what: Payload)

  /** `Authored` is any commit somebody wrote. `Picked` is the result of
      cherry-picking `orig`: `byHand` when a person finished the pick after a
      conflict, `signed` when the commit carries the user's good signature. */
  datatype Payload =
    | Authored(id: nat, good: bool)
    | Picked(orig: Commit, signed: bool, byHand: bool)

  /** Every commit reachable from `c`, itself included. */
  function Reach(c: Commit): set<Commit> {
    {c} + set p, x | p in c.parents && x in Reach(p) :: x
  }

  /** `git merge-base --is-ancestor`. */
  predicate Ancestor(a: Commit, b: Commit) {
    a in Reach(b)
  }

  /** The commits of the range `from..to`. */
  function Range(from: Commit, to: Commit): set<Commit> {
    Reach(to) - Reach(from)
  }

  /** What `%G?` reports: "G" for a signature git can verify. */
  predicate Good(c: Commit) {
    match c.what
    case Authored(_, good) => good
    case Picked(_, signed, _) => signed
  }

  lemma {:induction false} ReachTransitive(a: Commit, b: Commit)
    requires Ancestor(a, b)
    ensures Reach(a) <= Reach(b)
    decreases b
  {
    if a != b {
      var p :| p in b.parents && a in Reach(p);
      ReachTransitive(a, p);
    }
  }

  function Size(c: Commit): nat {
    1 + SizeAll(c.parents)
  }

  function SizeAll(s: seq<Commit>): nat {
    if s == [] then 0 else Size(s[0]) + SizeAll(s[1..])
  }

  lemma {:induction false} SizeOfParent(p: Commit, s: seq<Commit>)
    requires p in s
    ensures Size(p) <= SizeAll(s)
  {
    if p != s[0] {
      SizeOfParent(p, s[1..]);
    }
  }

  lemma {:induction false} AncestorSize(a: Commit, b: Commit)
    requires Ancestor(a, b)
    ensures a == b || Size(a) < Size(b)
    decreases b
  {
    if a != b {
      var p :| p in b.parents && a in Reach(p);
      AncestorSize(a, p);
      SizeOfParent(p, b.parents);
    }
  }

  /** Ancestry is antisymmetric: two commits that reach each other are one. */
  lemma AncestorAntisymmetric(a: Commit, b: Commit)
    requires Ancestor(a, b) && Ancestor(b, a)
    ensures a == b
  {
    AncestorSize(a, b);
    AncestorSize(b, a);
  }
}
