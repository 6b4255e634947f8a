/** Threads of a protocol and what they are doing. A protocol is an initial predicate, a
    step relation between states, and its runs are the sequences of states that they allow. */
module Threads {

  type Tid = nat

  /** The threads that are at one of the given places. */
  function At<P(==)>(pc: map<Tid, P>, places: set<P>): set<Tid> {
    set t | t in pc && pc[t] in places
  }

  lemma AtUpdate<P>(pc: map<Tid, P>, t: Tid, p: P, places: set<P>)
    requires t in pc
    ensures At(pc[t := p], places) == if p in places then At(pc, places) + {t} else At(pc, places) - {t}
  {}

  /** How the number of threads at the given places changes when one thread moves. */
  lemma CountUpdate<P>(pc: map<Tid, P>, t: Tid, p: P, places: set<P>)
    requires t in pc
    ensures |At(pc[t := p], places)| == |At(pc, places)|
      + (if p in places then 1 else 0) - (if pc[t] in places then 1 else 0)
  {
    AtUpdate(pc, t, p, places);
    if p in places {
      if t in At(pc, places) { assert At(pc, places) + {t} == At(pc, places); }
    } else {
      if t !in At(pc, places) { assert At(pc, places) - {t} == At(pc, places); }
    }
  }

  lemma SingletonSet(s: set<Tid>, t: Tid, u: Tid)
    requires |s| == 1 && t in s && u in s
    ensures t == u
  {
    assert |s - {t}| == 0;
    assert u !in s - {t};
  }

  lemma NonEmptySet(s: set<Tid>)
    ensures |s| > 0 <==> exists t :: t in s
  {
    if |s| > 0 { var t :| t in s; }
  }

  /** Threads move from one set to another. */
  lemma Transfer(b: set<Tid>, k: set<Tid>, woken: set<Tid>)
    requires b !! k
    ensures |b - woken| + |k + woken * b| == |b| + |k|
  {
    var x, y := b - woken, woken * b;
    assert x + y == b;
    assert |b| == |x| + |y|;
    assert k !! y;
  }

  lemma SubsetCount(a: set<Tid>, b: set<Tid>)
    requires a <= b
    ensures |a| <= |b|
  {
    assert b == a + (b - a);
  }
}
