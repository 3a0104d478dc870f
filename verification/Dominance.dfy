// Dominance by paths from the entry, and the measure on which the rebuilder's recursion rests.
module Dominance {
  import opened Words
  import opened FlowProgram

  // A walk from the entry to block b.
  ghost predicate Walk(p: Program, path: seq<nat>, b: nat) {
    && path != [] && path[0] == 0 && path[|path| - 1] == b
    && (forall i :: 0 <= i < |path| ==> path[i] < |p|)
    && forall i :: 0 <= i < |path| - 1 ==> path[i + 1] in Succs(p[path[i]].term)
  }

  ghost predicate Reachable(p: Program, b: nat) { exists path :: Walk(p, path, b) }

  // Every way from the entry to b goes through d.
  ghost predicate Dominates(p: Program, d: nat, b: nat) {
    forall path :: Walk(p, path, b) ==> d in path
  }

  ghost predicate StrictlyDominates(p: Program, d: nat, b: nat) { d != b && Dominates(p, d, b) }

  ghost function Dominators(p: Program, b: nat): (ds: set<nat>)
    ensures |ds| <= |p|
  {
    var ds := set d | d in Numbers(|p|) && Dominates(p, d, b);
    SubsetSize(ds, Numbers(|p|));
    ds
  }

  lemma {:induction false} Prefix(p: Program, path: seq<nat>, b: nat, i: nat)
    requires Walk(p, path, b) && i < |path|
    ensures Walk(p, path[..i + 1], path[i])
  {
  }

  // The part of a walk up to the first visit of its end.
  lemma {:induction false} FirstVisit(p: Program, path: seq<nat>, b: nat) returns (i: nat)
    requires Walk(p, path, b)
    ensures i < |path| && path[i] == b && b !in path[..i]
  {
    i := 0;
    while path[i] != b
      invariant i < |path| && b !in path[..i]
      decreases |path| - i
    {
      i := i + 1;
    }
  }

  // Going up to a strict dominator of a reachable block leaves strictly fewer dominators, so a chain of
  // demands never comes back to a block it started from.
  lemma {:induction false} StrictDominatorsShrink(p: Program, d: nat, b: nat)
    requires Reachable(p, b) && StrictlyDominates(p, d, b)
    ensures Reachable(p, d) && Dominators(p, d) < Dominators(p, b) && |Dominators(p, d)| < |Dominators(p, b)|
    ensures !Dominates(p, b, d)
  {
    var path :| Walk(p, path, b);
    var i := FirstVisit(p, path, b);
    Prefix(p, path, b, i);
    assert d in path[..i + 1];
    var j :| 0 <= j < i + 1 && path[j] == d;
    Prefix(p, path, b, j);
    assert j < i;
    assert b !in path[..j + 1];
    assert b < |p| && b in Dominators(p, b) by {
      forall way | Walk(p, way, b) ensures b in way { assert way[|way| - 1] == b; }
    }
    forall e | e in Dominators(p, d) ensures e in Dominators(p, b) {
      forall way | Walk(p, way, b) ensures e in way {
        var k :| 0 <= k < |way| && way[k] == d;
        Prefix(p, way, b, k);
        assert e in way[..k + 1];
      }
    }
    SubsetSize(Dominators(p, d), Dominators(p, b));
  }
}
