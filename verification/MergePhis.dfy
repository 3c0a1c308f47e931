/** Where MergeBB stops being sound: erased blocks with PHIs. */
module MergePhis {
  import opened IR
  import opened Semantics
  import opened MergeSpec
  import opened MergeSound
  import opened MergeRuns
  import opened MergeWhole

  // ----- Exactly which merges are right -----

  /** Merging a into b leaves every PHI of b with an entry for each predecessor exactly when a has no
      PHIs or every predecessor of a already was one of b. */
  lemma RetainedPhisCoveredIff(f: Func, dead: set<Label>, a: Label, b: Label)
    requires WellFormed(f) && Mergeable(f, dead, a, b)
    ensures PhisCover(Redirect(f, a, b), b) <==> PredsShared(f, a, b)
  {
    var g := Redirect(f, a, b);
    PhiCountsAgree(f, a, b);
    forall p
      ensures g.Edge(p, b) <==> f.Edge(p, b) || f.Edge(p, a)
    {
      RedirectEdges(f, a, b, p, b);
    }
    assert g.blocks[b].phis == f.blocks[b].phis;
    if f.blocks[b].phis != [] {
      forall p
        ensures Lists(f.blocks[b].phis[0].incoming, p) <==> f.Edge(p, b)
      {
        assert PhisCover(f, b);
      }
    }
  }

  /** In any world and with any registers the PHIs of a and b have the same values, position by
      position, on entry from any predecessor of a. */
  ghost predicate PhisSameOnEntry(f: Func, a: Label, b: Label)
    requires a in f.blocks && b in f.blocks
  {
    forall w: World, e: Env, p :: f.Edge(p, a) ==> PhisAgree(w, f.blocks[a].phis, p, e, f.blocks[b].phis, p, e)
  }

  /** Two operands that are not the same have different values somewhere. */
  lemma Separated(x: Operand, y: Operand) returns (w: World, e: Env)
    requires x != y && !x.Const?
    ensures Val(w, x, e) != Val(w, y, e)
  {
    var v := if y.Const? then y.n else 0;
    w := World((op, args, mem) => Ok(0, mem),
               i => if x.Arg? && x.a == i then v + 1 else 0,
               i => if x.Global? && x.g == i then v + 1 else 0,
               []);
    e := if x.Ref? then map[x.r := v + 1] else map[];
  }

  lemma SeparatedEither(x: Operand, y: Operand) returns (w: World, e: Env)
    requires x != y
    ensures Val(w, x, e) != Val(w, y, e)
  {
    if !x.Const? {
      w, e := Separated(x, y);
    } else if !y.Const? {
      w, e := Separated(y, x);
    } else {
      w, e := World((op, args, mem) => Ok(0, mem), i => 0, i => 0, []), map[];
    }
  }

  lemma OtherOperandOtherValue(f: Func, a: Label, b: Label, p: Label, i: nat)
    requires a in f.blocks && b in f.blocks && f.Edge(p, a) && i < |f.blocks[a].phis| == |f.blocks[b].phis|
    requires Incoming(f.blocks[a].phis[i].incoming, p) != Incoming(f.blocks[b].phis[i].incoming, p)
    ensures !PhisSameOnEntry(f, a, b)
  {
    var w, e := SeparatedEither(Incoming(f.blocks[a].phis[i].incoming, p), Incoming(f.blocks[b].phis[i].incoming, p));
    assert !PhisAgree(w, f.blocks[a].phis, p, e, f.blocks[b].phis, p, e);
  }

  /** The check MergeBB leaves out is exact: an accepted pair's PHIs match if and only if, whatever
      the operations compute, entering b instead of a gives the PHIs the same values, and b's PHIs
      keep an entry for every predecessor. */
  lemma PhisMatchIff(f: Func, dead: set<Label>, a: Label, b: Label)
    requires WellFormed(f) && Mergeable(f, dead, a, b)
    ensures PhisMatch(f, a, b) <==> PhisSameOnEntry(f, a, b) && PhisCover(Redirect(f, a, b), b)
  {
    RetainedPhisCoveredIff(f, dead, a, b);
    PhiCountsAgree(f, a, b);
    if PhisMatch(f, a, b) {
      MatchShares(f, a, b);
      forall w: World, e: Env, p | f.Edge(p, a)
        ensures PhisAgree(w, f.blocks[a].phis, p, e, f.blocks[b].phis, p, e)
      {
        MatchedEntries(w, f, a, b, p, e);
      }
    }
    if PhisSameOnEntry(f, a, b) && PredsShared(f, a, b) {
      forall p, i | p in f.blocks && 0 <= i < |f.blocks[a].phis| && f.Edge(p, a)
        ensures f.Edge(p, b)
        ensures Incoming(f.blocks[a].phis[i].incoming, p) == Incoming(f.blocks[b].phis[i].incoming, p)
      {
        if Incoming(f.blocks[a].phis[i].incoming, p) != Incoming(f.blocks[b].phis[i].incoming, p) {
          OtherOperandOtherValue(f, a, b, p, i);
        }
      }
    }
  }

  // ----- One entry for each edge -----

  function EntriesFor(inc: seq<(Label, Operand)>, p: Label): nat {
    if inc == [] then 0 else (if inc[0].0 == p then 1 else 0) + EntriesFor(inc[1..], p)
  }

  /** Every PHI of l has as many entries for a block as the block has edges to l. */
  ghost predicate EntriesCounted(f: Func, l: Label)
    requires l in f.blocks
  {
    forall i, p :: 0 <= i < |f.blocks[l].phis| && p in f.blocks ==>
      EntriesFor(f.blocks[l].phis[i].incoming, p) == multiset(f.blocks[p].term.targets)[l]
  }

  lemma {:induction false} RedirectedCount(ts: seq<Label>, a: Label, b: Label)
    requires a != b
    ensures multiset(RedirectTargets(ts, a, b))[b] == multiset(ts)[b] + multiset(ts)[a]
  {
    if ts == [] {
      assert RedirectTargets(ts, a, b) == [];
    } else {
      RedirectedCount(ts[1..], a, b);
      assert ts == [ts[0]] + ts[1..];
      assert RedirectTargets(ts, a, b) == [Ren(a, b, ts[0])] + RedirectTargets(ts[1..], a, b);
    }
  }

  lemma CountAfter(f: Func, a: Label, b: Label, i: nat, p: Label)
    requires a != b && b in f.blocks && EntriesCounted(f, b) && i < |f.blocks[b].phis| && p in f.blocks
    ensures var g := Redirect(f, a, b);
      EntriesFor(g.blocks[b].phis[i].incoming, p) == multiset(g.blocks[p].term.targets)[b] <==> !f.Edge(p, a)
  {
    RedirectedCount(f.blocks[p].term.targets, a, b);
  }

  /** A merge adds edges to b and no entries to b's PHIs.  So where PHIs must have one entry for each
      edge, and not only for each predecessor, an accepted merge of blocks with PHIs keeps that
      exactly when a is never entered. */
  lemma RetainedPhisCountedIff(f: Func, dead: set<Label>, a: Label, b: Label)
    requires f.order != [] && Mergeable(f, dead, a, b) && EntriesCounted(f, b)
    ensures EntriesCounted(Redirect(f, a, b), b) <==> f.blocks[a].phis == [] || forall p :: !f.Edge(p, a)
  {
    PhiCountsAgree(f, a, b);
    forall i, p | 0 <= i < |f.blocks[b].phis| && p in f.blocks
      ensures var g := Redirect(f, a, b);
        EntriesFor(g.blocks[b].phis[i].incoming, p) == multiset(g.blocks[p].term.targets)[b] <==> !f.Edge(p, a)
    {
      CountAfter(f, a, b, i, p);
    }
    if EntriesCounted(Redirect(f, a, b), b) && f.blocks[a].phis != [] {
      forall p
        ensures !f.Edge(p, a)
      {
        if p in f.blocks {
          var _ := EntriesFor(f.blocks[b].phis[0].incoming, p);
        }
      }
    }
  }
}
