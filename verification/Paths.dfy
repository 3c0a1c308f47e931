/** Paths through the control-flow graph and dominance. */
module Paths {
  import opened IR
  import opened Semantics

  /** p starts at the entry and follows edges. */
  ghost predicate IsPath(f: Func, p: seq<Label>)
    requires f.order != []
  {
    && p != [] && p[0] == f.order[0]
    && forall i :: 0 < i < |p| ==> f.Edge(p[i - 1], p[i])
  }

  ghost predicate PathTo(f: Func, p: seq<Label>, l: Label)
    requires f.order != []
  {
    IsPath(f, p) && p[|p| - 1] == l
  }

  ghost predicate Reachable(f: Func, l: Label)
    requires f.order != []
  {
    exists p :: PathTo(f, p, l)
  }

  /** Every path to l goes through d. */
  ghost predicate Dominates(f: Func, d: Label, l: Label)
    requires f.order != []
  {
    forall p :: PathTo(f, p, l) ==> d in p
  }

  ghost predicate StrictlyDominates(f: Func, d: Label, l: Label)
    requires f.order != []
  {
    d != l && Reachable(f, l) && Dominates(f, d, l)
  }

  // ----- Values on paths -----

  ghost predicate DefinesValue(f: Func, l: Label, r: Reg) {
    exists i: nat :: DefinedAt(f, l, i, r)
  }

  /** x can be read on entry to l: if it is a register, every path to l has gone, before its end,
      through a block that defines it. */
  ghost predicate Available(f: Func, x: Operand, l: Label)
    requires f.order != []
  {
    x.Ref? ==> forall p :: PathTo(f, p, l) ==> exists i :: 0 <= i < |p| - 1 && DefinesValue(f, p[i], x.r)
  }

  /** r is written on every path to the end of l. */
  ghost predicate AtEnd(f: Func, l: Label, r: Reg)
    requires f.order != []
  {
    forall p :: PathTo(f, p, l) ==> exists i :: 0 <= i < |p| && DefinesValue(f, p[i], r)
  }

  lemma PathExtends(f: Func, p: seq<Label>, m: Label)
    requires f.order != [] && IsPath(f, p) && f.Edge(p[|p| - 1], m)
    ensures IsPath(f, p + [m])
  {
  }

  lemma PathBlocks(f: Func, q: seq<Label>)
    requires Shape(f) && (forall l :: l in f.blocks ==> TermOk(f, f.blocks[l].term)) && IsPath(f, q)
    ensures forall j :: 0 <= j < |q| ==> q[j] in f.blocks
  {
    forall j | 0 <= j < |q|
      ensures q[j] in f.blocks
    {
      if j > 0 {
        assert f.Edge(q[j - 1], q[j]);
        assert TermOk(f, f.blocks[q[j - 1]].term);
      } else {
        assert f.order[0] in f.order;
      }
    }
  }

  /** blocks lists the header first and every block after its dominators. */
  datatype Loop = Loop(header: Label, blocks: seq<Label>)

  /** The blocks a run has entered before its current one, and the current one. */
  ghost function Visited(w: World, f: Func, n: nat): seq<Label>
    requires f.order != []
  {
    (if n == 0 then [] else Visited(w, f, n - 1)) +
    (if Run(w, f, n).At? then [Run(w, f, n).cur] else [])
  }

  lemma LeaveTarget(w: World, f: Func, c: Config)
    requires c.At? && Step(w, f, c).At?
    ensures Step(w, f, c).prev == c.cur && f.Edge(c.cur, Step(w, f, c).cur)
  {
  }

  /** The blocks a run enters are a path, and the last two are the run's previous and current block. */
  lemma {:induction false} RunIsPath(w: World, f: Func, n: nat)
    requires f.order != [] && Run(w, f, n).At?
    ensures PathTo(f, Visited(w, f, n), Run(w, f, n).cur)
    ensures |Visited(w, f, n)| == n + 1
    ensures n > 0 ==> Run(w, f, n - 1).At? && Run(w, f, n).prev == Run(w, f, n - 1).cur
    ensures n > 0 ==> Visited(w, f, n) == Visited(w, f, n - 1) + [Run(w, f, n).cur]
  {
    if n > 0 {
      assert Run(w, f, n) == Step(w, f, Run(w, f, n - 1));
      RunIsPath(w, f, n - 1);
      LeaveTarget(w, f, Run(w, f, n - 1));
    }
  }
}
