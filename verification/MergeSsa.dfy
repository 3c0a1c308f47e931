/** A run of MergeBB keeps a function verified: definitions still come before their uses. */
module MergeSsa {
  import opened IR
  import opened Semantics
  import opened Paths
  import opened StrictSsa
  import opened MergeSpec
  import opened MergeSound
  import opened MergeRuns
  import opened MergeWhole

  /** Entries of a PHI for the same predecessor are the same; the IR verifier guarantees it. */
  ghost predicate EntriesAgree(f: Func) {
    forall l, i :: l in f.blocks && 0 <= i < |f.blocks[l].phis| ==> OneEntryEach(f.blocks[l].phis[i].incoming)
  }

  ghost predicate OneEntryEach(inc: seq<(Label, Operand)>) {
    forall j, k :: 0 <= j < |inc| && 0 <= k < |inc| && inc[j].0 == inc[k].0 ==> inc[j].1 == inc[k].1
  }

  lemma EntryIsIncoming(inc: seq<(Label, Operand)>, k: nat)
    requires OneEntryEach(inc) && k < |inc|
    ensures Incoming(inc, inc[k].0) == inc[k].1
  {
    var i := IncomingAt(inc, inc[k].0);
  }

  // ----- Paths after one redirection -----

  /** q in the merged function stands for q' in the original. */
  ghost predicate Lifts(a: Label, b: Label, q: seq<Label>, q': seq<Label>) {
    |q'| == |q| && forall i :: 0 <= i < |q| ==> Ren(a, b, q'[i]) == q[i]
  }

  lemma SameTargets(f: Func, a: Label, b: Label, t: Label)
    requires GoodPair(f, a, b)
    ensures f.Edge(a, t) <==> f.Edge(b, t)
  {
  }

  /** An edge after the merge was one before, from whichever of the two blocks. */
  lemma LiftEdge(f: Func, a: Label, b: Label, p: Label, p': Label, s: Label) returns (s': Label)
    requires GoodPair(f, a, b) && Redirect(f, a, b).Edge(p, s) && Ren(a, b, p') == p
    ensures f.Edge(p', s') && Ren(a, b, s') == s
  {
    RedirectEdges(f, a, b, p, s);
    SameTargets(f, a, b, s);
    SameTargets(f, a, b, a);
    s' := if f.Edge(p', s) then s else a;
  }

  lemma LiftsMore(a: Label, b: Label, q: seq<Label>, r: seq<Label>, s: Label)
    requires q != [] && Lifts(a, b, q[..|q| - 1], r) && Ren(a, b, s) == q[|q| - 1]
    ensures Lifts(a, b, q, r + [s])
  {
    forall i | 0 <= i < |q|
      ensures Ren(a, b, (r + [s])[i]) == q[i]
    {
      assert i < |q| - 1 ==> q[..|q| - 1][i] == q[i];
    }
  }

  lemma LiftOne(f: Func, a: Label, b: Label, q: seq<Label>, r: seq<Label>) returns (q': seq<Label>)
    requires GoodPair(f, a, b) && |q| > 1 && IsPath(Redirect(f, a, b), q) && IsPath(f, r) && Lifts(a, b, q[..|q| - 1], r)
    ensures IsPath(f, q') && Lifts(a, b, q, q')
  {
    var n := |q| - 1;
    assert q[..n][n - 1] == q[n - 1];
    var s := LiftEdge(f, a, b, q[n - 1], r[n - 1], q[n]);
    PathExtends(f, r, s);
    LiftsMore(a, b, q, r, s);
    q' := r + [s];
  }

  lemma {:induction false} LiftPath(f: Func, a: Label, b: Label, q: seq<Label>) returns (q': seq<Label>)
    requires GoodPair(f, a, b) && IsPath(Redirect(f, a, b), q)
    ensures IsPath(f, q') && Lifts(a, b, q, q')
    decreases |q|
  {
    if |q| == 1 {
      q' := q;
    } else {
      var r := LiftPath(f, a, b, q[..|q| - 1]);
      q' := LiftOne(f, a, b, q, r);
    }
  }

  lemma NoPathIn(f: Func, a: Label, b: Label, q: seq<Label>)
    requires f.order != [] && a != f.order[0] && a != b
    ensures !PathTo(Redirect(f, a, b), q, a)
  {
    if PathTo(Redirect(f, a, b), q, a) {
      RedirectEdges(f, a, b, q[|q| - 2], a);
    }
  }

  // ----- Values on those paths -----

  lemma RedirectDefines(f: Func, a: Label, b: Label, l: Label, r: Reg)
    ensures DefinesValue(Redirect(f, a, b), l, r) <==> DefinesValue(f, l, r)
  {
    if DefinesValue(f, l, r) {
      var i: nat :| DefinedAt(f, l, i, r);
      assert DefinedAt(Redirect(f, a, b), l, i, r);
    }
    if DefinesValue(Redirect(f, a, b), l, r) {
      var i: nat :| DefinedAt(Redirect(f, a, b), l, i, r);
      assert DefinedAt(f, l, i, r);
    }
  }

  lemma OutsideDefines(f: Func, a: Label, b: Label, l: Label, r: Reg)
    requires a in f.blocks && b in f.blocks && r !in OwnOf(f, a, b) && DefinesValue(f, l, r)
    ensures l != a && l != b
  {
    var i: nat :| DefinedAt(f, l, i, r);
  }

  lemma LiftedDefines(f: Func, a: Label, b: Label, q: seq<Label>, q': seq<Label>, i: nat, r: Reg)
    requires a in f.blocks && b in f.blocks && r !in OwnOf(f, a, b) && Lifts(a, b, q, q') && i < |q| && DefinesValue(f, q'[i], r)
    ensures DefinesValue(Redirect(f, a, b), q[i], r)
  {
    OutsideDefines(f, a, b, q'[i], r);
    RedirectDefines(f, a, b, q[i], r);
  }

  /** A value from outside that is there on entry to l, and to a if l is b. */
  lemma RedirectAvailable(f: Func, a: Label, b: Label, r: Reg, l: Label)
    requires GoodPair(f, a, b) && r !in OwnOf(f, a, b) && Available(f, Ref(r), l) && (l == b ==> Available(f, Ref(r), a))
    ensures Available(Redirect(f, a, b), Ref(r), l)
  {
    var g := Redirect(f, a, b);
    forall q | PathTo(g, q, l)
      ensures exists i :: 0 <= i < |q| - 1 && DefinesValue(g, q[i], r)
    {
      var q' := LiftPath(f, a, b, q);
      assert PathTo(f, q', q'[|q'| - 1]) && Ren(a, b, q'[|q'| - 1]) == l;
      NoPathIn(f, a, b, q);
      var i :| 0 <= i < |q'| - 1 && DefinesValue(f, q'[i], r);
      LiftedDefines(f, a, b, q, q', i, r);
    }
  }

  lemma RedirectAtEnd(f: Func, a: Label, b: Label, r: Reg, l: Label)
    requires GoodPair(f, a, b) && r !in OwnOf(f, a, b) && AtEnd(f, l, r) && (l == b ==> AtEnd(f, a, r))
    ensures AtEnd(Redirect(f, a, b), l, r)
  {
    var g := Redirect(f, a, b);
    forall q | PathTo(g, q, l)
      ensures exists i :: 0 <= i < |q| && DefinesValue(g, q[i], r)
    {
      var q' := LiftPath(f, a, b, q);
      assert PathTo(f, q', q'[|q'| - 1]) && Ren(a, b, q'[|q'| - 1]) == l;
      NoPathIn(f, a, b, q);
      var i :| 0 <= i < |q'| && DefinesValue(f, q'[i], r);
      LiftedDefines(f, a, b, q, q', i, r);
    }
  }

  // ----- Bodies -----

  /** The instruction of a that faces one of b reads the same. */
  lemma SameArgs(x: Block, i: nat, y: Block, j: nat)
    requires i < Count(x) && j < Count(y) && SameOperation(x, i, y, j) && OperandsAt(x, i) == OperandsAt(y, j)
    requires j >= |y.phis| && !DbgAt(x, i) && !DbgAt(y, j)
    ensures i >= |x.phis| && x.body[i - |x.phis|].args == y.body[j - |y.phis|].args
  {
  }

  lemma FacingRead(f: Func, a: Label, b: Label, i: nat) returns (j: nat)
    requires GoodPair(f, a, b) && i < |f.blocks[b].body| && !f.blocks[b].body[i].op.dbg
    ensures j < |f.blocks[a].body| && !f.blocks[a].body[j].op.dbg && f.blocks[a].body[j].args == f.blocks[b].body[i].args
  {
    var x, y := f.blocks[a], f.blocks[b];
    var c := FacingOps(f, a, b, |y.phis| + i);
    SameArgs(x, c, y, |y.phis| + i);
    j := c - |x.phis|;
  }

  lemma ReadIsOutside(f: Func, a: Label, b: Label, i: nat, k: nat, r: Reg)
    requires GoodPair(f, a, b) && i < |f.blocks[b].body| && !f.blocks[b].body[i].op.dbg
    requires k < |f.blocks[b].body[i].args| && f.blocks[b].body[i].args[k] == Ref(r)
    ensures r !in OwnOf(f, a, b)
  {
    assert OperandsAt(f.blocks[b], |f.blocks[b].phis| + i) == f.blocks[b].body[i].args;
    SiteAvoidsOwn(f, a, b, Site(b, |f.blocks[b].phis| + i, k), r);
  }

  lemma OperandReaches(f: Func, l: Label, i: nat, k: nat, r: Reg)
    requires f.order != [] && l in f.blocks && BodySsa(f, l) && i < |f.blocks[l].body| && !f.blocks[l].body[i].op.dbg
    requires k < |f.blocks[l].body[i].args| && f.blocks[l].body[i].args[k] == Ref(r)
    ensures Reaches(f, l, i, r)
  {
  }

  /** What a merged block reads is from outside, and there on entry to both blocks. */
  lemma MergedRead(f: Func, a: Label, b: Label, i: nat, k: nat, r: Reg)
    requires GoodPair(f, a, b) && BodySsa(f, a) && BodySsa(f, b) && i < |f.blocks[b].body| && !f.blocks[b].body[i].op.dbg
    requires k < |f.blocks[b].body[i].args| && f.blocks[b].body[i].args[k] == Ref(r)
    ensures r !in OwnOf(f, a, b) && Available(f, Ref(r), a) && Available(f, Ref(r), b)
  {
    var j := FacingRead(f, a, b, i);
    ReadIsOutside(f, a, b, i, k, r);
    OperandReaches(f, b, i, k, r);
    OperandReaches(f, a, j, k, r);
    OutsideReaches(f, a, b, b, i, r);
    OutsideReaches(f, a, b, a, j, r);
  }

  /** What a merged block reads without writing it is available on entry. */
  lemma OutsideReaches(f: Func, a: Label, b: Label, x: Label, i: nat, r: Reg)
    requires f.order != [] && a in f.blocks && b in f.blocks && (x == a || x == b) && r !in OwnOf(f, a, b) && Reaches(f, x, i, r)
    ensures Available(f, Ref(r), x)
  {
    var y := f.blocks[x];
    assert WritesIn(OwnOf(f, a, b), y);
    BodyWritesIn(OwnOf(f, a, b), y);
  }

  lemma RetainedBodySsa(f: Func, a: Label, b: Label)
    requires GoodPair(f, a, b) && BodySsa(f, a) && BodySsa(f, b)
    ensures BodySsa(Redirect(f, a, b), b)
  {
    var g, y := Redirect(f, a, b), f.blocks[b];
    assert TermOk(f, y.term);
    forall i, k | 0 <= i < |y.body| && !y.body[i].op.dbg && 0 <= k < |y.body[i].args| && y.body[i].args[k].Ref?
      ensures Reaches(g, b, i, y.body[i].args[k].r)
    {
      MergedRead(f, a, b, i, k, y.body[i].args[k].r);
      RedirectAvailable(f, a, b, y.body[i].args[k].r, b);
    }
  }

  lemma ErasedBodySsa(f: Func, a: Label, b: Label)
    requires f.order != [] && a in f.blocks && a != f.order[0] && a != b
    ensures BodySsa(Redirect(f, a, b), a)
  {
    var g := Redirect(f, a, b);
    forall r: Reg
      ensures Available(g, Ref(r), a)
    {
      forall q
        ensures !PathTo(g, q, a)
      {
        NoPathIn(f, a, b, q);
      }
    }
  }

  lemma OtherReach(f: Func, a: Label, b: Label, l: Label, i: nat, r: Reg)
    requires GoodPair(f, a, b) && l in f.blocks && l != a && l != b && r !in OwnOf(f, a, b) && Reaches(f, l, i, r)
    ensures Reaches(Redirect(f, a, b), l, i, r)
  {
    if Available(f, Ref(r), l) {
      RedirectAvailable(f, a, b, r, l);
    }
  }

  lemma OtherBodySsa(f: Func, a: Label, b: Label, l: Label)
    requires GoodPair(f, a, b) && l in f.blocks && l != a && l != b && BodySsa(f, l)
    ensures BodySsa(Redirect(f, a, b), l)
  {
    var g, x := Redirect(f, a, b), f.blocks[l];
    BlockIsClean(f, a, b, l);
    forall i, k | 0 <= i < |x.body| && !x.body[i].op.dbg && 0 <= k < |x.body[i].args| && x.body[i].args[k].Ref?
      ensures Reaches(g, l, i, x.body[i].args[k].r)
    {
      OtherReach(f, a, b, l, i, x.body[i].args[k].r);
    }
    forall k | 0 <= k < |x.term.uses| && x.term.uses[k].Ref?
      ensures Reaches(g, l, |x.body|, x.term.uses[k].r)
    {
      OtherReach(f, a, b, l, |x.body|, x.term.uses[k].r);
    }
  }

  // ----- PHIs -----

  /** Only b's successor has PHI entries for b. */
  ghost predicate ListedBySucc(f: Func, b: Label) {
    forall l, i :: l in f.blocks && 0 <= i < |f.blocks[l].phis| && Lists(f.blocks[l].phis[i].incoming, b) ==> f.Edge(b, l)
  }

  /** An entry with a register of a merged block is for that block's own edge. */
  lemma OwnEntryAtEnd(f: Func, a: Label, b: Label, l: Label, i: nat, k: nat, r: Reg)
    requires GoodPair(f, a, b) && l in f.blocks && i < |f.blocks[l].phis| && k < |f.blocks[l].phis[i].incoming|
    requires OneEntryEach(f.blocks[l].phis[i].incoming) && f.blocks[l].phis[i].incoming[k].1 == Ref(r) && r in OwnOf(f, a, b)
    ensures DefinesValue(f, f.blocks[l].phis[i].incoming[k].0, r)
  {
    var inc := f.blocks[l].phis[i].incoming;
    var s := Site(l, i, k);
    assert UsedAt(f, s, r);
    var x, j := OwnPosition(f, a, b, r);
    OnlyUseIsPhi(f, a, b, x, j, s);
    UsedIsNotDbg(f, x, j, s);
    assert DefinedAt(f, x, j, r);
    SameEntry(f, l, i, inc[k].0, x, r, s);
  }

  lemma EntryForBoth(f: Func, a: Label, b: Label, i: nat, r: Reg)
    requires GoodPair(f, a, b) && r !in OwnOf(f, a, b) && i < |f.blocks[Succ(f, a)].phis|
    requires Incoming(f.blocks[Succ(f, a)].phis[i].incoming, b) == Ref(r) && PhisSsa(f, f.blocks[Succ(f, a)])
    ensures AtEnd(f, a, r)
  {
    var inc := f.blocks[Succ(f, a)].phis[0].incoming;
    assert f.Edge(a, Succ(f, a)) && i == 0;
    assert !DefinedIn(f, b, Ref(r));
    assert Incoming(inc, a) == Ref(r);
    var k := IncomingAt(inc, a);
  }

  lemma NeverThere(f: Func, a: Label, b: Label, r: Reg)
    requires f.order != [] && a != f.order[0] && a != b
    ensures AtEnd(Redirect(f, a, b), a, r)
  {
    forall q
      ensures !PathTo(Redirect(f, a, b), q, a)
    {
      NoPathIn(f, a, b, q);
    }
  }

  lemma OwnEntryKept(f: Func, a: Label, b: Label, l: Label, i: nat, k: nat, r: Reg)
    requires GoodPair(f, a, b) && l in f.blocks && i < |f.blocks[l].phis| && k < |f.blocks[l].phis[i].incoming|
    requires OneEntryEach(f.blocks[l].phis[i].incoming) && f.blocks[l].phis[i].incoming[k].1 == Ref(r) && r in OwnOf(f, a, b)
    ensures AtEnd(Redirect(f, a, b), f.blocks[l].phis[i].incoming[k].0, r)
  {
    var p := f.blocks[l].phis[i].incoming[k].0;
    OwnEntryAtEnd(f, a, b, l, i, k, r);
    RedirectDefines(f, a, b, p, r);
    DefinedAtEnd(Redirect(f, a, b), p, r);
  }

  // An entry for the retained block is one of the common successor, so the erased block ends with its value too.
  lemma RetainedEntryAtErased(f: Func, a: Label, b: Label, l: Label, i: nat, k: nat, r: Reg)
    requires GoodPair(f, a, b) && ListedBySucc(f, b) && Succ(f, a) in f.blocks && PhisSsa(f, f.blocks[Succ(f, a)])
    requires l in f.blocks && i < |f.blocks[l].phis| && k < |f.blocks[l].phis[i].incoming|
    requires OneEntryEach(f.blocks[l].phis[i].incoming) && f.blocks[l].phis[i].incoming[k] == (b, Ref(r))
    requires r !in OwnOf(f, a, b)
    ensures AtEnd(f, a, r)
  {
    var inc := f.blocks[l].phis[i].incoming;
    assert Lists(inc, b);
    assert l == Succ(f, a);
    EntryIsIncoming(inc, k);
    EntryForBoth(f, a, b, i, r);
  }

  lemma OutsideEntryKept(f: Func, a: Label, b: Label, l: Label, i: nat, k: nat, r: Reg)
    requires GoodPair(f, a, b) && ListedBySucc(f, b) && Succ(f, a) in f.blocks && PhisSsa(f, f.blocks[Succ(f, a)])
    requires l in f.blocks && i < |f.blocks[l].phis| && k < |f.blocks[l].phis[i].incoming|
    requires OneEntryEach(f.blocks[l].phis[i].incoming) && f.blocks[l].phis[i].incoming[k].1 == Ref(r) && r !in OwnOf(f, a, b)
    requires AtEnd(f, f.blocks[l].phis[i].incoming[k].0, r)
    ensures AtEnd(Redirect(f, a, b), f.blocks[l].phis[i].incoming[k].0, r)
  {
    var m := f.blocks[l].phis[i].incoming[k].0;
    if m == b {
      RetainedEntryAtErased(f, a, b, l, i, k, r);
    }
    RedirectAtEnd(f, a, b, r, m);
  }

  lemma EntryKept(f: Func, a: Label, b: Label, l: Label, i: nat, k: nat, r: Reg)
    requires GoodPair(f, a, b) && ListedBySucc(f, b) && Succ(f, a) in f.blocks && PhisSsa(f, f.blocks[Succ(f, a)])
    requires l in f.blocks && i < |f.blocks[l].phis| && k < |f.blocks[l].phis[i].incoming|
    requires OneEntryEach(f.blocks[l].phis[i].incoming) && f.blocks[l].phis[i].incoming[k].1 == Ref(r)
    requires AtEnd(f, f.blocks[l].phis[i].incoming[k].0, r)
    ensures AtEnd(Redirect(f, a, b), f.blocks[l].phis[i].incoming[k].0, r)
  {
    if f.blocks[l].phis[i].incoming[k].0 == a {
      NeverThere(f, a, b, r);
    } else if r in OwnOf(f, a, b) {
      OwnEntryKept(f, a, b, l, i, k, r);
    } else {
      OutsideEntryKept(f, a, b, l, i, k, r);
    }
  }

  lemma RedirectPhisSsa(f: Func, a: Label, b: Label, l: Label)
    requires GoodPair(f, a, b) && EntriesAgree(f) && ListedBySucc(f, b) && Succ(f, a) in f.blocks && PhisSsa(f, f.blocks[Succ(f, a)])
    requires l in f.blocks && PhisSsa(f, f.blocks[l])
    ensures PhisSsa(Redirect(f, a, b), Redirect(f, a, b).blocks[l])
  {
    var phis := f.blocks[l].phis;
    forall i, k | 0 <= i < |phis| && 0 <= k < |phis[i].incoming| && phis[i].incoming[k].1.Ref?
      ensures AtEnd(Redirect(f, a, b), phis[i].incoming[k].0, phis[i].incoming[k].1.r)
    {
      assert OneEntryEach(phis[i].incoming);
      EntryKept(f, a, b, l, i, k, phis[i].incoming[k].1.r);
    }
  }

  lemma RedirectBodySsa(f: Func, a: Label, b: Label, l: Label)
    requires GoodPair(f, a, b) && BodySsa(f, a) && BodySsa(f, b) && l in f.blocks && BodySsa(f, l)
    ensures BodySsa(Redirect(f, a, b), l)
  {
    if l == a {
      ErasedBodySsa(f, a, b);
    } else if l == b {
      RetainedBodySsa(f, a, b);
    } else {
      OtherBodySsa(f, a, b, l);
    }
  }

  lemma RedirectSsa(f: Func, a: Label, b: Label)
    requires GoodPair(f, a, b) && EntriesAgree(f) && ListedBySucc(f, b) && Ssa(f)
    ensures Ssa(Redirect(f, a, b))
  {
    var g := Redirect(f, a, b);
    assert Succ(f, a) in f.blocks;
    forall l | l in g.blocks
      ensures BodySsa(g, l) && PhisSsa(g, g.blocks[l])
    {
      assert BodySsa(f, a) && BodySsa(f, b) && PhisSsa(f, f.blocks[Succ(f, a)]);
      RedirectBodySsa(f, a, b, l);
      RedirectPhisSsa(f, a, b, l);
    }
  }

  // ----- Deleting a dead block -----

  lemma DropDefines(f: Func, d: Label, l: Label, r: Reg)
    requires d in f.blocks && l != d
    ensures DefinesValue(Drop(f, d), l, r) <==> DefinesValue(f, l, r)
  {
    var g := Drop(f, d);
    if DefinesValue(f, l, r) {
      var i: nat :| DefinedAt(f, l, i, r);
      assert DefinedAt(g, l, i, r);
    }
    if DefinesValue(g, l, r) {
      var i: nat :| DefinedAt(g, l, i, r);
      assert DefinedAt(f, l, i, r);
    }
  }

  lemma DropPath(f: Func, d: Label, q: seq<Label>)
    requires Unentered(f, d) && Drop(f, d).order != [] && Drop(f, d).order[0] == f.order[0] && IsPath(Drop(f, d), q)
    ensures IsPath(f, q) && forall i :: 0 <= i < |q| ==> q[i] != d
  {
    forall i | 0 < i < |q|
      ensures f.Edge(q[i - 1], q[i]) && q[i] != d
    {
      assert Drop(f, d).Edge(q[i - 1], q[i]);
      DropEdges(f, d, q[i - 1], q[i]);
    }
  }

  lemma DropAvailable(f: Func, d: Label, r: Reg, l: Label)
    requires Unentered(f, d) && Drop(f, d).order != [] && Drop(f, d).order[0] == f.order[0]
    ensures Available(f, Ref(r), l) ==> Available(Drop(f, d), Ref(r), l)
    ensures AtEnd(f, l, r) ==> AtEnd(Drop(f, d), l, r)
  {
    var g := Drop(f, d);
    forall q | PathTo(g, q, l) && Available(f, Ref(r), l)
      ensures exists i :: 0 <= i < |q| - 1 && DefinesValue(g, q[i], r)
    {
      DropPath(f, d, q);
      assert PathTo(f, q, l);
      var i :| 0 <= i < |q| - 1 && DefinesValue(f, q[i], r);
      DropDefines(f, d, q[i], r);
    }
    forall q | PathTo(g, q, l) && AtEnd(f, l, r)
      ensures exists i :: 0 <= i < |q| && DefinesValue(g, q[i], r)
    {
      DropPath(f, d, q);
      assert PathTo(f, q, l);
      var i :| 0 <= i < |q| && DefinesValue(f, q[i], r);
      DropDefines(f, d, q[i], r);
    }
  }

  lemma DropBlock(f: Func, d: Label, l: Label)
    requires d in f.blocks && l in f.blocks && l != d
    ensures var b, c := f.blocks[l], Drop(f, d).blocks[l];
      && c.body == b.body && c.term == b.term && |c.phis| == |b.phis|
      && forall i :: 0 <= i < |b.phis| ==> c.phis[i].dst == b.phis[i].dst
  {
  }

  lemma DropReach(f: Func, d: Label, l: Label, i: nat, r: Reg)
    requires Unentered(f, d) && Drop(f, d).order != [] && Drop(f, d).order[0] == f.order[0] && l in f.blocks && l != d
    requires Reaches(f, l, i, r)
    ensures Reaches(Drop(f, d), l, i, r)
  {
    DropBlock(f, d, l);
    DropAvailable(f, d, r, l);
    if exists j :: 0 <= j < |f.blocks[l].phis| && f.blocks[l].phis[j].dst == r {
      var j :| 0 <= j < |f.blocks[l].phis| && f.blocks[l].phis[j].dst == r;
      assert Drop(f, d).blocks[l].phis[j].dst == r;
    }
  }

  lemma DropBodySsa(f: Func, d: Label, l: Label)
    requires Unentered(f, d) && Drop(f, d).order != [] && Drop(f, d).order[0] == f.order[0] && l in f.blocks && l != d && BodySsa(f, l)
    ensures BodySsa(Drop(f, d), l)
  {
    var b := f.blocks[l];
    DropBlock(f, d, l);
    forall i, k | 0 <= i < |b.body| && !b.body[i].op.dbg && 0 <= k < |b.body[i].args| && b.body[i].args[k].Ref?
      ensures Reaches(Drop(f, d), l, i, b.body[i].args[k].r)
    {
      DropReach(f, d, l, i, b.body[i].args[k].r);
    }
    forall k | 0 <= k < |b.term.uses| && b.term.uses[k].Ref?
      ensures Reaches(Drop(f, d), l, |b.body|, b.term.uses[k].r)
    {
      DropReach(f, d, l, |b.body|, b.term.uses[k].r);
    }
  }

  /** The entries that are left were there before. */
  lemma LeftEntry(f: Func, d: Label, l: Label, i: nat, k: nat) returns (j: nat)
    requires d in f.blocks && l in f.blocks && l != d && i < |Drop(f, d).blocks[l].phis| && k < |Drop(f, d).blocks[l].phis[i].incoming|
    ensures i < |f.blocks[l].phis| && j < |f.blocks[l].phis[i].incoming|
    ensures f.blocks[l].phis[i].incoming[j] == Drop(f, d).blocks[l].phis[i].incoming[k]
  {
    var inc, inc' := f.blocks[l].phis[i].incoming, Drop(f, d).blocks[l].phis[i].incoming;
    if l in f.blocks[d].term.targets {
      DropEntriesIs(inc, d);
      assert inc'[k] in inc';
      j :| 0 <= j < |inc| && inc[j] == inc'[k];
    } else {
      j := k;
    }
  }

  lemma DropPhisSsa(f: Func, d: Label, l: Label)
    requires Unentered(f, d) && Drop(f, d).order != [] && Drop(f, d).order[0] == f.order[0] && l in f.blocks && l != d
    requires PhisSsa(f, f.blocks[l])
    ensures PhisSsa(Drop(f, d), Drop(f, d).blocks[l])
  {
    var phis := Drop(f, d).blocks[l].phis;
    forall i, k | 0 <= i < |phis| && 0 <= k < |phis[i].incoming| && phis[i].incoming[k].1.Ref?
      ensures AtEnd(Drop(f, d), phis[i].incoming[k].0, phis[i].incoming[k].1.r)
    {
      var j := LeftEntry(f, d, l, i, k);
      DropAvailable(f, d, phis[i].incoming[k].1.r, phis[i].incoming[k].0);
    }
  }

  lemma DropSsa(f: Func, d: Label)
    requires Unentered(f, d) && Drop(f, d).order != [] && Drop(f, d).order[0] == f.order[0] && Ssa(f)
    ensures Ssa(Drop(f, d))
  {
    forall l | l in Drop(f, d).blocks
      ensures BodySsa(Drop(f, d), l) && PhisSsa(Drop(f, d), Drop(f, d).blocks[l])
    {
      assert BodySsa(f, l) && PhisSsa(f, f.blocks[l]);
      DropBodySsa(f, d, l);
      DropPhisSsa(f, d, l);
    }
  }

  // ----- The whole run -----

  lemma StateLists(f: Func, dead: set<Label>, a: Label, b: Label)
    requires ScanState(f, dead) && Mergeable(f, dead, a, b)
    ensures ListedBySucc(f, b)
  {
    forall l, i | l in f.blocks && 0 <= i < |f.blocks[l].phis| && Lists(f.blocks[l].phis[i].incoming, b)
      ensures f.Edge(b, l)
    {
      assert l !in dead ==> PhisCover(f, l);
    }
  }

  lemma RedirectAgrees(f: Func, a: Label, b: Label)
    requires EntriesAgree(f)
    ensures EntriesAgree(Redirect(f, a, b))
  {
    forall l, i | l in f.blocks && 0 <= i < |f.blocks[l].phis|
      ensures OneEntryEach(Redirect(f, a, b).blocks[l].phis[i].incoming)
    {
      assert OneEntryEach(f.blocks[l].phis[i].incoming);
    }
  }

  lemma MergeSsa(f: Func, dead: set<Label>, a: Label, b: Label)
    requires ScanState(f, dead) && Mergeable(f, dead, a, b) && EntriesAgree(f) && Ssa(f)
    ensures EntriesAgree(Redirect(f, a, b)) && Ssa(Redirect(f, a, b))
  {
    ScanStateSound(f, dead, a, b);
    StateLists(f, dead, a, b);
    RedirectAgrees(f, a, b);
    RedirectSsa(f, a, b);
  }

  lemma FirstSsa(f: Func, todo: seq<Label>, dead: set<Label>, into: seq<Option<Label>>, g: Func, dead': set<Label>)
    returns (f1: Func, dead1: set<Label>)
    requires f.order != [] && Scanned(f, todo, dead, into, g, dead') && todo != []
    requires ScanState(f, dead) && Fresh(todo, dead) && PhisMatched(f, todo, into) && EntriesAgree(f) && Ssa(f)
    ensures f1.order == f.order && Scanned(f1, todo[1..], dead1, into[1..], g, dead')
    ensures ScanState(f1, dead1) && Fresh(todo[1..], dead1) && PhisMatched(f1, todo[1..], into[1..])
    ensures EntriesAgree(f1) && Ssa(f1)
  {
    FreshTail(todo, dead);
    match into[0]
    case Some(b) =>
      MatchShares(f, todo[0], b);
      MergeKeepsState(f, dead, todo[0], b);
      MergeSsa(f, dead, todo[0], b);
      f1, dead1 := Redirect(f, todo[0], b), dead + {todo[0]};
    case None =>
      f1, dead1 := f, dead;
  }

  lemma {:induction false} ScanSsa(f: Func, todo: seq<Label>, dead: set<Label>, into: seq<Option<Label>>, g: Func, dead': set<Label>)
    requires f.order != [] && Scanned(f, todo, dead, into, g, dead')
    requires ScanState(f, dead) && Fresh(todo, dead) && PhisMatched(f, todo, into) && EntriesAgree(f) && Ssa(f)
    ensures g.order == f.order && Ssa(g)
    decreases todo
  {
    if todo != [] {
      var f1, dead1 := FirstSsa(f, todo, dead, into, g, dead');
      ScanSsa(f1, todo[1..], dead1, into[1..], g, dead');
    }
  }

  lemma DeleteOneSsa(g: Func, dead: set<Label>, d: Label)
    requires ScanState(g, dead) && d in dead && Ssa(g)
    ensures d in g.blocks && ScanState(Drop(g, d), dead - {d}) && Ssa(Drop(g, d))
  {
    assert Erased(g, d);
    DropKeepsState(g, dead, d);
    DropSsa(g, d);
  }

  lemma {:induction false} DeletedSsa(g: Func, dead: set<Label>, ds: seq<Label>, h: Func)
    requires ScanState(g, dead) && Deleted(g, ds, h) && Listing(ds, dead) && Ssa(g)
    ensures h.order != [] && Ssa(h)
    decreases ds
  {
    if ds != [] {
      ListingTail(ds, dead);
      DeleteOneSsa(g, dead, ds[0]);
      DeletedSsa(Drop(g, ds[0]), dead - {ds[0]}, ds[1..], h);
    }
  }

  /** The IR verifier accepts what MergeBB makes of a function it accepts, if the PHIs of each pair
      match when it is merged. */
  lemma MergeRunVerified(w: World, f: Func, into: seq<Option<Label>>, dead: set<Label>, ds: seq<Label>, h: Func)
    requires Verified(f) && EntriesAgree(f) && MergeRun(f, into, dead, ds, h)
    requires |into| == |f.order| && PhisMatched(f, f.order, into)
    ensures Verified(h)
  {
    MergeRunAt(w, f, into, dead, ds, h, 0);
    var g :| Scanned(f, f.order, {}, into, g, dead) && Deleted(g, ds, h);
    assert ScanState(f, {});
    ScanKeepsState(w, f, f.order, {}, into, g, dead);
    ScanSsa(f, f.order, {}, into, g, dead);
    DeletedSsa(g, dead, ds, h);
  }
}
