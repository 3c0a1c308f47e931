/** A whole run of DuplicateBB: the chosen blocks are cloned one after the other. */
module DuplicateRun {
  import opened IR
  import opened Semantics
  import opened Paths
  import opened RIV
  import opened Renaming
  import opened DuplicateSpec
  import opened DuplicateSound
  import opened DuplicateShape

  // ----- Paths of the clone are paths of the original -----

  /** The clone's path q without the new blocks, and what its blocks say about q. */
  ghost predicate Projects(f: Func, l: Label, k: nat, q: seq<Label>, p: seq<Label>)
    requires f.order != []
  {
    && q != [] && IsPath(f, p)
    && (var m := q[|q| - 1];
        && (m < k ==> p[|p| - 1] == m && Passed(l, k, q[..|q| - 1], p[..|p| - 1]))
        && (m >= k ==> p[|p| - 1] == l && l in q[..|q| - 1] && Passed(l, k, q, p[..|p| - 1])))
  }

  /** Every block in p was passed in q, l through to its tail. */
  ghost predicate Passed(l: Label, k: nat, q: seq<Label>, p: seq<Label>) {
    forall x :: x in p ==> x in q && (x == l ==> k + 2 in q)
  }

  lemma PathPrefix(g: Func, q: seq<Label>)
    requires g.order != [] && IsPath(g, q) && |q| > 1
    ensures IsPath(g, q[..|q| - 1]) && g.Edge(q[|q| - 2], q[|q| - 1])
  {
  }

  lemma Split(p: seq<Label>)
    requires p != []
    ensures forall x :: x in p <==> x in p[..|p| - 1] || x == p[|p| - 1]
  {
    assert p == p[..|p| - 1] + [p[|p| - 1]];
  }

  /** From m', the end of q, to an original block m. */
  lemma ProjectOut(f: Func, l: Label, k: nat, q: seq<Label>, p: seq<Label>, m: Label)
    requires f.order != [] && Projects(f, l, k, q, p) && m < k && l < k
    requires var m' := q[|q| - 1]; (m' < k && m' != l && f.Edge(m', m)) || (m' == k + 2 && f.Edge(l, m))
    ensures Projects(f, l, k, q + [m], p + [m])
  {
    Split(q);
    Split(p);
    PathExtends(f, p, m);
    assert (q + [m])[..|q + [m]| - 1] == q && (p + [m])[..|p + [m]| - 1] == p;
  }

  /** From m', the end of q, to a new block m. */
  lemma ProjectIn(f: Func, l: Label, k: nat, q: seq<Label>, p: seq<Label>, m: Label)
    requires f.order != [] && Projects(f, l, k, q, p) && m >= k && l < k
    requires var m' := q[|q| - 1]; m' == l || m' >= k
    ensures Projects(f, l, k, q + [m], p)
  {
    Split(q);
    assert (q + [m])[..|q + [m]| - 1] == q;
  }

  lemma {:induction false} Project(f: Func, l: Label, ctx: Operand, n: nat, k: nat, q: seq<Label>) returns (p: seq<Label>)
    requires f.order != [] && l in f.blocks && LabelsBelow(f, k) && f.order[0] < k
    requires forall x, t :: x in f.blocks && t in f.blocks[x].term.targets ==> t < k
    requires Clone(f, l, ctx, n, k).order != [] && Clone(f, l, ctx, n, k).order[0] == f.order[0]
    requires IsPath(Clone(f, l, ctx, n, k), q)
    ensures Projects(f, l, k, q, p)
  {
    if |q| == 1 {
      p := q;
    } else {
      var q', m := q[..|q| - 1], q[|q| - 1];
      PathPrefix(Clone(f, l, ctx, n, k), q);
      p := Project(f, l, ctx, n, k, q');
      CloneEdges(f, l, ctx, n, k, q'[|q'| - 1], m);
      assert q' + [m] == q;
      if m < k {
        ProjectOut(f, l, k, q', p, m);
        p := p + [m];
      } else {
        ProjectIn(f, l, k, q', p, m);
      }
    }
  }

  // ----- Values stay available -----

  lemma TailDefines(f: Func, l: Label, ctx: Operand, n: nat, k: nat, d: Label, i: nat, r: Reg)
    requires l in f.blocks && LabelsBelow(f, k) && UniqueDefs(f) && DefinedAt(f, d, i, r) && r in Rho(f, l, n)
    ensures d == l && DefinesValue(Clone(f, l, ctx, n, k), k + 2, Rho(f, l, n)[r])
  {
    var b := f.blocks[l];
    var j := ArmKey(b.body, n + 3, |b.body|, r);
    OneDef(f, d, i, l, |b.phis| + j);
    var t := TailPhiOf(b.body, n, k, |b.body|, j);
    CloneHas(f, l, ctx, n, k, k + 2);
    assert DefinedAt(Clone(f, l, ctx, n, k), k + 2, t, n + 3 * j + 3);
  }

  lemma CloneDefines(f: Func, l: Label, ctx: Operand, n: nat, k: nat, d: Label, r: Reg)
    requires l in f.blocks && LabelsBelow(f, k) && UniqueDefs(f) && DefinesValue(f, d, r)
    ensures r in Rho(f, l, n) ==> d == l && DefinesValue(Clone(f, l, ctx, n, k), k + 2, Rho(f, l, n)[r])
    ensures r !in Rho(f, l, n) ==> DefinesValue(Clone(f, l, ctx, n, k), d, r)
  {
    var i: nat :| DefinedAt(f, d, i, r);
    if r in Rho(f, l, n) {
      TailDefines(f, l, ctx, n, k, d, i, r);
    } else {
      if d == l {
        OutsideRho(f, l, n, i, r);
      }
      CloneHas(f, l, ctx, n, k, d);
      assert |PhisAfterSplit(f, l, k + 2, d)| == |f.blocks[d].phis|;
      assert DefinedAt(Clone(f, l, ctx, n, k), d, i, r);
    }
  }

  lemma AvailableOn(f: Func, l: Label, ctx: Operand, n: nat, k: nat, r: Reg, q: seq<Label>, p: seq<Label>, i: nat) returns (j: nat)
    requires l in f.blocks && LabelsBelow(f, k) && UniqueDefs(f) && f.order != []
    requires Projects(f, l, k, q, p) && q[|q| - 1] < k && i < |p| - 1 && DefinesValue(f, p[i], r)
    ensures j < |q| - 1 && DefinesValue(Clone(f, l, ctx, n, k), q[j], Image(Rho(f, l, n), r))
  {
    CloneDefines(f, l, ctx, n, k, p[i], r);
    var d := if r in Rho(f, l, n) then k + 2 else p[i];
    assert p[..|p| - 1][i] == p[i];
    assert d in q[..|q| - 1];
    j :| 0 <= j < |q| - 1 && q[j] == d;
  }

  /** What could be read on entry to m can be read there, under its new name, after l was cloned. */
  lemma AvailableKept(f: Func, l: Label, ctx: Operand, n: nat, k: nat, x: Operand, m: Label)
    requires l in f.blocks && LabelsBelow(f, k) && UniqueDefs(f) && f.order != [] && f.order[0] < k
    requires forall x, t :: x in f.blocks && t in f.blocks[x].term.targets ==> t < k
    requires m in f.blocks && Available(f, x, m)
    requires Clone(f, l, ctx, n, k).order != [] && Clone(f, l, ctx, n, k).order[0] == f.order[0]
    ensures Available(Clone(f, l, ctx, n, k), SubOp(Rho(f, l, n), x), m)
  {
    var g := Clone(f, l, ctx, n, k);
    if x.Ref? {
      forall q | PathTo(g, q, m)
        ensures exists i :: 0 <= i < |q| - 1 && DefinesValue(g, q[i], Image(Rho(f, l, n), x.r))
      {
        var p := Project(f, l, ctx, n, k, q);
        assert PathTo(f, p, m);
        var i :| 0 <= i < |p| - 1 && DefinesValue(f, p[i], x.r);
        var j := AvailableOn(f, l, ctx, n, k, x.r, q, p, i);
      }
    }
  }

  lemma TargetsBelow(f: Func, n: nat, k: nat)
    requires Ready(f, n, k)
    ensures forall x, t :: x in f.blocks && t in f.blocks[x].term.targets ==> t < k
    ensures f.order[0] < k
  {
    assert f.order[0] in f.order;
    forall x, t | x in f.blocks && t in f.blocks[x].term.targets
      ensures t < k
    {
      assert BlockReady(f, f.blocks[x], n);
    }
  }

  // ----- The run -----

  type Targets = seq<(Label, Operand)>

  datatype State = State(f: Func, remap: map<Reg, Reg>, n: nat, k: nat)

  /** One call of cloneBB: the context value is looked up once in the map of replaced values. */
  function CloneOne(s: State, l: Label, v: Operand): State
    requires l in s.f.blocks
  {
    State(Clone(s.f, l, SubOp(s.remap, v), s.n, s.k), s.remap + Rho(s.f, l, s.n), NextReg(s.f, l, s.n), s.k + 3)
  }

  ghost predicate TargetsOk(s: State, ts: Targets) {
    && (forall i :: 0 <= i < |ts| ==> ts[i].0 in s.f.blocks && ts[i].0 < s.k)
    && (forall i, j :: 0 <= i < j < |ts| ==> ts[i].0 != ts[j].0)
  }

  lemma CloneOneHas(s: State, l: Label, v: Operand, m: Label)
    requires l in s.f.blocks && m in s.f.blocks
    ensures m in CloneOne(s, l, v).f.blocks
  {
    CloneHas(s.f, l, SubOp(s.remap, v), s.n, s.k, m);
  }

  lemma TargetsOkTail(s: State, ts: Targets)
    requires TargetsOk(s, ts) && ts != []
    ensures TargetsOk(CloneOne(s, ts[0].0, ts[0].1), ts[1..])
  {
    forall i | 0 <= i < |ts[1..]|
      ensures ts[1..][i].0 in CloneOne(s, ts[0].0, ts[0].1).f.blocks
    {
      CloneOneHas(s, ts[0].0, ts[0].1, ts[i + 1].0);
    }
  }

  function CloneAll(s: State, ts: Targets): State
    requires TargetsOk(s, ts)
    decreases ts
  {
    if ts == [] then s
    else
      TargetsOkTail(s, ts);
      CloneAll(CloneOne(s, ts[0].0, ts[0].1), ts[1..])
  }

  /** What holds before every call of cloneBB.  n0 is the first register the run invented: the map
      of replaced values leads from registers below n0 to registers above, so one lookup suffices. */
  ghost predicate RunPoint(s: State, n0: nat, pending: Targets, heads: set<Label>) {
    match s
    case State(f, _, _, _) => BasePoint(s, n0) && AllPending(s, n0, pending) && AllHeads(f, heads)
  }

  ghost predicate BasePoint(s: State, n0: nat) {
    Ready(s.f, s.n, s.k) && WellFormed(s.f) && n0 <= s.n && forall r :: r in s.remap ==> r < n0 <= s.remap[r]
  }

  ghost predicate AllPending(s: State, n0: nat, pending: Targets)
    requires s.f.order != []
  {
    forall i :: 0 <= i < |pending| ==> pending[i].0 in s.f.blocks && PendingOk(s, n0, pending[i].0, pending[i].1)
  }

  ghost predicate AllHeads(f: Func, heads: set<Label>)
    requires f.order != []
  {
    forall l :: l in heads ==> l in f.blocks && HeadOk(f, l)
  }

  /** The block still has its original body, and its context value, looked up, exists and is
      available. */
  ghost predicate PendingOk(s: State, n0: nat, l: Label, v: Operand)
    requires l in s.f.blocks && s.f.order != []
  {
    && BodyBelowDsts(s.f.blocks[l].body, n0)
    && (forall i :: 0 <= i < |s.f.blocks[l].body| ==> s.f.blocks[l].body[i].dst !in s.remap)
    && (v.Ref? ==> v.r < n0)
    && Known(s.f, SubOp(s.remap, v)) && Available(s.f, SubOp(s.remap, v), l)
  }

  ghost predicate BodyBelowDsts(body: seq<Instr>, n: nat) {
    forall i :: 0 <= i < |body| ==> body[i].dst < n
  }

  /** The block ends in a condition on a value that exists and is available. */
  ghost predicate HeadOk(f: Func, l: Label)
    requires l in f.blocks && f.order != []
  {
    var b := f.blocks[l];
    && |b.body| == 1 && b.body[0].op == IS_NULL && |b.body[0].args| == 1
    && Known(f, b.body[0].args[0]) && Available(f, b.body[0].args[0], l)
  }

  lemma CloneOrder(f: Func, l: Label, ctx: Operand, n: nat, k: nat)
    requires Shape(f) && l in f.blocks && LabelsBelow(f, k)
    ensures Clone(f, l, ctx, n, k).order != [] && Clone(f, l, ctx, n, k).order[0] == f.order[0]
    ensures |Clone(f, l, ctx, n, k).order| == |f.order| + 3
  {
    CloneLayout(f, l, ctx, n, k);
  }

  /** Looking a value up in the extended map is looking it up before and then renaming. */
  lemma LookupOnce(s: State, n0: nat, l: Label, x: Operand)
    requires l in s.f.blocks && BodyBelowDsts(s.f.blocks[l].body, n0) && (x.Ref? ==> x.r < n0)
    requires forall r :: r in s.remap ==> r < n0 <= s.remap[r]
    requires x.Ref? && x.r in s.remap ==> x.r !in Rho(s.f, l, s.n)
    ensures SubOp(s.remap + Rho(s.f, l, s.n), x) == SubOp(Rho(s.f, l, s.n), SubOp(s.remap, x))
  {
    if x.Ref? && x.r in s.remap && s.remap[x.r] in Rho(s.f, l, s.n) {
      var j := ArmKey(s.f.blocks[l].body, s.n + 3, |s.f.blocks[l].body|, s.remap[x.r]);
    }
  }

  lemma NotRemapped(s: State, l: Label, r: Reg)
    requires l in s.f.blocks && r in s.remap
    requires forall i :: 0 <= i < |s.f.blocks[l].body| ==> s.f.blocks[l].body[i].dst !in s.remap
    ensures r !in Rho(s.f, l, s.n)
  {
    if r in Rho(s.f, l, s.n) {
      var j := ArmKey(s.f.blocks[l].body, s.n + 3, |s.f.blocks[l].body|, r);
    }
  }

  lemma RemapGrows(s: State, n0: nat, l: Label)
    requires l in s.f.blocks && n0 <= s.n && BodyBelowDsts(s.f.blocks[l].body, n0)
    requires forall r :: r in s.remap ==> r < n0 <= s.remap[r]
    ensures forall r :: r in s.remap + Rho(s.f, l, s.n) ==> r < n0 <= (s.remap + Rho(s.f, l, s.n))[r]
  {
    forall r | r in Rho(s.f, l, s.n)
      ensures r < n0 <= Rho(s.f, l, s.n)[r]
    {
      var j := ArmKey(s.f.blocks[l].body, s.n + 3, |s.f.blocks[l].body|, r);
    }
  }

  lemma BodyKept(s: State, n0: nat, l: Label, v: Operand, m: Label)
    requires Ready(s.f, s.n, s.k) && l in s.f.blocks && m in s.f.blocks && l != m
    requires BodyBelowDsts(s.f.blocks[m].body, n0)
    requires forall i :: 0 <= i < |s.f.blocks[m].body| ==> s.f.blocks[m].body[i].dst !in s.remap
    ensures m in CloneOne(s, l, v).f.blocks
    ensures var s' := CloneOne(s, l, v);
      BodyBelowDsts(s'.f.blocks[m].body, n0) && forall i :: 0 <= i < |s'.f.blocks[m].body| ==> s'.f.blocks[m].body[i].dst !in s'.remap
  {
    CloneHas(s.f, l, SubOp(s.remap, v), s.n, s.k, m);
    RhoIs(s.f, l, s.n, s.k);
    assert LabelsBelow(s.f, s.k);
  }

  lemma OperandKept(s: State, n0: nat, l: Label, ctx: Operand, m: Label, x: Operand)
    requires Ready(s.f, s.n, s.k) && l in s.f.blocks && m in s.f.blocks
    requires Known(s.f, x) && Available(s.f, x, m)
    ensures Clone(s.f, l, ctx, s.n, s.k).order != []
    ensures var g := Clone(s.f, l, ctx, s.n, s.k); Known(g, SubOp(Rho(s.f, l, s.n), x)) && Available(g, SubOp(Rho(s.f, l, s.n), x), m)
  {
    CloneOrder(s.f, l, ctx, s.n, s.k);
    TargetsBelow(s.f, s.n, s.k);
    KnownImage(s.f, l, ctx, s.n, s.k, x);
    AvailableKept(s.f, l, ctx, s.n, s.k, x, m);
  }

  lemma PendingKept(s: State, n0: nat, l: Label, v: Operand, m: Label, x: Operand)
    requires BasePoint(s, n0) && l in s.f.blocks && m in s.f.blocks && l != m
    requires PendingOk(s, n0, l, v) && PendingOk(s, n0, m, x)
    ensures m in CloneOne(s, l, v).f.blocks && CloneOne(s, l, v).f.order != []
    ensures PendingOk(CloneOne(s, l, v), n0, m, x)
  {
    BodyKept(s, n0, l, v, m);
    if x.Ref? && x.r in s.remap {
      NotRemapped(s, l, x.r);
    }
    LookupOnce(s, n0, l, x);
    OperandKept(s, n0, l, SubOp(s.remap, v), m, SubOp(s.remap, x));
  }

  lemma HeadKept(s: State, n0: nat, l: Label, v: Operand, m: Label)
    requires Ready(s.f, s.n, s.k) && l in s.f.blocks && m in s.f.blocks && l != m && HeadOk(s.f, m)
    ensures m in CloneOne(s, l, v).f.blocks && CloneOne(s, l, v).f.order != []
    ensures HeadOk(CloneOne(s, l, v).f, m)
  {
    var ctx := SubOp(s.remap, v);
    CloneHas(s.f, l, ctx, s.n, s.k, m);
    assert LabelsBelow(s.f, s.k);
    OperandKept(s, n0, l, ctx, m, s.f.blocks[m].body[0].args[0]);
  }

  lemma NewHeadBody(f: Func, l: Label, ctx: Operand, n: nat, k: nat)
    requires l in f.blocks
    ensures NewHead(f, l, ctx, n, k).body == [Instr(n, IS_NULL, [SubOp(Rho(f, l, n), ctx)])]
  {
    assert SubOps(Rho(f, l, n), [ctx]) == [SubOp(Rho(f, l, n), ctx)];
  }

  lemma HeadMade(s: State, n0: nat, l: Label, v: Operand)
    requires Ready(s.f, s.n, s.k) && l in s.f.blocks
    requires Known(s.f, SubOp(s.remap, v)) && Available(s.f, SubOp(s.remap, v), l)
    ensures l in CloneOne(s, l, v).f.blocks && CloneOne(s, l, v).f.order != []
    ensures HeadOk(CloneOne(s, l, v).f, l)
  {
    var ctx := SubOp(s.remap, v);
    CloneHas(s.f, l, ctx, s.n, s.k, l);
    assert LabelsBelow(s.f, s.k);
    OperandKept(s, n0, l, ctx, l, ctx);
    NewHeadBody(s.f, l, ctx, s.n, s.k);
  }

  lemma KnownBelow(f: Func, x: Operand, n: nat, k: nat)
    requires Ready(f, n, k) && Known(f, x)
    ensures x.Ref? ==> x.r < n
  {
    if x.Ref? {
      var l, i: nat :| DefinedAt(f, l, i, x.r);
      assert BlockReady(f, f.blocks[l], n);
    }
  }

  lemma BaseOf(s: State, n0: nat)
    requires Ready(s.f, s.n, s.k) && WellFormed(s.f) && n0 <= s.n && forall r :: r in s.remap ==> r < n0 <= s.remap[r]
    ensures BasePoint(s, n0)
  {
  }

  lemma FuncAdvances(s: State, n0: nat, l: Label, ctx: Operand)
    requires BasePoint(s, n0) && l in s.f.blocks && Known(s.f, ctx)
    ensures var g := Clone(s.f, l, ctx, s.n, s.k);
      Ready(g, NextReg(s.f, l, s.n), s.k + 3) && WellFormed(g) && |g.order| == |s.f.order| + 3
  {
    CloneOrder(s.f, l, ctx, s.n, s.k);
    KnownBelow(s.f, ctx, s.n, s.k);
    CloneReady(s.f, l, ctx, s.n, s.k);
    CloneWellFormed(s.f, l, ctx, s.n, s.k);
  }

  lemma BaseAdvances(s: State, n0: nat, l: Label, v: Operand)
    requires BasePoint(s, n0) && l in s.f.blocks && PendingOk(s, n0, l, v)
    ensures BasePoint(CloneOne(s, l, v), n0) && |CloneOne(s, l, v).f.order| == |s.f.order| + 3
  {
    FuncAdvances(s, n0, l, SubOp(s.remap, v));
    RemapGrows(s, n0, l);
    BaseOf(CloneOne(s, l, v), n0);
  }

  lemma PendingAdvances(s: State, n0: nat, l: Label, v: Operand, pending: Targets)
    requires BasePoint(s, n0) && l in s.f.blocks && PendingOk(s, n0, l, v) && AllPending(s, n0, pending)
    requires forall i :: 0 <= i < |pending| ==> pending[i].0 != l
    ensures CloneOne(s, l, v).f.order != [] && AllPending(CloneOne(s, l, v), n0, pending)
  {
    CloneOrder(s.f, l, SubOp(s.remap, v), s.n, s.k);
    var s' := CloneOne(s, l, v);
    forall i | 0 <= i < |pending|
      ensures pending[i].0 in s'.f.blocks && PendingOk(s', n0, pending[i].0, pending[i].1)
    {
      PendingKept(s, n0, l, v, pending[i].0, pending[i].1);
    }
  }

  lemma HeadsAdvance(s: State, n0: nat, l: Label, v: Operand, heads: set<Label>)
    requires BasePoint(s, n0) && l in s.f.blocks && PendingOk(s, n0, l, v) && AllHeads(s.f, heads)
    requires l !in heads
    ensures CloneOne(s, l, v).f.order != [] && AllHeads(CloneOne(s, l, v).f, heads + {l})
  {
    CloneOrder(s.f, l, SubOp(s.remap, v), s.n, s.k);
    var s' := CloneOne(s, l, v);
    forall m | m in heads + {l}
      ensures m in s'.f.blocks && HeadOk(s'.f, m)
    {
      if m == l {
        HeadMade(s, n0, l, v);
      } else {
        HeadKept(s, n0, l, v, m);
      }
    }
  }

  /** One call of cloneBB keeps the run's invariant. */
  lemma RunAdvances(s: State, n0: nat, ts: Targets, heads: set<Label>)
    requires RunPoint(s, n0, ts, heads) && ts != [] && ts[0].0 !in heads && TargetsOk(s, ts)
    ensures RunPoint(CloneOne(s, ts[0].0, ts[0].1), n0, ts[1..], heads + {ts[0].0})
    ensures |CloneOne(s, ts[0].0, ts[0].1).f.order| == |s.f.order| + 3
  {
    var l, v := ts[0].0, ts[0].1;
    BaseAdvances(s, n0, l, v);
    assert forall i :: 0 <= i < |ts[1..]| ==> ts[1..][i] == ts[i + 1];
    PendingAdvances(s, n0, l, v, ts[1..]);
    HeadsAdvance(s, n0, l, v, heads);
  }

  function TargetLabels(ts: Targets): set<Label> { set i | 0 <= i < |ts| :: ts[i].0 }

  lemma TargetLabelsTail(ts: Targets)
    requires ts != []
    ensures TargetLabels(ts) == {ts[0].0} + TargetLabels(ts[1..])
  {
    assert forall i :: 0 <= i < |ts[1..]| ==> ts[1..][i] == ts[i + 1];
    forall i | 0 <= i < |ts|
      ensures ts[i].0 in {ts[0].0} + TargetLabels(ts[1..])
    {
      if i > 0 {
        assert ts[1..][i - 1] == ts[i];
      }
    }
  }

  lemma TailFacts(ts: Targets, heads: set<Label>)
    requires ts != [] && (forall i, j :: 0 <= i < j < |ts| ==> ts[i].0 != ts[j].0) && TargetLabels(ts) !! heads
    ensures ts[0].0 !in heads && TargetLabels(ts[1..]) !! heads + {ts[0].0}
    ensures heads + {ts[0].0} + TargetLabels(ts[1..]) == heads + TargetLabels(ts)
  {
    TargetLabelsTail(ts);
    forall i | 0 <= i < |ts[1..]|
      ensures ts[1..][i].0 != ts[0].0
    {
      assert ts[1..][i] == ts[i + 1];
    }
  }

  lemma NextSimulates(w: World, s: State, n0: nat, ts: Targets, heads: set<Label>)
    requires RunPoint(s, n0, ts, heads) && ts != [] && TargetsOk(s, ts) && ConditionRuns(w)
    ensures CloneOne(s, ts[0].0, ts[0].1).f.order != [] && Simulates(w, s.f, CloneOne(s, ts[0].0, ts[0].1).f)
  {
    assert BasePoint(s, n0);
    CloneSimulates(w, s.f, ts[0].0, SubOp(s.remap, ts[0].1), s.n, s.k);
  }

  lemma NextState(w: World, s: State, n0: nat, ts: Targets, heads: set<Label>) returns (s': State)
    requires RunPoint(s, n0, ts, heads) && ts != [] && TargetsOk(s, ts) && ts[0].0 !in heads
    ensures TargetsOk(s', ts[1..]) && CloneAll(s, ts) == CloneAll(s', ts[1..])
    ensures RunPoint(s', n0, ts[1..], heads + {ts[0].0})
    ensures |s'.f.order| == |s.f.order| + 3
    ensures ConditionRuns(w) ==> Simulates(w, s.f, s'.f)
  {
    s' := CloneOne(s, ts[0].0, ts[0].1);
    TargetsOkTail(s, ts);
    RunAdvances(s, n0, ts, heads);
    if ConditionRuns(w) {
      NextSimulates(w, s, n0, ts, heads);
    }
  }

  /** After the run the function is well formed, three blocks longer for every target, and every
      condition inserted reads a value that exists and is computed on every path to it. */
  lemma {:induction false} CloneAllPoint(w: World, s: State, n0: nat, ts: Targets, heads: set<Label>)
    requires RunPoint(s, n0, ts, heads) && TargetsOk(s, ts) && TargetLabels(ts) !! heads
    ensures RunPoint(CloneAll(s, ts), n0, [], heads + TargetLabels(ts))
    ensures |CloneAll(s, ts).f.order| == |s.f.order| + 3 * |ts|
    decreases ts
  {
    if ts == [] {
      assert heads + TargetLabels(ts) == heads;
    } else {
      TailFacts(ts, heads);
      var s' := NextState(w, s, n0, ts, heads);
      CloneAllPoint(w, s', n0, ts[1..], heads + {ts[0].0});
    }
  }

  /** The run preserves the meaning, whatever the conditions evaluate to. */
  lemma {:induction false} CloneAllSimulates(w: World, s: State, n0: nat, ts: Targets, heads: set<Label>)
    requires RunPoint(s, n0, ts, heads) && TargetsOk(s, ts) && TargetLabels(ts) !! heads && ConditionRuns(w)
    ensures CloneAll(s, ts).f.order != [] && Simulates(w, s.f, CloneAll(s, ts).f)
    decreases ts
  {
    if ts == [] {
      assert Lockstep(w, s.f, s.f);
      LockstepSimulates(w, s.f, s.f);
    } else {
      TailFacts(ts, heads);
      var s' := NextState(w, s, n0, ts, heads);
      CloneAllSimulates(w, s', n0, ts[1..], heads + {ts[0].0});
      SimulatesTrans(w, s.f, s'.f, CloneAll(s', ts[1..]).f);
    }
  }

  // ----- The choice of blocks -----

  /** Distinct blocks, each with one of its reachable values that is not a global. */
  ghost predicate Chosen(riv: map<Label, Values>, ts: Targets) {
    && (forall i :: 0 <= i < |ts| ==> ts[i].0 in riv && ts[i].1 in riv[ts[i].0] && !ts[i].1.Global?)
    && (forall i, j :: 0 <= i < j < |ts| ==> ts[i].0 != ts[j].0)
  }

  /** The values that reach the entry are arguments and globals. */
  ghost predicate NoRefs(init: Values) { forall v :: v in init ==> v.Arg? || v.Global? }

  lemma EntryHasNoRefs(args: seq<(nat, Ty)>, globals: seq<(nat, Ty)>)
    ensures NoRefs(EntryValues(args, globals))
  {
    forall v | v in EntryValues(args, globals)
      ensures v.Arg? || v.Global?
    {
      EntryValuesAre(args, globals, v);
    }
  }

  lemma ChosenIsAvailable(f: Func, t: Tree, init: Values, l: Label, v: Operand)
    requires f.order != [] && DominatorTree(f, t) && DebugIsVoid(f) && UniqueDefs(f) && NoRefs(init)
    requires l in Below(f, t, init) && v in Below(f, t, init)[l]
    ensures l in f.blocks && Known(f, v) && Available(f, v, l)
  {
    BelowKeys(f, t, init);
    if v !in init {
      RivIsSound(f, t, init, l, v);
      var p :| PathTo(f, p, l);
      var i :| 0 <= i < |p| - 1 && DefinesValue(f, p[i], v.r);
    }
  }

  lemma ReadyDebug(f: Func, n: nat, k: nat)
    requires Ready(f, n, k)
    ensures DebugIsVoid(f) && forall l :: l in f.blocks ==> BodyBelowDsts(f.blocks[l].body, n)
  {
    forall l | l in f.blocks
      ensures BodyBelowDsts(f.blocks[l].body, n)
    {
      assert BlockReady(f, f.blocks[l], n);
    }
    forall l, i | l in f.blocks && 0 <= i < |f.blocks[l].body| && f.blocks[l].body[i].op.dbg
      ensures f.blocks[l].body[i].op.ty == Void
    {
      assert BlockReady(f, f.blocks[l], n);
    }
  }

  lemma RunStarts(f: Func, n: nat, k: nat, t: Tree, init: Values, ts: Targets)
    requires WellFormed(f) && Ready(f, n, k) && DominatorTree(f, t) && NoRefs(init) && Chosen(Below(f, t, init), ts)
    ensures RunPoint(State(f, map[], n, k), n, ts, {}) && TargetsOk(State(f, map[], n, k), ts)
  {
    var s := State(f, map[], n, k);
    ReadyDebug(f, n, k);
    BaseOf(s, n);
    forall i | 0 <= i < |ts|
      ensures ts[i].0 in f.blocks && ts[i].0 < k && PendingOk(s, n, ts[i].0, ts[i].1)
    {
      ChosenIsAvailable(f, t, init, ts[i].0, ts[i].1);
      KnownBelow(f, ts[i].1, n, k);
      assert LabelsBelow(f, k);
      assert SubOp(map[], ts[i].1) == ts[i].1;
    }
  }

  /** DuplicateBB preserves the meaning of every well-formed function for every choice of blocks and
      context values: the two functions stop with the same observations, and diverge together.  The
      result is well formed, and every condition reads a value that exists and has been computed. */
  lemma DuplicateRunPreserves(w: World, f: Func, n: nat, k: nat, t: Tree, init: Values, ts: Targets)
    requires WellFormed(f) && Ready(f, n, k) && DominatorTree(f, t) && NoRefs(init) && Chosen(Below(f, t, init), ts)
    requires ConditionRuns(w)
    ensures TargetsOk(State(f, map[], n, k), ts)
    ensures var g := CloneAll(State(f, map[], n, k), ts).f;
      && WellFormed(g) && AllHeads(g, TargetLabels(ts)) && |g.order| == |f.order| + 3 * |ts|
      && Simulates(w, f, g) && (forall o :: Ends(w, f, o) <==> Ends(w, g, o))
  {
    var s := State(f, map[], n, k);
    RunStarts(f, n, k, t, init, ts);
    CloneAllPoint(w, s, n, ts, {});
    CloneAllSimulates(w, s, n, ts, {});
    SimulationIsEquivalence(w, f, CloneAll(s, ts).f);
    assert {} + TargetLabels(ts) == TargetLabels(ts);
  }
}
