/** SimpleLICM keeps a function verified if no hoisted instruction leaves an operand behind. */
module LicmSsa {
  import opened IR
  import opened Paths
  import opened StrictSsa
  import opened BlockRewrite
  import opened LicmSpec
  import opened LicmSound
  import opened LicmPaths
  import opened LicmRuns
  import opened LicmOrder

  // ----- Definitions after hoisting -----

  lemma {:induction false} LeftAt(body: seq<Instr>, h: set<Reg>, i: nat, j: nat) returns (a: nat, b: nat)
    requires i <= j < |Left(body, h)|
    ensures a <= b < |body| && (i < j ==> a < b) && (i == j ==> a == b)
    ensures Left(body, h)[i] == body[a] && Left(body, h)[j] == body[b] && body[a].dst !in h && body[b].dst !in h
  {
    var c := if body[0].dst in h then 0 else 1;
    if j < c {
      a, b := 0, 0;
    } else if i < c {
      a, b := LeftAt(body[1..], h, j - c, j - c);
      a, b := 0, b + 1;
    } else {
      a, b := LeftAt(body[1..], h, i - c, j - c);
      a, b := a + 1, b + 1;
    }
  }

  lemma {:induction false} LeftHas(body: seq<Instr>, h: set<Reg>, i: nat) returns (a: nat)
    requires i < |body| && body[i].dst !in h
    ensures a < |Left(body, h)| && Left(body, h)[a] == body[i]
  {
    if i == 0 {
      a := 0;
    } else {
      a := LeftHas(body[1..], h, i - 1);
      a := if body[0].dst in h then a else a + 1;
    }
  }

  lemma HoistEdges(f: Func, ls: seq<Label>, p: Label, h: set<Reg>)
    requires f.order != [] && forall l :: l in ls ==> l in f.blocks
    ensures SameEdges(f, Hoist(f, ls, p, h))
  {
  }

  /** An instruction of the loop with its register in h is the one that defines it. */
  lemma HomeInstr(f: Func, ls: seq<Label>, h: set<Reg>, r: Reg, m: Label, i: nat) returns (x: Instr)
    requires (forall l :: l in ls ==> l in f.blocks) && UniqueDefs(f) && HomesInLoop(f, ls, h) && r in h && DefinedAt(f, m, i, r)
    ensures m in ls && InBody(f, ls, x) && x.dst == r && Makes(x) && x in Picked(f, ls, h)
  {
    x :| InBody(f, ls, x) && x.dst == r;
    var q :| q in ls && x in f.blocks[q].body;
    var j :| 0 <= j < |f.blocks[q].body| && f.blocks[q].body[j] == x;
    OneDef(f, m, i, q, |f.blocks[q].phis| + j);
    PickedIs(f, ls, h, x);
  }

  lemma MovedDefines(f: Func, ls: seq<Label>, p: Label, h: set<Reg>, r: Reg, m: Label)
    requires (forall l :: l in ls ==> l in f.blocks) && p in f.blocks && UniqueDefs(f) && HomesInLoop(f, ls, h)
    requires r in h && DefinesValue(f, m, r)
    ensures DefinesValue(Hoist(f, ls, p, h), p, r)
  {
    var i: nat :| DefinedAt(f, m, i, r);
    var x := HomeInstr(f, ls, h, r, m, i);
    var k :| 0 <= k < |Picked(f, ls, h)| && Picked(f, ls, h)[k] == x;
    assert DefinedAt(Hoist(f, ls, p, h), p, Count(f.blocks[p]) + k, r);
  }

  lemma StayingDefines(f: Func, ls: seq<Label>, p: Label, h: set<Reg>, r: Reg, m: Label)
    requires (forall l :: l in ls ==> l in f.blocks) && r !in h && DefinesValue(f, m, r)
    ensures DefinesValue(Hoist(f, ls, p, h), m, r)
  {
    var g, b := Hoist(f, ls, p, h), f.blocks[m];
    var i: nat :| DefinedAt(f, m, i, r);
    if m != p && m in ls && i >= |b.phis| {
      var a := LeftHas(b.body, h, i - |b.phis|);
      assert DefinedAt(g, m, |b.phis| + a, r);
    } else {
      assert DefinedAt(g, m, i, r);
    }
  }

  // ----- Values on paths after hoisting -----

  /** What is given of the loop and the hoisted set. */
  ghost predicate Hoisting(f: Func, loop: Loop, p: Label, h: set<Reg>) {
    && f.order != [] && UniqueDefs(f) && LoopOk(f, loop, p) && HomesInLoop(f, loop.blocks, h)
  }

  /** Where a path has met a definition in f, it has met one after hoisting. */
  lemma MetOnPath(f: Func, loop: Loop, p: Label, h: set<Reg>, q: seq<Label>, i: nat, r: Reg) returns (j: nat)
    requires Hoisting(f, loop, p, h) && IsPath(f, q) && i < |q| && DefinesValue(f, q[i], r)
    ensures j <= i && DefinesValue(Hoist(f, loop.blocks, p, h), q[j], r)
  {
    if r in h {
      Home(f, loop.blocks, h, q[i], r);
      EnteredThrough(f, loop, p, q, i);
      j :| 0 <= j < i && q[j] == p;
      MovedDefines(f, loop.blocks, p, h, r, q[i]);
    } else {
      j := i;
      StayingDefines(f, loop.blocks, p, h, r, q[i]);
    }
  }

  lemma HoistAvailable(f: Func, loop: Loop, p: Label, h: set<Reg>, r: Reg, l: Label)
    requires Hoisting(f, loop, p, h)
    ensures Available(f, Ref(r), l) ==> Available(Hoist(f, loop.blocks, p, h), Ref(r), l)
    ensures AtEnd(f, l, r) ==> AtEnd(Hoist(f, loop.blocks, p, h), l, r)
  {
    var g := Hoist(f, loop.blocks, p, h);
    HoistEdges(f, loop.blocks, p, h);
    forall q | PathTo(g, q, l) && Available(f, Ref(r), l)
      ensures exists i :: 0 <= i < |q| - 1 && DefinesValue(g, q[i], r)
    {
      assert PathTo(f, q, l);
      var i :| 0 <= i < |q| - 1 && DefinesValue(f, q[i], r);
      var j := MetOnPath(f, loop, p, h, q, i, r);
    }
    forall q | PathTo(g, q, l) && AtEnd(f, l, r)
      ensures exists i :: 0 <= i < |q| && DefinesValue(g, q[i], r)
    {
      assert PathTo(f, q, l);
      var i :| 0 <= i < |q| && DefinesValue(f, q[i], r);
      var j := MetOnPath(f, loop, p, h, q, i, r);
    }
  }

  /** In the loop every hoisted value is there on entry to a block. */
  lemma HoistedInLoop(f: Func, loop: Loop, p: Label, h: set<Reg>, r: Reg, l: Label)
    requires Hoisting(f, loop, p, h) && l in loop.blocks && r in h && r in Defined(f)
    ensures Available(Hoist(f, loop.blocks, p, h), Ref(r), l)
  {
    var g := Hoist(f, loop.blocks, p, h);
    HoistEdges(f, loop.blocks, p, h);
    var m :| DefinesValue(f, m, r);
    MovedDefines(f, loop.blocks, p, h, r, m);
    forall q | PathTo(g, q, l)
      ensures exists i :: 0 <= i < |q| - 1 && DefinesValue(g, q[i], r)
    {
      assert PathTo(f, q, l);
      EnteredThrough(f, loop, p, q, |q| - 1);
    }
  }

  lemma HoistEntering(f: Func, loop: Loop, p: Label, h: set<Reg>, l: Label)
    requires Hoisting(f, loop, p, h) && l in f.blocks
    ensures Entering(f, l) <= Entering(Hoist(f, loop.blocks, p, h), l)
  {
    forall r | r in Entering(f, l)
      ensures r in Entering(Hoist(f, loop.blocks, p, h), l)
    {
      HoistAvailable(f, loop, p, h, r, l);
    }
  }

  lemma HoistDefined(f: Func, loop: Loop, p: Label, h: set<Reg>)
    requires Hoisting(f, loop, p, h)
    ensures Defined(f) <= Defined(Hoist(f, loop.blocks, p, h))
  {
    forall r | r in Defined(f)
      ensures r in Defined(Hoist(f, loop.blocks, p, h))
    {
      var m :| DefinesValue(f, m, r);
      if r in h {
        MovedDefines(f, loop.blocks, p, h, r, m);
      } else {
        StayingDefines(f, loop.blocks, p, h, r, m);
      }
    }
  }

  // ----- Bodies after hoisting -----

  /** A body without its hoisted instructions, entered with their values. */
  lemma {:induction false} LeftReads(body: seq<Instr>, h: set<Reg>, d: iset<Reg>, k: iset<Reg>, k': iset<Reg>)
    requires DefUse(k, body) && ReadsOnly(d, body) && k * d <= k' && forall r :: r in h && r in d ==> r in k'
    ensures DefUse(k', Left(body, h)) && After(k, body) * d <= After(k', Left(body, h))
  {
    if body != [] {
      var x, rest := body[0], body[1..];
      assert ReadsOnly(d, rest);
      if x.dst in h {
        LeftReads(rest, h, d, k + MadeBy(x), k');
        assert Left(body, h) == Left(rest, h);
      } else {
        LeftReads(rest, h, d, k + MadeBy(x), k' + MadeBy(x));
        assert ([x] + Left(rest, h))[1..] == Left(rest, h);
      }
    }
  }

  lemma LoopBlockReads(f: Func, loop: Loop, p: Label, h: set<Reg>, l: Label)
    requires Hoisting(f, loop, p, h) && RefsDefined(f) && l in loop.blocks && BodySsa(f, l)
    ensures BodySsa(Hoist(f, loop.blocks, p, h), l)
  {
    var g, b := Hoist(f, loop.blocks, p, h), f.blocks[l];
    BodySsaIs(f, l);
    UsesAreDefined(f, l);
    HoistEntering(f, loop, p, h, l);
    forall r | r in h && r in Defined(f)
      ensures r in Entering(g, l)
    {
      HoistedInLoop(f, loop, p, h, r, l);
    }
    LeftReads(b.body, h, Defined(f), Entering(f, l), Entering(g, l));
    BodySsaIs(g, l);
  }

  lemma OtherBlockReads(f: Func, loop: Loop, p: Label, h: set<Reg>, l: Label)
    requires Hoisting(f, loop, p, h) && l in f.blocks && l !in loop.blocks && l != p && BodySsa(f, l)
    ensures BodySsa(Hoist(f, loop.blocks, p, h), l)
  {
    var g := Hoist(f, loop.blocks, p, h);
    BodySsaIs(f, l);
    HoistEntering(f, loop, p, h, l);
    DefUseMono(Entering(f, l), Entering(g, l), f.blocks[l].body);
    BodySsaIs(g, l);
  }

  // ----- The operands of the hoisted instructions -----

  /** From the last visit of the preheader to the end, a path into the loop stays in it. */
  lemma {:induction false} StaysInLoop(f: Func, loop: Loop, p: Label, q: seq<Label>, t: nat, j: nat)
    requires f.order != [] && LoopOk(f, loop, p) && IsPath(f, q) && t < j < |q| && q[|q| - 1] in loop.blocks
    requires q[t] == p && forall i :: t < i < |q| ==> q[i] != p
    ensures q[j] in loop.blocks
    decreases |q| - j
  {
    if j < |q| - 1 {
      StaysInLoop(f, loop, p, q, t, j + 1);
      assert f.Edge(q[j], q[j + 1]);
    }
  }

  lemma Joined(f: Func, q: seq<Label>, q0: seq<Label>, t: nat)
    requires f.order != [] && IsPath(f, q) && IsPath(f, q0) && t < |q0| - 1 && q0[t] == q[|q| - 1]
    ensures PathTo(f, q + q0[t + 1..], q0[|q0| - 1])
  {
    var c := q + q0[t + 1..];
    forall i | 0 < i < |c|
      ensures f.Edge(c[i - 1], c[i])
    {
      if i >= |q| {
        assert c[i] == q0[i - |q| + t + 1] && c[i - 1] == q0[i - |q| + t];
      }
    }
  }

  lemma InLoopRegs(f: Func, loop: Loop, p: Label, l: Label, r: Reg)
    requires f.order != [] && LoopOk(f, loop, p) && l in loop.blocks && DefinesValue(f, l, r)
    ensures r in LoopRegs(f, loop.blocks)
  {
    var i: nat :| DefinedAt(f, l, i, r);
  }

  /** A value made on the way to l is made before the loop is entered. */
  lemma OutsideOnPath(f: Func, loop: Loop, p: Label, l: Label, r: Reg, q: seq<Label>, q0: seq<Label>, t: nat)
    requires f.order != [] && LoopOk(f, loop, p) && PathTo(f, q, p) && PathTo(f, q0, l) && Available(f, Ref(r), l) && r !in LoopRegs(f, loop.blocks)
    requires t < |q0| - 1 && q0[t] == p && forall i :: t < i < |q0| ==> q0[i] in loop.blocks
    ensures exists i :: 0 <= i < |q| && DefinesValue(f, q[i], r)
  {
    Joined(f, q, q0, t);
    var c := q + q0[t + 1..];
    var i :| 0 <= i < |c| - 1 && DefinesValue(f, c[i], r);
    if i < |q| {
      assert c[i] == q[i];
    } else {
      assert c[i] == q0[i - |q| + t + 1];
      InLoopRegs(f, loop, p, c[i], r);
      assert false;
    }
  }

  /** What a loop block reads from outside the loop has a value at the end of the preheader. */
  lemma OutsideAtEnd(f: Func, loop: Loop, p: Label, l: Label, r: Reg)
    requires f.order != [] && LoopOk(f, loop, p) && l in loop.blocks && Available(f, Ref(r), l) && r !in LoopRegs(f, loop.blocks)
    ensures AtEnd(f, p, r)
  {
    var q0 :| PathTo(f, q0, l);
    EnteredThrough(f, loop, p, q0, |q0| - 1);
    var t := LastOf(q0, p);
    forall i | t < i < |q0|
      ensures q0[i] in loop.blocks
    {
      StaysInLoop(f, loop, p, q0, t, i);
    }
    forall q | PathTo(f, q, p)
      ensures exists i :: 0 <= i < |q| && DefinesValue(f, q[i], r)
    {
      OutsideOnPath(f, loop, p, l, r, q, q0, t);
    }
  }

  /** What has a value at the end of l entered l's body or was made by it. */
  lemma AtEndSplit(f: Func, l: Label, r: Reg)
    requires f.order != [] && UniqueDefs(f) && l in f.blocks && AtEnd(f, l, r)
    ensures r in After(Entering(f, l), f.blocks[l].body)
  {
    var b := f.blocks[l];
    AfterIs(Entering(f, l), b.body, r);
    if DefinesValue(f, l, r) {
      var i: nat :| DefinedAt(f, l, i, r);
      if i < |b.phis| {
        assert b.phis[i].dst == r;
      } else {
        assert b.body[i - |b.phis|].dst == r && Makes(b.body[i - |b.phis|]);
      }
    } else {
      forall q | PathTo(f, q, l)
        ensures exists i :: 0 <= i < |q| - 1 && DefinesValue(f, q[i], r)
      {
        var i :| 0 <= i < |q| && DefinesValue(f, q[i], r);
      }
    }
  }

  lemma LoopOperand(f: Func, ls: seq<Label>, l: Label, i: nat, r: Reg)
    requires f.order != [] && (forall l :: l in ls ==> l in f.blocks) && l in ls && Reaches(f, l, i, r) && r !in LoopRegs(f, ls)
    ensures Available(f, Ref(r), l)
  {
    var b := f.blocks[l];
    if MadeBefore(b.body, i, r) {
      var j :| 0 <= j < i && j < |b.body| && b.body[j].dst == r && Makes(b.body[j]);
      RegInLoop(f, ls, l, |b.phis| + j);
    }
    if exists j :: 0 <= j < |b.phis| && b.phis[j].dst == r {
      var j :| 0 <= j < |b.phis| && b.phis[j].dst == r;
      RegInLoop(f, ls, l, j);
    }
  }

  /** A hoisted operand is made earlier in the list. */
  lemma HoistedOperand(f: Func, ls: seq<Label>, h: set<Reg>, j: nat, r: Reg)
    requires (forall l :: l in ls ==> l in f.blocks) && UniqueDefs(f) && HomesInLoop(f, ls, h) && DefsFirst(Picked(f, ls, h))
    requires j < |Picked(f, ls, h)| && ReadsReg(Picked(f, ls, h)[j], r) && r in h && r in Defined(f)
    ensures MadeBefore(Picked(f, ls, h), j, r)
  {
    var hs := Picked(f, ls, h);
    var m :| DefinesValue(f, m, r);
    var i: nat :| DefinedAt(f, m, i, r);
    var x := HomeInstr(f, ls, h, r, m, i);
    var k :| 0 <= k < |hs| && hs[k] == x;
    assert k < j;
  }

  lemma PickedOperand(f: Func, loop: Loop, p: Label, h: set<Reg>, k': iset<Reg>, j: nat, r: Reg)
    requires Hoisting(f, loop, p, h) && Ssa(f) && RefsDefined(f) && OperandClosed(f, loop.blocks, h) && DefsFirst(Picked(f, loop.blocks, h))
    requires j < |Picked(f, loop.blocks, h)| && !Picked(f, loop.blocks, h)[j].op.dbg && ReadsReg(Picked(f, loop.blocks, h)[j], r)
    requires After(Entering(f, p), f.blocks[p].body) <= k'
    ensures r in k' || MadeBefore(Picked(f, loop.blocks, h), j, r)
  {
    var ls, x := loop.blocks, Picked(f, loop.blocks, h)[j];
    PickedIs(f, ls, h, x);
    var l :| l in ls && x in f.blocks[l].body;
    var i :| 0 <= i < |f.blocks[l].body| && f.blocks[l].body[i] == x;
    var a :| 0 <= a < |x.args| && x.args[a] == Ref(r);
    assert Invariant(LoopRegs(f, ls), h, x) && OperandInvariant(LoopRegs(f, ls), h, x.args[a]);
    UsesAreDefined(f, l);
    assert ReadsIn(Defined(f), f.blocks[l].body[i].args);
    if r in LoopRegs(f, ls) {
      HoistedOperand(f, ls, h, j, r);
    } else {
      assert BodySsa(f, l) && Reaches(f, l, i, r);
      LoopOperand(f, ls, l, i, r);
      OutsideAtEnd(f, loop, p, l, r);
      AtEndSplit(f, p, r);
    }
  }

  lemma PickedReads(f: Func, loop: Loop, p: Label, h: set<Reg>, k': iset<Reg>)
    requires Hoisting(f, loop, p, h) && Ssa(f) && RefsDefined(f) && OperandClosed(f, loop.blocks, h) && DefsFirst(Picked(f, loop.blocks, h))
    requires After(Entering(f, p), f.blocks[p].body) <= k'
    ensures DefUse(k', Picked(f, loop.blocks, h))
  {
    var hs := Picked(f, loop.blocks, h);
    DefUseIs(k', hs);
    forall j | 0 <= j < |hs|
      ensures ReadsMade(k', hs, j)
    {
      forall a | !hs[j].op.dbg && 0 <= a < |hs[j].args| && hs[j].args[a].Ref?
        ensures hs[j].args[a].r in k' || MadeBefore(hs, j, hs[j].args[a].r)
      {
        PickedOperand(f, loop, p, h, k', j, hs[j].args[a].r);
      }
    }
  }

  lemma PreheaderReads(f: Func, loop: Loop, p: Label, h: set<Reg>)
    requires Hoisting(f, loop, p, h) && Ssa(f) && RefsDefined(f) && OperandClosed(f, loop.blocks, h) && DefsFirst(Picked(f, loop.blocks, h))
    ensures BodySsa(Hoist(f, loop.blocks, p, h), p)
  {
    var g, b, hs := Hoist(f, loop.blocks, p, h), f.blocks[p], Picked(f, loop.blocks, h);
    assert BodySsa(f, p);
    BodySsaIs(f, p);
    HoistEntering(f, loop, p, h, p);
    DefUseMono(Entering(f, p), Entering(g, p), b.body);
    PickedReads(f, loop, p, h, After(Entering(g, p), b.body));
    DefUseAppend(Entering(g, p), b.body, hs);
    AfterGrows(After(Entering(g, p), b.body), hs);
    BodySsaIs(g, p);
  }

  lemma HoistPhisSsa(f: Func, loop: Loop, p: Label, h: set<Reg>, l: Label)
    requires Hoisting(f, loop, p, h) && l in f.blocks && PhisSsa(f, f.blocks[l])
    ensures PhisSsa(Hoist(f, loop.blocks, p, h), Hoist(f, loop.blocks, p, h).blocks[l])
  {
    var g, phis := Hoist(f, loop.blocks, p, h), f.blocks[l].phis;
    forall i, k | 0 <= i < |phis| && 0 <= k < |phis[i].incoming| && phis[i].incoming[k].1.Ref?
      ensures AtEnd(g, phis[i].incoming[k].0, phis[i].incoming[k].1.r)
    {
      HoistAvailable(f, loop, p, h, phis[i].incoming[k].1.r, phis[i].incoming[k].0);
    }
  }

  lemma HoistSsa(f: Func, loop: Loop, p: Label, h: set<Reg>)
    requires Hoisting(f, loop, p, h) && Ssa(f) && RefsDefined(f) && OperandClosed(f, loop.blocks, h) && DefsFirst(Picked(f, loop.blocks, h))
    ensures Ssa(Hoist(f, loop.blocks, p, h))
  {
    var g := Hoist(f, loop.blocks, p, h);
    forall l | l in g.blocks
      ensures BodySsa(g, l) && PhisSsa(g, g.blocks[l])
    {
      HoistPhisSsa(f, loop, p, h, l);
      if l == p {
        PreheaderReads(f, loop, p, h);
      } else if l in loop.blocks {
        LoopBlockReads(f, loop, p, h, l);
      } else {
        OtherBlockReads(f, loop, p, h, l);
      }
    }
  }

  // ----- One definition per register, every use defined -----

  lemma HoistUses(f: Func, loop: Loop, p: Label, h: set<Reg>, l: Label)
    requires Hoisting(f, loop, p, h) && RefsDefined(f) && l in f.blocks
    ensures UsesIn(Defined(Hoist(f, loop.blocks, p, h)), Hoist(f, loop.blocks, p, h).blocks[l])
  {
    var g, b, d := Hoist(f, loop.blocks, p, h), f.blocks[l], Defined(Hoist(f, loop.blocks, p, h));
    HoistDefined(f, loop, p, h);
    UsesAreDefined(f, l);
    forall i | 0 <= i < |g.blocks[l].body| && !g.blocks[l].body[i].op.dbg
      ensures ReadsIn(d, g.blocks[l].body[i].args)
    {
      var m, j := Source(f, loop, p, h, l, i);
      UsesAreDefined(f, m);
      assert ReadsIn(Defined(f), f.blocks[m].body[j].args);
    }
  }

  /** Where an instruction of the result comes from. */
  lemma Source(f: Func, loop: Loop, p: Label, h: set<Reg>, l: Label, i: nat) returns (m: Label, j: nat)
    requires f.order != [] && LoopOk(f, loop, p) && l in f.blocks && i < |Hoist(f, loop.blocks, p, h).blocks[l].body|
    ensures m in f.blocks && j < |f.blocks[m].body| && f.blocks[m].body[j] == Hoist(f, loop.blocks, p, h).blocks[l].body[i]
    ensures f.blocks[m].body[j].dst in h ==> l == p || (m == l && l !in loop.blocks)
    ensures f.blocks[m].body[j].dst !in h ==> m == l
  {
    var ls, b := loop.blocks, f.blocks[l];
    if l == p && i >= |b.body| {
      var x := Picked(f, ls, h)[i - |b.body|];
      PickedIs(f, ls, h, x);
      m :| m in ls && x in f.blocks[m].body;
      j :| 0 <= j < |f.blocks[m].body| && f.blocks[m].body[j] == x;
    } else if l != p && l in ls {
      var c, _ := LeftAt(b.body, h, i, i);
      m, j := l, c;
    } else {
      m, j := l, i;
    }
  }

  /** After hoisting, the registers of h are written in the preheader, the others where they were. */
  lemma HoistDst(f: Func, loop: Loop, p: Label, h: set<Reg>, l: Label, i: nat)
    requires Hoisting(f, loop, p, h) && l in f.blocks && i < Count(Hoist(f, loop.blocks, p, h).blocks[l])
    ensures var r := DstAt(Hoist(f, loop.blocks, p, h).blocks[l], i);
      if r in h then l == p else HasDst(f.blocks[l], r)
  {
    var g, b := Hoist(f, loop.blocks, p, h), f.blocks[l];
    if i < |b.phis| {
      NotPhi(f, loop.blocks, h, l, i);
      assert DstAt(b, i) == DstAt(g.blocks[l], i);
    } else {
      var m, j := Source(f, loop, p, h, l, i - |b.phis|);
      var r := f.blocks[m].body[j].dst;
      assert DstAt(f.blocks[m], |f.blocks[m].phis| + j) == r;
      if r in h && l != p {
        var x :| InBody(f, loop.blocks, x) && x.dst == r;
        var q :| q in loop.blocks && x in f.blocks[q].body;
        var a :| 0 <= a < |f.blocks[q].body| && f.blocks[q].body[a] == x;
        OneDef(f, q, |f.blocks[q].phis| + a, l, |b.phis| + j);
      }
    }
  }

  lemma DistinctParts(b: Block)
    requires DistinctDsts(b.body)
    requires forall i, j :: 0 <= i < j < |b.phis| ==> b.phis[i].dst != b.phis[j].dst
    requires forall i, j :: 0 <= i < |b.phis| && 0 <= j < |b.body| ==> b.phis[i].dst != b.body[j].dst
    ensures DistinctDefs(b)
  {
  }

  lemma LeftDistinct(b: Block, h: set<Reg>)
    requires DistinctDefs(b)
    ensures DistinctDefs(b.(body := Left(b.body, h)))
  {
    DistinctBody(b);
    var t := Left(b.body, h);
    forall i, j | 0 <= i < j < |t|
      ensures t[i].dst != t[j].dst
    {
      var a, c := LeftAt(b.body, h, i, j);
    }
    forall i, k | 0 <= i < |b.phis| && 0 <= k < |t|
      ensures b.phis[i].dst != t[k].dst
    {
      var a, c := LeftAt(b.body, h, k, k);
    }
    DistinctParts(b.(body := t));
  }

  lemma PreheaderDistinct(f: Func, loop: Loop, p: Label, h: set<Reg>)
    requires Hoisting(f, loop, p, h) && Ordered(Picked(f, loop.blocks, h))
    ensures DistinctDefs(Hoist(f, loop.blocks, p, h).blocks[p])
  {
    var b, hs := f.blocks[p], Picked(f, loop.blocks, h);
    BlockDefsDistinct(f, p);
    DistinctBody(b);
    forall i, k | 0 <= i < Count(b) && 0 <= k < |hs|
      ensures DstAt(b, i) != hs[k].dst
    {
      PickedIs(f, loop.blocks, h, hs[k]);
      var m :| m in loop.blocks && hs[k] in f.blocks[m].body;
      var j :| 0 <= j < |f.blocks[m].body| && f.blocks[m].body[j] == hs[k];
      if DstAt(b, i) == hs[k].dst {
        OneDef(f, p, i, m, |f.blocks[m].phis| + j);
      }
    }
    AppendDistinct(b, hs);
  }

  lemma AppendDistinct(b: Block, hs: seq<Instr>)
    requires DistinctDefs(b) && (forall j, k :: 0 <= j < k < |hs| ==> Before(hs[j], hs[k]))
    requires forall i, k :: 0 <= i < Count(b) && 0 <= k < |hs| ==> DstAt(b, i) != hs[k].dst
    ensures DistinctDefs(b.(body := b.body + hs))
  {
    var c := b.(body := b.body + hs);
    forall i, j | 0 <= i < j < Count(c)
      ensures DstAt(c, i) != DstAt(c, j)
    {
      if j < Count(b) {
        assert DstAt(c, i) == DstAt(b, i) && DstAt(c, j) == DstAt(b, j);
      } else if i < Count(b) {
        assert DstAt(c, i) == DstAt(b, i) && DstAt(c, j) == hs[j - Count(b)].dst;
      } else {
        assert Before(hs[i - Count(b)], hs[j - Count(b)]);
      }
    }
  }

  lemma HoistBlockDistinct(f: Func, loop: Loop, p: Label, h: set<Reg>, l: Label)
    requires Hoisting(f, loop, p, h) && Ordered(Picked(f, loop.blocks, h)) && l in f.blocks
    ensures DistinctDefs(Hoist(f, loop.blocks, p, h).blocks[l])
  {
    BlockDefsDistinct(f, l);
    if l == p {
      PreheaderDistinct(f, loop, p, h);
    } else if l in loop.blocks {
      LeftDistinct(f.blocks[l], h);
    }
  }

  lemma HoistUnique(f: Func, loop: Loop, p: Label, h: set<Reg>)
    requires Hoisting(f, loop, p, h) && Ordered(Picked(f, loop.blocks, h))
    ensures UniqueDefs(Hoist(f, loop.blocks, p, h))
  {
    var g := Hoist(f, loop.blocks, p, h);
    forall l, i, m, j | Pos(g, l, i) && Pos(g, m, j) && DstAt(g.blocks[l], i) == DstAt(g.blocks[m], j)
      ensures l == m && i == j
    {
      HoistDst(f, loop, p, h, l, i);
      HoistDst(f, loop, p, h, m, j);
      var r := DstAt(g.blocks[l], i);
      if r !in h {
        var a :| 0 <= a < Count(f.blocks[l]) && DstAt(f.blocks[l], a) == r;
        var c :| 0 <= c < Count(f.blocks[m]) && DstAt(f.blocks[m], c) == r;
        OneDef(f, l, a, m, c);
      }
      HoistBlockDistinct(f, loop, p, h, l);
    }
  }

  lemma HoistShape(f: Func, loop: Loop, p: Label, h: set<Reg>, l: Label)
    requires f.order != [] && (forall m :: m in loop.blocks ==> m in f.blocks) && l in f.blocks
    ensures var g := Hoist(f, loop.blocks, p, h);
      && g.order == f.order && g.blocks.Keys == f.blocks.Keys
      && g.blocks[l].phis == f.blocks[l].phis && g.blocks[l].term == f.blocks[l].term
  {
  }

  lemma HoistTerm(f: Func, g: Func, t: Term)
    requires f.order != [] && g.order == f.order && g.blocks.Keys == f.blocks.Keys && TermOk(f, t)
    ensures TermOk(g, t)
  {
  }

  lemma HoistCovers(f: Func, g: Func, l: Label)
    requires SameEdges(f, g) && l in f.blocks && l in g.blocks && g.blocks[l].phis == f.blocks[l].phis && PhisCover(f, l)
    ensures PhisCover(g, l)
  {
  }

  lemma HoistFrame(f: Func, loop: Loop, p: Label, h: set<Reg>)
    requires WellFormed(f) && LoopOk(f, loop, p)
    requires UniqueDefs(Hoist(f, loop.blocks, p, h)) && RefsDefined(Hoist(f, loop.blocks, p, h))
    ensures WellFormed(Hoist(f, loop.blocks, p, h))
  {
    var g := Hoist(f, loop.blocks, p, h);
    HoistEdges(f, loop.blocks, p, h);
    forall l | l in f.blocks
      ensures l in g.blocks && TermOk(g, g.blocks[l].term) && PhisCover(g, l)
    {
      HoistShape(f, loop, p, h, l);
      HoistTerm(f, g, f.blocks[l].term);
      HoistCovers(f, g, l);
    }
    HoistShape(f, loop, p, h, f.order[0]);
  }

  lemma HoistVerified(f: Func, loop: Loop, p: Label, h: set<Reg>)
    requires Verified(f) && LoopOk(f, loop, p) && HomesInLoop(f, loop.blocks, h)
    requires OperandClosed(f, loop.blocks, h) && Ordered(Picked(f, loop.blocks, h)) && DefsFirst(Picked(f, loop.blocks, h))
    ensures Verified(Hoist(f, loop.blocks, p, h))
  {
    var g := Hoist(f, loop.blocks, p, h);
    HoistUnique(f, loop, p, h);
    forall l | l in g.blocks
      ensures UsesIn(Defined(g), g.blocks[l])
    {
      HoistUses(f, loop, p, h, l);
    }
    UsesInAll(g);
    HoistFrame(f, loop, p, h);
    HoistSsa(f, loop, p, h);
  }

  /** The IR verifier accepts what SimpleLICM makes of a function it accepts, if no hoisted instruction
      leaves an operand behind. */
  lemma LicmVerified(f: Func, loop: Loop, p: Label, dt: DomTree, s: set<Reg>)
    requires LicmBase(f, loop, p, dt, s) && OperandsSafe(f, loop.blocks, Hoisted(f, loop.blocks, dt, s))
    ensures Verified(Hoist(f, loop.blocks, p, Hoisted(f, loop.blocks, dt, s)))
  {
    HoistedNoDebug(f, loop.blocks, dt, s);
    HoistedOrdered(f, loop, p, dt, s);
    SafeIsClosed(f, loop, p, dt, s);
    HoistVerified(f, loop, p, Hoisted(f, loop.blocks, dt, s));
  }

  // ----- A left-behind operand breaks strict SSA form -----

  lemma BodyHome(f: Func, ls: seq<Label>, y: Instr) returns (m: Label, j: nat)
    requires (forall l :: l in ls ==> l in f.blocks) && InBody(f, ls, y)
    ensures m in ls && j < Count(f.blocks[m]) && DstAt(f.blocks[m], j) == y.dst
  {
    m :| m in ls && y in f.blocks[m].body;
    var i :| 0 <= i < |f.blocks[m].body| && f.blocks[m].body[i] == y;
    j := |f.blocks[m].phis| + i;
  }

  /** There is a path to the preheader that goes through no block of the loop. */
  lemma PathAround(f: Func, loop: Loop, p: Label) returns (q: seq<Label>)
    requires f.order != [] && LoopOk(f, loop, p)
    ensures PathTo(f, q, p) && forall i :: 0 <= i < |q| ==> q[i] !in loop.blocks
  {
    assert loop.blocks[0] in loop.blocks;
    var q0 :| PathTo(f, q0, loop.blocks[0]);
    EnteredThrough(f, loop, p, q0, |q0| - 1);
    var s := FirstOf(q0, p);
    PathHead(f, q0, s);
    q := q0[..s + 1];
    forall i | 0 <= i < |q|
      ensures q[i] !in loop.blocks
    {
      if q[i] in loop.blocks {
        EnteredThrough(f, loop, p, q0, i);
      }
    }
  }

  /** A register the loop still writes has no value in the preheader. */
  lemma NotInPreheader(f: Func, loop: Loop, p: Label, h: set<Reg>, m: Label, j: nat, i: int)
    requires Hoisting(f, loop, p, h) && m in loop.blocks && j < Count(f.blocks[m]) && DstAt(f.blocks[m], j) !in h
    ensures !Reaches(Hoist(f, loop.blocks, p, h), p, i, DstAt(f.blocks[m], j))
  {
    var g, r := Hoist(f, loop.blocks, p, h), DstAt(f.blocks[m], j);
    forall l, a | l in f.blocks && l !in loop.blocks && 0 <= a < Count(g.blocks[l])
      ensures DstAt(g.blocks[l], a) != r
    {
      HoistDst(f, loop, p, h, l, a);
      if DstAt(g.blocks[l], a) == r {
        var c :| 0 <= c < Count(f.blocks[l]) && DstAt(f.blocks[l], c) == r;
        OneDef(f, l, c, m, j);
      }
    }
    var b := g.blocks[p];
    assert forall a :: 0 <= a < |b.phis| ==> DstAt(b, a) == b.phis[a].dst;
    assert forall a :: 0 <= a < |b.body| ==> DstAt(b, |b.phis| + a) == b.body[a].dst;
    var q := PathAround(f, loop, p);
    HoistEdges(f, loop.blocks, p, h);
    assert PathTo(g, q, p);
    forall k | 0 <= k < |q|
      ensures !DefinesValue(g, q[k], r)
    {
    }
  }

  lemma LeftBehind(f: Func, loop: Loop, p: Label, h: set<Reg>, x: Instr, y: Instr)
    requires Hoisting(f, loop, p, h) && InBody(f, loop.blocks, x) && InBody(f, loop.blocks, y) && x.dst in h && y.dst !in h
    requires ReadsReg(x, y.dst) && !x.op.dbg
    ensures !Ssa(Hoist(f, loop.blocks, p, h))
  {
    var g, hs := Hoist(f, loop.blocks, p, h), Picked(f, loop.blocks, h);
    PickedIs(f, loop.blocks, h, x);
    var k :| 0 <= k < |hs| && hs[k] == x;
    var i := |f.blocks[p].body| + k;
    assert g.blocks[p].body[i] == x;
    var a :| 0 <= a < |x.args| && x.args[a] == Ref(y.dst);
    var m, j := BodyHome(f, loop.blocks, y);
    NotInPreheader(f, loop, p, h, m, j, i);
    assert !BodySsa(g, p);
  }

  /** The result of the pass is in strict SSA form exactly when every operand the loop computes for a
      hoisted instruction is safe to speculate. */
  lemma LicmVerifiedIff(f: Func, loop: Loop, p: Label, dt: DomTree, s: set<Reg>)
    requires LicmBase(f, loop, p, dt, s)
    ensures Verified(Hoist(f, loop.blocks, p, Hoisted(f, loop.blocks, dt, s))) <==>
      OperandsSafe(f, loop.blocks, Hoisted(f, loop.blocks, dt, s))
  {
    var ls, h := loop.blocks, Hoisted(f, loop.blocks, dt, s);
    if OperandsSafe(f, ls, h) {
      LicmVerified(f, loop, p, dt, s);
    } else {
      HoistedNoDebug(f, ls, dt, s);
      var x, y :| InBody(f, ls, x) && x.dst in h && InBody(f, ls, y) && ReadsReg(x, y.dst) && !y.op.safe;
      if y.dst in h {
        HoistedIsSafe(f, ls, dt, s, y);
      }
      LeftBehind(f, loop, p, h, x, y);
    }
  }
}
