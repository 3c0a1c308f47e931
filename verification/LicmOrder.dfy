/** When the hoisted code is def-before-use: exactly when no hoisted instruction leaves an operand
    behind. */
module LicmOrder {
  import opened IR
  import opened Semantics
  import opened Paths
  import opened StrictSsa
  import opened LicmSpec
  import opened LicmSound
  import opened LicmPaths
  import opened LicmRuns

  // ----- Dominance -----

  lemma PathHead(f: Func, q: seq<Label>, i: nat)
    requires f.order != [] && IsPath(f, q) && i < |q|
    ensures PathTo(f, q[..i + 1], q[i])
  {
  }

  lemma DominatesTrans(f: Func, a: Label, b: Label, c: Label)
    requires f.order != [] && Dominates(f, a, b) && Dominates(f, b, c)
    ensures Dominates(f, a, c)
  {
    forall q | PathTo(f, q, c)
      ensures a in q
    {
      var i :| 0 <= i < |q| && q[i] == b;
      PathHead(f, q, i);
    }
  }

  /** A reachable block's own values are not available on entry to it. */
  lemma SelfUnavailable(f: Func, l: Label, j: nat, r: Reg)
    requires f.order != [] && UniqueDefs(f) && Reachable(f, l) && DefinedAt(f, l, j, r)
    ensures !Available(f, Ref(r), l)
  {
    var q :| PathTo(f, q, l);
    var s := FirstOf(q, l);
    PathHead(f, q, s);
    var q' := q[..s + 1];
    if Available(f, Ref(r), l) {
      var i :| 0 <= i < |q'| - 1 && DefinesValue(f, q'[i], r);
      var k: nat :| DefinedAt(f, q'[i], k, r);
      OneDef(f, q'[i], k, l, j);
    }
  }

  lemma AvailableDominates(f: Func, l: Label, m: Label, j: nat, r: Reg)
    requires f.order != [] && UniqueDefs(f) && m in f.blocks && j < Count(f.blocks[m]) && DstAt(f.blocks[m], j) == r
    requires Available(f, Ref(r), l)
    ensures Dominates(f, m, l)
  {
    forall q | PathTo(f, q, l)
      ensures m in q
    {
      var i :| 0 <= i < |q| - 1 && DefinesValue(f, q[i], r);
      var k: nat :| DefinedAt(f, q[i], k, r);
      OneDef(f, q[i], k, m, j);
    }
  }

  lemma DefinedOnPath(f: Func, l: Label, m: Label, j: nat, r: Reg)
    requires f.order != [] && UniqueDefs(f) && m in f.blocks && j < Count(f.blocks[m]) && DstAt(f.blocks[m], j) == r
    requires Reachable(f, l) && Available(f, Ref(r), l)
    ensures DefinedAt(f, m, j, r)
  {
    var q :| PathTo(f, q, l);
    var i :| 0 <= i < |q| - 1 && DefinesValue(f, q[i], r);
    var k: nat :| DefinedAt(f, q[i], k, r);
    OneDef(f, q[i], k, m, j);
  }

  /** An operand made by body instruction j of m and read by instruction i of l: earlier in the same
      body, or in a block that dominates l. */
  ghost predicate MadeEarlier(f: Func, l: Label, i: nat, m: Label, j: nat)
    requires f.order != []
  {
    if m == l then j < i else Dominates(f, m, l)
  }

  lemma UseComesLater(f: Func, l: Label, i: nat, m: Label, j: nat)
    requires f.order != [] && UniqueDefs(f) && l in f.blocks && m in f.blocks && BodySsa(f, l) && Reachable(f, l)
    requires i < |f.blocks[l].body| && j < |f.blocks[m].body| && !f.blocks[l].body[i].op.dbg
    requires ReadsReg(f.blocks[l].body[i], f.blocks[m].body[j].dst)
    ensures MadeEarlier(f, l, i, m, j)
  {
    var x, r := f.blocks[l].body[i], f.blocks[m].body[j].dst;
    var k :| 0 <= k < |x.args| && x.args[k] == Ref(r);
    assert Reaches(f, l, i, r);
    if Available(f, Ref(r), l) {
      AvailableDominates(f, l, m, |f.blocks[m].phis| + j, r);
      DefinedOnPath(f, l, m, |f.blocks[m].phis| + j, r);
      if m == l {
        SelfUnavailable(f, l, |f.blocks[m].phis| + j, r);
      }
    } else if MadeBefore(f.blocks[l].body, i, r) {
      var h :| 0 <= h < i && f.blocks[l].body[h].dst == r;
      OneDef(f, l, |f.blocks[l].phis| + h, m, |f.blocks[m].phis| + j);
    } else {
      var h :| 0 <= h < |f.blocks[l].phis| && f.blocks[l].phis[h].dst == r;
      OneDef(f, l, h, m, |f.blocks[m].phis| + j);
    }
  }

  // ----- The order of the hoisted instructions -----

  /** x may stand before y. */
  ghost predicate Before(x: Instr, y: Instr) { x.dst != y.dst && !ReadsReg(x, y.dst) }

  ghost predicate Ordered(hs: seq<Instr>) {
    && (forall j :: 0 <= j < |hs| ==> !ReadsReg(hs[j], hs[j].dst))
    && (forall j, k :: 0 <= j < k < |hs| ==> Before(hs[j], hs[k]))
  }

  lemma {:induction false} TakenPair(body: seq<Instr>, h: set<Reg>, j: nat, k: nat) returns (a: nat, b: nat)
    requires j <= k < |Taken(body, h)|
    ensures a <= b < |body| && (j < k ==> a < b) && (j == k ==> a == b)
    ensures Taken(body, h)[j] == body[a] && Taken(body, h)[k] == body[b] && body[a].dst in h && body[b].dst in h
  {
    var n := if body[0].dst in h then 1 else 0;
    if k < n {
      a, b := 0, 0;
    } else if j < n {
      a, b := TakenPair(body[1..], h, k - n, k - n);
      a, b := 0, b + 1;
    } else {
      a, b := TakenPair(body[1..], h, j - n, k - n);
      a, b := a + 1, b + 1;
    }
  }

  /** No debug intrinsic has its register in h. */
  ghost predicate NoDebug(f: Func, ls: seq<Label>, h: set<Reg>)
    requires forall l :: l in ls ==> l in f.blocks
  {
    forall x :: InBody(f, ls, x) && x.dst in h ==> !x.op.dbg
  }

  ghost predicate LoopBase(f: Func, loop: Loop, p: Label, h: set<Reg>) {
    WellFormed(f) && Ssa(f) && LoopOk(f, loop, p) && DominatorsFirst(f, loop.blocks) && NoDebug(f, loop.blocks, h)
  }

  lemma OneBlockOrdered(f: Func, loop: Loop, p: Label, h: set<Reg>, l: Label)
    requires LoopBase(f, loop, p, h) && l in loop.blocks
    ensures Ordered(Taken(f.blocks[l].body, h))
  {
    var body, t := f.blocks[l].body, Taken(f.blocks[l].body, h);
    forall j, k | 0 <= j <= k < |t|
      ensures !ReadsReg(t[j], t[k].dst) && (j < k ==> t[j].dst != t[k].dst)
    {
      var a, b := TakenPair(body, h, j, k);
      assert InBody(f, loop.blocks, body[a]);
      if ReadsReg(t[j], t[k].dst) {
        UseComesLater(f, l, a, l, b);
      }
      if j < k && t[j].dst == t[k].dst {
        OneDef(f, l, |f.blocks[l].phis| + a, l, |f.blocks[l].phis| + b);
      }
    }
  }

  lemma CrossBlocks(f: Func, l: Label, i: nat, m: Label, j: nat)
    requires f.order != [] && UniqueDefs(f) && l in f.blocks && m in f.blocks && BodySsa(f, l) && Reachable(f, l)
    requires i < |f.blocks[l].body| && j < |f.blocks[m].body| && !f.blocks[l].body[i].op.dbg
    requires l != m && !Dominates(f, m, l)
    ensures Before(f.blocks[l].body[i], f.blocks[m].body[j])
  {
    if ReadsReg(f.blocks[l].body[i], f.blocks[m].body[j].dst) {
      UseComesLater(f, l, i, m, j);
    }
    if f.blocks[l].body[i].dst == f.blocks[m].body[j].dst {
      OneDef(f, l, |f.blocks[l].phis| + i, m, |f.blocks[m].phis| + j);
    }
  }

  lemma PickedPosition(f: Func, loop: Loop, h: set<Reg>, n: nat, x: Instr) returns (a: nat, i: nat)
    requires (forall l :: l in loop.blocks ==> l in f.blocks) && n <= |loop.blocks|
    requires x in Picked(f, loop.blocks[..n], h)
    ensures a < n && i < |f.blocks[loop.blocks[a]].body| && f.blocks[loop.blocks[a]].body[i] == x && x.dst in h
    ensures InBody(f, loop.blocks, x)
  {
    PickedIs(f, loop.blocks[..n], h, x);
    var l :| l in loop.blocks[..n] && x in f.blocks[l].body;
    a :| 0 <= a < n && loop.blocks[a] == l;
    i :| 0 <= i < |f.blocks[l].body| && f.blocks[l].body[i] == x;
  }

  lemma TwoBlocksOrdered(f: Func, loop: Loop, p: Label, h: set<Reg>, n: nat, x: Instr, y: Instr)
    requires LoopBase(f, loop, p, h) && n < |loop.blocks|
    requires x in Picked(f, loop.blocks[..n], h) && y in Taken(f.blocks[loop.blocks[n]].body, h)
    ensures Before(x, y)
  {
    var a, i := PickedPosition(f, loop, h, n, x);
    var l, m := loop.blocks[a], loop.blocks[n];
    TakenIs(f.blocks[m].body, h, y);
    var j :| 0 <= j < |f.blocks[m].body| && f.blocks[m].body[j] == y;
    assert BodySsa(f, l);
    CrossBlocks(f, l, i, m, j);
  }

  lemma OrderedAppend(s: seq<Instr>, t: seq<Instr>)
    requires Ordered(s) && Ordered(t) && forall x, y :: x in s && y in t ==> Before(x, y)
    ensures Ordered(s + t)
  {
    forall j, k | 0 <= j < k < |s + t|
      ensures Before((s + t)[j], (s + t)[k])
    {
      if j < |s| <= k {
        assert (s + t)[j] in s && (s + t)[k] in t;
      }
    }
  }

  lemma NextBlockOrdered(f: Func, loop: Loop, p: Label, h: set<Reg>, n: nat)
    requires LoopBase(f, loop, p, h) && n < |loop.blocks| && loop.blocks[n] in f.blocks
    ensures forall x, y :: x in Picked(f, loop.blocks[..n], h) && y in Taken(f.blocks[loop.blocks[n]].body, h) ==> Before(x, y)
  {
    forall x, y | x in Picked(f, loop.blocks[..n], h) && y in Taken(f.blocks[loop.blocks[n]].body, h)
      ensures Before(x, y)
    {
      TwoBlocksOrdered(f, loop, p, h, n, x, y);
    }
  }

  lemma PickedMore(f: Func, ls: seq<Label>, h: set<Reg>, n: nat)
    requires n < |ls| && forall l :: l in ls ==> l in f.blocks
    ensures Picked(f, ls[..n + 1], h) == Picked(f, ls[..n], h) + Taken(f.blocks[ls[n]].body, h)
  {
    assert ls[..n + 1][..n] == ls[..n];
  }

  lemma {:induction false} PickedOrdered(f: Func, loop: Loop, p: Label, h: set<Reg>, n: nat)
    requires LoopBase(f, loop, p, h) && n <= |loop.blocks|
    ensures Ordered(Picked(f, loop.blocks[..n], h))
  {
    if n > 0 {
      PickedOrdered(f, loop, p, h, n - 1);
      OneBlockOrdered(f, loop, p, h, loop.blocks[n - 1]);
      NextBlockOrdered(f, loop, p, h, n - 1);
      PickedMore(f, loop.blocks, h, n - 1);
      OrderedAppend(Picked(f, loop.blocks[..n - 1], h), Taken(f.blocks[loop.blocks[n - 1]].body, h));
    }
  }

  lemma OrderedFirst(hs: seq<Instr>)
    requires Ordered(hs)
    ensures DefsFirst(hs)
  {
    forall j, k | 0 <= j <= k < |hs|
      ensures !ReadsReg(hs[j], hs[k].dst)
    {
      assert j < k ==> Before(hs[j], hs[k]);
    }
  }

  /** Taken in loop order, no instruction reads its own result or a later one. */
  lemma PickedDefsFirst(f: Func, loop: Loop, p: Label, h: set<Reg>)
    requires LoopBase(f, loop, p, h)
    ensures Ordered(Picked(f, loop.blocks, h)) && DefsFirst(Picked(f, loop.blocks, h))
  {
    PickedOrdered(f, loop, p, h, |loop.blocks|);
    assert loop.blocks[..|loop.blocks|] == loop.blocks;
    OrderedFirst(Picked(f, loop.blocks, h));
  }

  // ----- Operands of hoisted instructions -----

  /** What the pass is run on: its set of invariants and the loop it comes from. */
  ghost predicate LicmBase(f: Func, loop: Loop, p: Label, dt: DomTree, s: set<Reg>) {
    && WellFormed(f) && Ssa(f) && LoopOk(f, loop, p)
    && DominatorsFirst(f, loop.blocks) && DomTreeOk(f, dt) && InvariantSet(f, loop.blocks, s)
  }

  lemma OneInstrPerReg(f: Func, ls: seq<Label>, x: Instr, y: Instr)
    requires forall l :: l in ls ==> l in f.blocks
    requires UniqueDefs(f) && InBody(f, ls, x) && InBody(f, ls, y) && x.dst == y.dst
    ensures x == y
  {
    var l :| l in ls && x in f.blocks[l].body;
    var m :| m in ls && y in f.blocks[m].body;
    var i :| 0 <= i < |f.blocks[l].body| && f.blocks[l].body[i] == x;
    var j :| 0 <= j < |f.blocks[m].body| && f.blocks[m].body[j] == y;
    OneDef(f, l, |f.blocks[l].phis| + i, m, |f.blocks[m].phis| + j);
  }

  lemma InvariantOf(f: Func, ls: seq<Label>, s: set<Reg>, x: Instr)
    requires forall l :: l in ls ==> l in f.blocks
    requires UniqueDefs(f) && InvariantSet(f, ls, s) && InBody(f, ls, x) && x.dst in s
    ensures Invariant(LoopRegs(f, ls), s, x)
  {
    MembersHaveReasons(f, ls, s);
    assert HasReason(f, ls, s, x.dst);
    var y :| InBody(f, ls, y) && y.dst == x.dst && Invariant(LoopRegs(f, ls), s, y);
    OneInstrPerReg(f, ls, x, y);
  }

  lemma HoistedAt(f: Func, ls: seq<Label>, dt: DomTree, s: set<Reg>, r: Reg) returns (l: Label, i: nat)
    requires (forall l :: l in ls ==> l in f.blocks) && r in Hoisted(f, ls, dt, s)
    ensures l in ls && i < |f.blocks[l].body| && f.blocks[l].body[i].dst == r && r in s
    ensures f.blocks[l].body[i].op.safe && DominatesExits(f, ls, dt, l) && InBody(f, ls, f.blocks[l].body[i])
  {
    l, i :| l in ls && 0 <= i < |f.blocks[l].body| && f.blocks[l].body[i].dst in s
      && f.blocks[l].body[i].op.safe && DominatesExits(f, ls, dt, l) && f.blocks[l].body[i].dst == r;
  }

  lemma InHoisted(f: Func, ls: seq<Label>, dt: DomTree, s: set<Reg>, l: Label, i: nat)
    requires (forall l :: l in ls ==> l in f.blocks) && l in ls && i < |f.blocks[l].body|
    requires f.blocks[l].body[i].dst in s && f.blocks[l].body[i].op.safe && DominatesExits(f, ls, dt, l)
    ensures f.blocks[l].body[i].dst in Hoisted(f, ls, dt, s)
  {
  }

  /** A block that dominates one that dominates all exits dominates all exits. */
  lemma ExitsInherited(f: Func, loop: Loop, p: Label, dt: DomTree, l: Label, m: Label)
    requires f.order != [] && LoopOk(f, loop, p) && DomTreeOk(f, dt) && (forall l :: l in f.blocks ==> TermOk(f, f.blocks[l].term))
    requires l in loop.blocks && m in loop.blocks && Dominates(f, m, l) && DominatesExits(f, loop.blocks, dt, l)
    ensures DominatesExits(f, loop.blocks, dt, m)
  {
    forall e | e in ExitBlocks(f, loop.blocks)
      ensures (m, e) in dt
    {
      assert (l, e) in dt && e in f.blocks;
      DominatesTrans(f, m, l, e);
    }
  }

  lemma OperandDominatesExits(f: Func, loop: Loop, p: Label, dt: DomTree, l: Label, i: nat, m: Label, j: nat)
    requires WellFormed(f) && Ssa(f) && LoopOk(f, loop, p) && DomTreeOk(f, dt) && l in loop.blocks && m in loop.blocks
    requires i < |f.blocks[l].body| && j < |f.blocks[m].body| && !f.blocks[l].body[i].op.dbg
    requires ReadsReg(f.blocks[l].body[i], f.blocks[m].body[j].dst) && DominatesExits(f, loop.blocks, dt, l)
    ensures DominatesExits(f, loop.blocks, dt, m)
  {
    assert BodySsa(f, l);
    UseComesLater(f, l, i, m, j);
    if m != l {
      ExitsInherited(f, loop, p, dt, l, m);
    }
  }

  lemma OperandInvariantToo(inside: set<Reg>, s: set<Reg>, x: Instr, r: Reg)
    requires Invariant(inside, s, x) && ReadsReg(x, r) && r in inside
    ensures r in s
  {
    var k :| 0 <= k < |x.args| && x.args[k] == Ref(r);
    assert OperandInvariant(inside, s, x.args[k]);
  }

  /** Exit dominance is inherited by the in-loop operands of a hoisted instruction. */
  lemma OperandExits(f: Func, loop: Loop, p: Label, dt: DomTree, s: set<Reg>, x: Instr, m: Label, j: nat)
    requires LicmBase(f, loop, p, dt, s) && InBody(f, loop.blocks, x) && x.dst in Hoisted(f, loop.blocks, dt, s)
    requires m in loop.blocks && j < |f.blocks[m].body| && ReadsReg(x, f.blocks[m].body[j].dst) && !x.op.dbg
    ensures DominatesExits(f, loop.blocks, dt, m)
  {
    var l, i := HoistedAt(f, loop.blocks, dt, s, x.dst);
    OneInstrPerReg(f, loop.blocks, x, f.blocks[l].body[i]);
    OperandDominatesExits(f, loop, p, dt, l, i, m, j);
  }

  /** Every operand that the loop computes for a hoisted instruction is safe to speculate. */
  ghost predicate OperandsSafe(f: Func, ls: seq<Label>, h: set<Reg>)
    requires forall l :: l in ls ==> l in f.blocks
  {
    forall x, y :: InBody(f, ls, x) && x.dst in h && InBody(f, ls, y) && ReadsReg(x, y.dst) ==> y.op.safe
  }

  /** Every operand that the loop computed for an instruction of hs is now computed earlier in hs. */
  ghost predicate DefBeforeUse(f: Func, ls: seq<Label>, hs: seq<Instr>)
    requires forall l :: l in ls ==> l in f.blocks
  {
    forall j, r: nat :: 0 <= j < |hs| && r in LoopRegs(f, ls) && ReadsReg(hs[j], r) ==> EarlierIn(hs, j, r)
  }

  ghost predicate EarlierIn(hs: seq<Instr>, j: int, r: Reg) { exists k :: 0 <= k < j && k < |hs| && hs[k].dst == r }

  /** The instruction behind an in-loop operand of a hoisted instruction. */
  lemma OperandIn(f: Func, loop: Loop, p: Label, dt: DomTree, s: set<Reg>, x: Instr, r: Reg) returns (y: Instr)
    requires LicmBase(f, loop, p, dt, s) && InBody(f, loop.blocks, x) && x.dst in Hoisted(f, loop.blocks, dt, s)
    requires r in LoopRegs(f, loop.blocks) && ReadsReg(x, r)
    ensures InBody(f, loop.blocks, y) && y.dst == r && r in s && !x.op.dbg
  {
    var ls := loop.blocks;
    var l, i := HoistedAt(f, ls, dt, s, x.dst);
    InvariantOf(f, ls, s, x);
    OperandInvariantToo(LoopRegs(f, ls), s, x, r);
    MembersHaveReasons(f, ls, s);
    assert HasReason(f, ls, s, r);
    y :| InBody(f, ls, y) && y.dst == r && Invariant(LoopRegs(f, ls), s, y);
  }

  /** A safe operand of a hoisted instruction is hoisted too. */
  lemma SafeOperandHoisted(f: Func, loop: Loop, p: Label, dt: DomTree, s: set<Reg>, x: Instr, r: Reg)
    requires LicmBase(f, loop, p, dt, s) && OperandsSafe(f, loop.blocks, Hoisted(f, loop.blocks, dt, s))
    requires InBody(f, loop.blocks, x) && x.dst in Hoisted(f, loop.blocks, dt, s)
    requires r in LoopRegs(f, loop.blocks) && ReadsReg(x, r)
    ensures r in Hoisted(f, loop.blocks, dt, s)
  {
    var y := OperandIn(f, loop, p, dt, s, x, r);
    var m :| m in loop.blocks && y in f.blocks[m].body;
    var j :| 0 <= j < |f.blocks[m].body| && f.blocks[m].body[j] == y;
    OperandExits(f, loop, p, dt, s, x, m, j);
    InHoisted(f, loop.blocks, dt, s, m, j);
  }

  lemma HoistedIsSafe(f: Func, ls: seq<Label>, dt: DomTree, s: set<Reg>, x: Instr)
    requires forall l :: l in ls ==> l in f.blocks
    requires UniqueDefs(f) && InBody(f, ls, x) && x.dst in Hoisted(f, ls, dt, s)
    ensures x.op.safe && x.dst in s
  {
    var l, i := HoistedAt(f, ls, dt, s, x.dst);
    OneInstrPerReg(f, ls, x, f.blocks[l].body[i]);
  }

  lemma HoistedNoDebug(f: Func, ls: seq<Label>, dt: DomTree, s: set<Reg>)
    requires forall l :: l in ls ==> l in f.blocks
    requires UniqueDefs(f) && InvariantSet(f, ls, s)
    ensures NoDebug(f, ls, Hoisted(f, ls, dt, s)) && HomesInLoop(f, ls, Hoisted(f, ls, dt, s))
  {
    forall x | InBody(f, ls, x) && x.dst in Hoisted(f, ls, dt, s)
      ensures !x.op.dbg
    {
      HoistedIsSafe(f, ls, dt, s, x);
      InvariantOf(f, ls, s, x);
    }
    forall r | r in Hoisted(f, ls, dt, s)
      ensures exists x :: InBody(f, ls, x) && x.dst == r
    {
      var l, i := HoistedAt(f, ls, dt, s, r);
    }
  }

  lemma HoistedOrdered(f: Func, loop: Loop, p: Label, dt: DomTree, s: set<Reg>)
    requires LicmBase(f, loop, p, dt, s)
    ensures var hs := Picked(f, loop.blocks, Hoisted(f, loop.blocks, dt, s)); Ordered(hs) && DefsFirst(hs)
  {
    HoistedNoDebug(f, loop.blocks, dt, s);
    PickedDefsFirst(f, loop, p, Hoisted(f, loop.blocks, dt, s));
  }

  lemma EarlierOf(hs: seq<Instr>, j: nat, y: Instr)
    requires DefsFirst(hs) && j < |hs| && y in hs && ReadsReg(hs[j], y.dst)
    ensures EarlierIn(hs, j, y.dst)
  {
    var k :| 0 <= k < |hs| && hs[k] == y;
    assert k < j;
  }

  /** The hoisted code is def-before-use exactly when every operand the loop computes for a hoisted
      instruction is safe to speculate. */
  lemma DefBeforeUseIff(f: Func, loop: Loop, p: Label, dt: DomTree, s: set<Reg>)
    requires LicmBase(f, loop, p, dt, s)
    ensures var h := Hoisted(f, loop.blocks, dt, s);
      DefBeforeUse(f, loop.blocks, Picked(f, loop.blocks, h)) <==> OperandsSafe(f, loop.blocks, h)
  {
    var ls, h := loop.blocks, Hoisted(f, loop.blocks, dt, s);
    if OperandsSafe(f, ls, h) {
      SafeIsOrdered(f, loop, p, dt, s);
    }
    if DefBeforeUse(f, ls, Picked(f, ls, h)) {
      OrderedIsSafe(f, loop, p, dt, s);
    }
  }

  lemma SafeIsOrdered(f: Func, loop: Loop, p: Label, dt: DomTree, s: set<Reg>)
    requires LicmBase(f, loop, p, dt, s) && OperandsSafe(f, loop.blocks, Hoisted(f, loop.blocks, dt, s))
    ensures DefBeforeUse(f, loop.blocks, Picked(f, loop.blocks, Hoisted(f, loop.blocks, dt, s)))
  {
    var ls, h := loop.blocks, Hoisted(f, loop.blocks, dt, s);
    var hs := Picked(f, ls, h);
    HoistedOrdered(f, loop, p, dt, s);
    forall j, r: nat | 0 <= j < |hs| && r in LoopRegs(f, ls) && ReadsReg(hs[j], r)
      ensures EarlierIn(hs, j, r)
    {
      PickedIs(f, ls, h, hs[j]);
      SafeOperandHoisted(f, loop, p, dt, s, hs[j], r);
      var y := OperandIn(f, loop, p, dt, s, hs[j], r);
      PickedIs(f, ls, h, y);
      EarlierOf(hs, j, y);
    }
  }

  lemma OrderedIsSafe(f: Func, loop: Loop, p: Label, dt: DomTree, s: set<Reg>)
    requires LicmBase(f, loop, p, dt, s)
    requires DefBeforeUse(f, loop.blocks, Picked(f, loop.blocks, Hoisted(f, loop.blocks, dt, s)))
    ensures OperandsSafe(f, loop.blocks, Hoisted(f, loop.blocks, dt, s))
  {
    var ls, h := loop.blocks, Hoisted(f, loop.blocks, dt, s);
    var hs := Picked(f, ls, h);
    forall x, y | InBody(f, ls, x) && x.dst in h && InBody(f, ls, y) && ReadsReg(x, y.dst)
      ensures y.op.safe
    {
      PickedIs(f, ls, h, x);
      var j :| 0 <= j < |hs| && hs[j] == x;
      BodyReg(f, ls, y);
      assert EarlierIn(hs, j, y.dst);
      var k :| 0 <= k < j && hs[k].dst == y.dst;
      PickedIs(f, ls, h, hs[k]);
      OneInstrPerReg(f, ls, hs[k], y);
      HoistedIsSafe(f, ls, dt, s, y);
    }
  }

  lemma BodyReg(f: Func, ls: seq<Label>, y: Instr)
    requires (forall l :: l in ls ==> l in f.blocks) && InBody(f, ls, y)
    ensures y.dst in LoopRegs(f, ls)
  {
    var m :| m in ls && y in f.blocks[m].body;
    var j :| 0 <= j < |f.blocks[m].body| && f.blocks[m].body[j] == y;
    RegInLoop(f, ls, m, |f.blocks[m].phis| + j);
  }

  // ----- The pass -----

  lemma SafeIsClosed(f: Func, loop: Loop, p: Label, dt: DomTree, s: set<Reg>)
    requires LicmBase(f, loop, p, dt, s) && OperandsSafe(f, loop.blocks, Hoisted(f, loop.blocks, dt, s))
    ensures OperandClosed(f, loop.blocks, Hoisted(f, loop.blocks, dt, s))
  {
    var ls, h := loop.blocks, Hoisted(f, loop.blocks, dt, s);
    forall x | InBody(f, ls, x) && x.dst in h
      ensures Invariant(LoopRegs(f, ls), h, x) && x.op.safe
    {
      HoistedIsSafe(f, ls, dt, s, x);
      InvariantOf(f, ls, s, x);
      forall k | 0 <= k < |x.args| && x.args[k].Ref? && x.args[k].r in LoopRegs(f, ls)
        ensures x.args[k].r in h
      {
        assert ReadsReg(x, x.args[k].r);
        SafeOperandHoisted(f, loop, p, dt, s, x, x.args[k].r);
      }
    }
  }

  lemma MovableOf(f: Func, ls: seq<Label>, h: set<Reg>)
    requires forall l :: l in ls ==> l in f.blocks
    requires OperandClosed(f, ls, h) && Ordered(Picked(f, ls, h))
    ensures Movable(Picked(f, ls, h))
  {
    var hs := Picked(f, ls, h);
    forall k | 0 <= k < |hs|
      ensures RegisterOnly(hs[k].op) && hs[k].op.safe
    {
      PickedIs(f, ls, h, hs[k]);
      assert Invariant(LoopRegs(f, ls), h, hs[k]);
    }
    assert forall j, k :: 0 <= j < k < |hs| ==> Before(hs[j], hs[k]);
  }

  /** SimpleLICM preserves the meaning of every run when no hoisted instruction leaves an operand
      behind. */
  lemma LicmPreserves(w: World, f: Func, loop: Loop, p: Label, dt: DomTree, s: set<Reg>)
    requires LicmBase(f, loop, p, dt, s) && Honest(w) && OperandsSafe(f, loop.blocks, Hoisted(f, loop.blocks, dt, s))
    ensures Lockstep(w, f, Hoist(f, loop.blocks, p, Hoisted(f, loop.blocks, dt, s)))
  {
    var h := Hoisted(f, loop.blocks, dt, s);
    HoistedNoDebug(f, loop.blocks, dt, s);
    HoistedOrdered(f, loop, p, dt, s);
    SafeIsClosed(f, loop, p, dt, s);
    MovableOf(f, loop.blocks, h);
    HoistPreserves(w, f, loop, p, h);
  }
}
