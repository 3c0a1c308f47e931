/** The SimpleLICM pass: the in-place code, proved against LicmSpec. */
module SimpleLICM {
  import opened IR
  import opened Paths
  import opened StrictSsa
  import opened FunctionState
  import opened LicmSpec
  import opened LicmRuns
  import opened LicmExact

  // ----- The list of instructions -----

  /** The instructions of insts whose register is in h. */
  function TakenInsts(insts: seq<Inst>, h: set<Reg>): seq<Instr> {
    if insts == [] then []
    else
      var i := insts[|insts| - 1];
      TakenInsts(insts[..|insts| - 1], h) + (if i.BodyInst? && i.x.dst in h then [i.x] else [])
  }

  lemma {:induction false} TakenAppend(s: seq<Inst>, t: seq<Inst>, h: set<Reg>)
    ensures TakenInsts(s + t, h) == TakenInsts(s, h) + TakenInsts(t, h)
  {
    if t == [] {
      assert s + t == s;
    } else {
      var n := |t| - 1;
      TakenAppend(s, t[..n], h);
      assert (s + t)[..|s + t| - 1] == s + t[..n] && (s + t)[|s + t| - 1] == t[n];
    }
  }

  lemma {:induction false} TakenPhis(l: Label, phis: seq<Phi>, h: set<Reg>)
    ensures TakenInsts(PhiInsts(l, phis), h) == []
  {
    if phis != [] {
      TakenPhis(l, phis[1..], h);
      TakenAppend([PhiInst(l, phis[0])], PhiInsts(l, phis[1..]), h);
      assert [PhiInst(l, phis[0])][..0] == [];
    }
  }

  lemma {:induction false} TakenBody(l: Label, body: seq<Instr>, h: set<Reg>)
    ensures TakenInsts(BodyInsts(l, body), h) == Taken(body, h)
  {
    if body != [] {
      TakenBody(l, body[1..], h);
      TakenAppend([BodyInst(l, body[0])], BodyInsts(l, body[1..]), h);
      assert [BodyInst(l, body[0])][..0] == [];
    }
  }

  lemma TakenBlock(l: Label, b: Block, h: set<Reg>)
    ensures TakenInsts(BlockInsts(l, b), h) == Taken(b.body, h)
  {
    TakenPhis(l, b.phis, h);
    TakenBody(l, b.body, h);
    TakenAppend(PhiInsts(l, b.phis), BodyInsts(l, b.body), h);
    TakenAppend(PhiInsts(l, b.phis) + BodyInsts(l, b.body), [TermInst(l)], h);
    assert [TermInst(l)][..0] == [];
  }

  lemma {:induction false} TakenLoop(f: Func, ls: seq<Label>, h: set<Reg>)
    requires forall l :: l in ls ==> l in f.blocks
    ensures TakenInsts(LoopInsts(f, ls), h) == Picked(f, ls, h)
  {
    if ls != [] {
      var n := |ls| - 1;
      TakenLoop(f, ls[..n], h);
      TakenBlock(ls[n], f.blocks[ls[n]], h);
      TakenAppend(LoopInsts(f, ls[..n]), BlockInsts(ls[n], f.blocks[ls[n]]), h);
    }
  }

  lemma {:induction false} PhiInstsIs(l: Label, phis: seq<Phi>, i: Inst)
    ensures i in PhiInsts(l, phis) ==> i.PhiInst?
  {
    if phis != [] {
      PhiInstsIs(l, phis[1..], i);
    }
  }

  lemma {:induction false} BodyInstsIs(l: Label, body: seq<Instr>, m: Label, x: Instr)
    ensures BodyInst(m, x) in BodyInsts(l, body) <==> m == l && x in body
  {
    if body != [] {
      BodyInstsIs(l, body[1..], m, x);
      assert body == [body[0]] + body[1..];
    }
  }

  lemma {:induction false} LoopInstsIs(f: Func, ls: seq<Label>, m: Label, x: Instr)
    requires forall l :: l in ls ==> l in f.blocks
    ensures BodyInst(m, x) in LoopInsts(f, ls) <==> m in ls && x in f.blocks[m].body
  {
    if ls != [] {
      var n := |ls| - 1;
      LoopInstsIs(f, ls[..n], m, x);
      PhiInstsIs(ls[n], f.blocks[ls[n]].phis, BodyInst(m, x));
      BodyInstsIs(ls[n], f.blocks[ls[n]].body, m, x);
      assert ls == ls[..n] + [ls[n]];
    }
  }

  // ----- The fixpoint -----

  /** Nothing in insts is missing from s. */
  ghost predicate Scanned(inside: set<Reg>, s: set<Reg>, insts: seq<Inst>) {
    forall i :: 0 <= i < |insts| && insts[i].BodyInst? && Invariant(inside, s, insts[i].x) ==> insts[i].x.dst in s
  }

  lemma ScannedIsClosed(f: Func, ls: seq<Label>, s: set<Reg>)
    requires (forall l :: l in ls ==> l in f.blocks) && Scanned(LoopRegs(f, ls), s, LoopInsts(f, ls))
    ensures Closed(f, ls, s)
  {
    forall x | InBody(f, ls, x) && Invariant(LoopRegs(f, ls), s, x)
      ensures x.dst in s
    {
      var l :| l in ls && x in f.blocks[l].body;
      LoopInstsIs(f, ls, l, x);
      var insts := LoopInsts(f, ls);
      var i :| 0 <= i < |insts| && insts[i] == BodyInst(l, x);
    }
  }

  /** s is contained in every closed set. */
  ghost predicate BelowClosed(f: Func, ls: seq<Label>, s: set<Reg>)
    requires forall l :: l in ls ==> l in f.blocks
  {
    forall t :: Closed(f, ls, t) ==> s <= t
  }

  lemma InsertKeepsBelow(f: Func, ls: seq<Label>, s: set<Reg>, l: Label, x: Instr)
    requires (forall l :: l in ls ==> l in f.blocks) && BelowClosed(f, ls, s)
    requires BodyInst(l, x) in LoopInsts(f, ls) && Invariant(LoopRegs(f, ls), s, x)
    ensures BelowClosed(f, ls, s + {x.dst}) && x.dst in LoopRegs(f, ls)
  {
    LoopInstsIs(f, ls, l, x);
    var j :| 0 <= j < |f.blocks[l].body| && f.blocks[l].body[j] == x;
    RegInLoop(f, ls, l, |f.blocks[l].phis| + j);
    assert InBody(f, ls, x);
    forall t | Closed(f, ls, t)
      ensures s + {x.dst} <= t
    {
      assert Invariant(LoopRegs(f, ls), t, x);
    }
  }

  method AllOperandsInvariant(inside: set<Reg>, s: set<Reg>, args: seq<Operand>) returns (ok: bool)
    ensures ok <==> OperandsInvariant(inside, s, args)
  {
    for k := 0 to |args|
      invariant forall j :: 0 <= j < k ==> OperandInvariant(inside, s, args[j])
    {
      var v := args[k];
      // Constants, globals and arguments are invariant.
      if v.Ref? {
        if v.r !in inside {
          // Defined outside the loop.
          continue;
        }
        if v.r !in s {
          return false;
        }
      }
    }
    return true;
  }

  /** One scan of all instructions. */
  method ScanOnce(f: Func, ls: seq<Label>, inside: set<Reg>, insts: seq<Inst>, s0: set<Reg>) returns (s: set<Reg>, change: bool)
    requires (forall l :: l in ls ==> l in f.blocks) && inside == LoopRegs(f, ls) && insts == LoopInsts(f, ls)
    requires s0 <= inside && BelowClosed(f, ls, s0)
    ensures s0 <= s <= inside && BelowClosed(f, ls, s)
    ensures if change then s0 < s else s == s0 && Scanned(inside, s, insts)
  {
    s, change := s0, false;
    for i := 0 to |insts|
      invariant s0 <= s <= inside && BelowClosed(f, ls, s)
      invariant if change then s0 < s else s == s0 && Scanned(inside, s, insts[..i])
    {
      // PHIs and terminators are skipped, and so is whatever touches memory or is a call.
      if !insts[i].BodyInst? {
        continue;
      }
      var x := insts[i].x;
      if x.dst in s || !RegisterOnly(x.op) {
        continue;
      }
      var all := AllOperandsInvariant(inside, s, x.args);
      if all {
        InsertKeepsBelow(f, ls, s, insts[i].l, x);
        s := s + {x.dst};
        change := true;
      }
    }
    assert insts[..|insts|] == insts;
  }

  /** The instructions are scanned until nothing is added; the result is the least set closed under
      the rule. */
  method FindInvariants(f: Func, ls: seq<Label>) returns (s: set<Reg>)
    requires forall l :: l in ls ==> l in f.blocks
    ensures InvariantSet(f, ls, s)
  {
    var inside, insts := LoopRegs(f, ls), LoopInsts(f, ls);
    s := {};
    var change := true;
    while change
      invariant s <= inside && BelowClosed(f, ls, s)
      invariant !change ==> Scanned(inside, s, insts)
      decreases inside - s, change
    {
      s, change := ScanOnce(f, ls, inside, insts, s);
    }
    ScannedIsClosed(f, ls, s);
  }

  /** The loop's instructions, block after block. */
  method CollectInsts(ir: FunctionIR, ls: seq<Label>) returns (insts: seq<Inst>)
    requires forall l :: l in ls ==> l in ir.blocks
    ensures insts == LoopInsts(ir.Value(), ls)
  {
    insts := [];
    for i := 0 to |ls|
      invariant insts == LoopInsts(ir.Value(), ls[..i])
    {
      insts := insts + BlockInsts(ls[i], ir.blocks[ls[i]]);
      assert ls[..i + 1][..i] == ls[..i];
    }
    assert ls[..|ls|] == ls;
  }

  // ----- Hoisting -----

  /** What is given of the dominator tree. */
  ghost predicate ExitsGiven(f: Func, dt: DomTree) { WellFormed(f) && DomTreeOk(f, dt) }

  lemma ExitsAgree(f: Func, ls: seq<Label>, dt: DomTree, l: Label)
    requires forall l :: l in ls ==> l in f.blocks
    ensures ExitsGiven(f, dt) && l in ls ==> (DominatesExits(f, ls, dt, l) <==> DominatesEveryExit(f, ls, l))
  {
    if ExitsGiven(f, dt) && l in ls {
      ExitsAre(f, ls, dt, l);
    }
  }

  method DominatesAllLoopExits(ir: FunctionIR, ls: seq<Label>, dt: DomTree, l: Label) returns (ok: bool)
    requires forall l :: l in ls ==> l in ir.blocks
    ensures ok <==> DominatesExits(ir.Value(), ls, dt, l)
    ensures ExitsGiven(ir.Value(), dt) && l in ls ==> (ok <==> DominatesEveryExit(ir.Value(), ls, l))
  {
    ExitsAgree(ir.Value(), ls, dt, l);
    var exits := ExitBlocks(ir.Value(), ls);
    var pending := exits;
    while pending != {}
      invariant pending <= exits && forall e :: e in exits && e !in pending ==> (l, e) in dt
      decreases pending
    {
      var e :| e in pending;
      pending := pending - {e};
      if (l, e) !in dt {
        return false;
      }
    }
    return true;
  }

  function DstSet(hs: seq<Instr>): set<Reg> { set k | 0 <= k < |hs| :: hs[k].dst }

  function MovedBlock(f: Func, ls: seq<Label>, p: Label, hs: seq<Instr>, l: Label): Block
    requires l in f.blocks
  {
    var b := f.blocks[l];
    if l == p then b.(body := b.body + hs)
    else if l in ls then b.(body := Left(b.body, DstSet(hs)))
    else b
  }

  /** The instructions hs have been moved. */
  function Moved(f: Func, ls: seq<Label>, p: Label, hs: seq<Instr>): Func {
    Func(f.order, map l | l in f.blocks :: MovedBlock(f, ls, p, hs, l))
  }

  lemma {:induction false} LeftTwice(body: seq<Instr>, d: set<Reg>, e: set<Reg>)
    ensures Left(Left(body, d), e) == Left(body, d + e)
  {
    if body != [] {
      LeftTwice(body[1..], d, e);
      if body[0].dst !in d {
        assert Left(body, d)[0] == body[0] && Left(body, d)[1..] == Left(body[1..], d);
      } else {
        assert Left(body, d) == Left(body[1..], d);
      }
    }
  }

  /** Registers that a body does not write make no difference. */
  lemma {:induction false} LeftSame(body: seq<Instr>, d: set<Reg>, e: set<Reg>)
    requires forall i :: 0 <= i < |body| ==> (body[i].dst in d <==> body[i].dst in e)
    ensures Left(body, d) == Left(body, e)
  {
    if body != [] {
      LeftSame(body[1..], d, e);
    }
  }

  lemma DstSetGrows(hs: seq<Instr>, x: Instr)
    ensures DstSet(hs + [x]) == DstSet(hs) + {x.dst}
  {
    var s := hs + [x];
    assert s[|hs|] == x && forall k :: 0 <= k < |hs| ==> s[k] == hs[k];
    forall r | r in DstSet(hs) + {x.dst}
      ensures r in DstSet(s)
    {
      if r in DstSet(hs) {
        var k :| 0 <= k < |hs| && hs[k].dst == r;
        assert s[k].dst == r;
      }
    }
  }

  lemma MovedStarts(f: Func, ls: seq<Label>, p: Label)
    ensures Moved(f, ls, p, []) == f
  {
    forall l | l in f.blocks
      ensures MovedBlock(f, ls, p, [], l) == f.blocks[l]
    {
      assert DstSet([]) == {};
      LeftAll(f.blocks[l].body);
      assert f.blocks[l].body + [] == f.blocks[l].body;
    }
    assert Moved(f, ls, p, []).blocks == f.blocks;
  }

  /** Only block l holds instruction x. */
  lemma MovedElsewhere(f: Func, ls: seq<Label>, p: Label, hs: seq<Instr>, l: Label, x: Instr, m: Label)
    requires UniqueDefs(f) && l in f.blocks && x in f.blocks[l].body && m in f.blocks && m != l && m != p
    ensures MovedBlock(f, ls, p, hs + [x], m) == MovedBlock(f, ls, p, hs, m)
  {
    var b := f.blocks[m];
    DstSetGrows(hs, x);
    var i :| 0 <= i < |f.blocks[l].body| && f.blocks[l].body[i] == x;
    forall j | 0 <= j < |b.body|
      ensures b.body[j].dst in DstSet(hs + [x]) <==> b.body[j].dst in DstSet(hs)
    {
      if b.body[j].dst == x.dst {
        OneDef(f, m, |b.phis| + j, l, |f.blocks[l].phis| + i);
      }
    }
    LeftSame(b.body, DstSet(hs + [x]), DstSet(hs));
  }

  lemma MovedHere(f: Func, ls: seq<Label>, p: Label, hs: seq<Instr>, l: Label, x: Instr)
    requires l in f.blocks && l in ls && p !in ls
    ensures MovedBlock(f, ls, p, hs + [x], l) == var b := MovedBlock(f, ls, p, hs, l); b.(body := Left(b.body, {x.dst}))
  {
    DstSetGrows(hs, x);
    LeftTwice(f.blocks[l].body, DstSet(hs), {x.dst});
  }

  lemma MovedNext(f: Func, ls: seq<Label>, p: Label, hs: seq<Instr>, l: Label, x: Instr)
    requires UniqueDefs(f) && l in f.blocks && l in ls && x in f.blocks[l].body && p in f.blocks && p !in ls
    ensures var bs := Moved(f, ls, p, hs).blocks;
      Moved(f, ls, p, hs + [x]).blocks ==
        bs[l := bs[l].(body := Left(bs[l].body, {x.dst}))][p := bs[p].(body := bs[p].body + [x])]
  {
    MovedHere(f, ls, p, hs, l, x);
    assert f.blocks[p].body + (hs + [x]) == f.blocks[p].body + hs + [x];
    forall m | m in f.blocks && m != l && m != p
      ensures MovedBlock(f, ls, p, hs + [x], m) == MovedBlock(f, ls, p, hs, m)
    {
      MovedElsewhere(f, ls, p, hs, l, x, m);
    }
  }

  lemma MovedExits(f: Func, ls: seq<Label>, p: Label, hs: seq<Instr>)
    requires forall l :: l in ls ==> l in f.blocks
    ensures ExitBlocks(Moved(f, ls, p, hs), ls) == ExitBlocks(f, ls)
  {
  }

  /** The test of the hoisting loop picks the instructions in the hoisted set. */
  lemma TestIsHoisted(f: Func, ls: seq<Label>, dt: DomTree, s: set<Reg>, l: Label, x: Instr)
    requires (forall l :: l in ls ==> l in f.blocks) && UniqueDefs(f) && l in ls && x in f.blocks[l].body
    ensures x.dst in Hoisted(f, ls, dt, s) <==> x.dst in s && x.op.safe && DominatesExits(f, ls, dt, l)
  {
    var i :| 0 <= i < |f.blocks[l].body| && f.blocks[l].body[i] == x;
    if x.dst in Hoisted(f, ls, dt, s) {
      var m, j :| m in ls && 0 <= j < |f.blocks[m].body| && f.blocks[m].body[j].dst in s
        && f.blocks[m].body[j].op.safe && DominatesExits(f, ls, dt, m) && f.blocks[m].body[j].dst == x.dst;
      OneDef(f, l, |f.blocks[l].phis| + i, m, |f.blocks[m].phis| + j);
    }
  }

  lemma MovedAll(f: Func, ls: seq<Label>, p: Label, h: set<Reg>)
    requires forall l :: l in ls ==> l in f.blocks
    ensures Moved(f, ls, p, Picked(f, ls, h)) == Hoist(f, ls, p, h)
  {
    var hs := Picked(f, ls, h);
    forall l | l in f.blocks
      ensures MovedBlock(f, ls, p, hs, l) == HoistBlock(f, ls, p, h, l)
    {
      if l != p && l in ls {
        forall i | 0 <= i < |f.blocks[l].body|
          ensures f.blocks[l].body[i].dst in DstSet(hs) <==> f.blocks[l].body[i].dst in h
        {
          var x := f.blocks[l].body[i];
          assert InBody(f, ls, x);
          PickedIs(f, ls, h, x);
          if x.dst in DstSet(hs) {
            var k :| 0 <= k < |hs| && hs[k].dst == x.dst;
            PickedIs(f, ls, h, hs[k]);
          }
        }
        LeftSame(f.blocks[l].body, DstSet(hs), h);
      }
    }
    assert Moved(f, ls, p, hs).blocks == Hoist(f, ls, p, h).blocks;
  }

  /** x moves from block l to the end of block p. */
  method MoveBeforeTerminator(ir: FunctionIR, l: Label, x: Instr, p: Label)
    requires l in ir.blocks && p in ir.blocks && l != p
    modifies ir`blocks
    ensures var b, q := old(ir.blocks)[l], old(ir.blocks)[p];
      ir.blocks == old(ir.blocks)[l := b.(body := Left(b.body, {x.dst}))][p := q.(body := q.body + [x])]
  {
    ir.blocks := ir.blocks[l := ir.blocks[l].(body := Left(ir.blocks[l].body, {x.dst}))];
    ir.blocks := ir.blocks[p := ir.blocks[p].(body := ir.blocks[p].body + [x])];
  }

  /** Decides for one instruction, and moves it. */
  method HoistOne(ir: FunctionIR, ls: seq<Label>, p: Label, dt: DomTree, s: set<Reg>, i: Inst, ghost f: Func, ghost hs: seq<Instr>)
    requires (forall l :: l in ls ==> l in f.blocks) && UniqueDefs(f) && p in f.blocks && p !in ls
    requires ir.Value() == Moved(f, ls, p, hs) && i in LoopInsts(f, ls)
    modifies ir`blocks
    ensures ir.Value() == Moved(f, ls, p, hs + if i.BodyInst? && i.x.dst in Hoisted(f, ls, dt, s) then [i.x] else [])
  {
    assert hs + [] == hs;
    if !i.BodyInst? || i.x.dst !in s {
      if i.BodyInst? {
        LoopInstsIs(f, ls, i.l, i.x);
        TestIsHoisted(f, ls, dt, s, i.l, i.x);
      }
      return;
    }
    LoopInstsIs(f, ls, i.l, i.x);
    TestIsHoisted(f, ls, dt, s, i.l, i.x);
    MovedExits(f, ls, p, hs);
    var dominates := DominatesAllLoopExits(ir, ls, dt, i.l);
    if i.x.op.safe && dominates {
      MovedNext(f, ls, p, hs, i.l, i.x);
      MoveBeforeTerminator(ir, i.l, i.x, p);
    }
  }

  /** When all instructions have been looked at. */
  lemma RunEnds(f: Func, ls: seq<Label>, p: Label, dt: DomTree, s: set<Reg>, h: set<Reg>, insts: seq<Inst>)
    requires (forall l :: l in ls ==> l in f.blocks) && p in f.blocks && p !in ls && InvariantSet(f, ls, s)
    requires h == Hoisted(f, ls, dt, s) && insts == LoopInsts(f, ls)
    ensures Moved(f, ls, p, TakenInsts(insts, h)) == Hoist(f, ls, p, h)
    ensures WellFormed(f) && DomTreeOk(f, dt) ==> Placed(f, Hoist(f, ls, p, h), ls, p)
  {
    TakenLoop(f, ls, h);
    MovedAll(f, ls, p, h);
    if WellFormed(f) && DomTreeOk(f, dt) {
      HoistPlaces(f, ls, p, dt, s);
    }
  }

  /** SimpleLICM::run on one loop.  Without a preheader the function stays as it is. */
  method Run(ir: FunctionIR, ls: seq<Label>, preheader: Option<Label>, dt: DomTree) returns (s: set<Reg>)
    requires (forall l :: l in ls ==> l in ir.blocks) && UniqueDefs(ir.Value())
    requires preheader.Some? ==> preheader.value in ir.blocks && preheader.value !in ls
    modifies ir`blocks
    ensures preheader.None? ==> ir.Value() == old(ir.Value())
    ensures preheader.Some? ==>
      InvariantSet(old(ir.Value()), ls, s)
      && ir.Value() == Hoist(old(ir.Value()), ls, preheader.value, Hoisted(old(ir.Value()), ls, dt, s))
    ensures preheader.Some? && WellFormed(old(ir.Value())) && DomTreeOk(old(ir.Value()), dt) ==>
      Placed(old(ir.Value()), ir.Value(), ls, preheader.value)
  {
    s := {};
    if preheader.None? {
      return;
    }
    var p := preheader.value;
    ghost var f := ir.Value();
    var insts := CollectInsts(ir, ls);
    s := FindInvariants(ir.Value(), ls);
    ghost var h := Hoisted(f, ls, dt, s);
    MovedStarts(f, ls, p);
    for j := 0 to |insts|
      invariant ir.Value() == Moved(f, ls, p, TakenInsts(insts[..j], h))
    {
      HoistOne(ir, ls, p, dt, s, insts[j], f, TakenInsts(insts[..j], h));
      assert insts[..j + 1][..j] == insts[..j];
    }
    assert insts[..|insts|] == insts;
    RunEnds(f, ls, p, dt, s, h, insts);
  }
}
