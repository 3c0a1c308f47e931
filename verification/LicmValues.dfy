/** Loop invariants have one value for each activation of the loop. */
module LicmValues {
  import opened IR
  import opened Semantics
  import opened Paths
  import opened StrictSsa
  import opened LicmSpec
  import opened LicmSound
  import opened LicmPaths
  import opened LicmRuns
  import opened LicmOrder

  /** The instructions of hs whose registers are in k have their current values, and read, of the
      loop's registers `inside`, only those in k. */
  ghost predicate Settled(w: World, inside: set<Reg>, hs: seq<Instr>, k: set<Reg>, e: Env) {
    forall x :: x in hs && x.dst in k && Makes(x) ==> Get(e, x.dst) == PureVal(w, x, e) && OperandsInvariant(inside, k, x.args)
  }

  /** e and e2 agree on what the loop does not write and on k. */
  ghost predicate Unchanged(inside: set<Reg>, k: set<Reg>, e: Env, e2: Env) {
    forall r: Reg :: r in k || r !in inside ==> Get(e, r) == Get(e2, r)
  }

  lemma PureKept(w: World, inside: set<Reg>, k: set<Reg>, x: Instr, e: Env, e2: Env)
    requires Unchanged(inside, k, e, e2) && OperandsInvariant(inside, k, x.args)
    ensures PureVal(w, x, e2) == PureVal(w, x, e)
  {
    forall i | 0 <= i < |x.args|
      ensures Vals(w, x.args, e2)[i] == Vals(w, x.args, e)[i]
    {
      assert OperandInvariant(inside, k, x.args[i]);
    }
    assert Vals(w, x.args, e2) == Vals(w, x.args, e);
  }

  lemma SettledKept(w: World, inside: set<Reg>, hs: seq<Instr>, k: set<Reg>, e: Env, e2: Env)
    requires Settled(w, inside, hs, k, e) && Unchanged(inside, k, e, e2)
    ensures Settled(w, inside, hs, k, e2)
  {
    forall x | x in hs && x.dst in k && Makes(x)
      ensures Get(e2, x.dst) == PureVal(w, x, e2)
    {
      PureKept(w, inside, k, x, e, e2);
    }
  }

  /** hs are the instructions of the loop whose registers are in s, and x is one of the loop's. */
  ghost predicate InstrFits(inside: set<Reg>, s: set<Reg>, hs: seq<Instr>, x: Instr) {
    && x.dst in inside
    && (x.dst in s ==> x in hs && Invariant(inside, s, x))
    && (forall y :: y in hs && y.dst == x.dst ==> y == x)
  }

  function Known(s: set<Reg>, k: set<Reg>, x: Instr): set<Reg> {
    if Makes(x) && x.dst in s then k + {x.dst} else k
  }

  lemma InstrSettles(w: World, inside: set<Reg>, s: set<Reg>, hs: seq<Instr>, k: set<Reg>, x: Instr, e: Env, mem: Mem)
    requires Honest(w) && InstrFits(inside, s, hs, x) && Settled(w, inside, hs, k, e) && k <= s
    requires (x.op.dbg || Avoids(s - k, x.args)) && ExecInstr(w, x, e, mem).Ran?
    ensures var e2 := ExecInstr(w, x, e, mem).env;
      Settled(w, inside, hs, Known(s, k, x), e2) && Unchanged(inside, k, e, e2)
  {
    var e2 := ExecInstr(w, x, e, mem).env;
    if Makes(x) && x.dst in s {
      forall i | 0 <= i < |x.args|
        ensures OperandInvariant(inside, k, x.args[i])
      {
        assert OperandInvariant(inside, s, x.args[i]);
      }
      assert Get(e2, x.dst) == PureVal(w, x, e);
      assert Unchanged(inside, k, e, e2);
      PureKept(w, inside, k, x, e, e2);
      SettledKept(w, inside, hs, k, e, e2);
      forall y | y in hs && y.dst in k + {x.dst} && Makes(y)
        ensures Get(e2, y.dst) == PureVal(w, y, e2) && OperandsInvariant(inside, k + {x.dst}, y.args)
      {
      }
    } else {
      SettledKept(w, inside, hs, k, e, e2);
    }
  }

  lemma {:induction false} BodySettles(w: World, inside: set<Reg>, s: set<Reg>, hs: seq<Instr>, k: set<Reg>, body: seq<Instr>, e: Env, mem: Mem)
    requires Honest(w) && (forall x :: x in body ==> InstrFits(inside, s, hs, x)) && Settled(w, inside, hs, k, e) && k <= s
    requires ReadsFresh(s - k, body) && ExecBody(w, body, e, mem).Ran?
    ensures var e2 := ExecBody(w, body, e, mem).env;
      Settled(w, inside, hs, k + s * Made(body), e2) && Unchanged(inside, k, e, e2)
    decreases body
  {
    if body == [] {
      assert k + s * Made(body) == k;
    } else {
      var x, k' := body[0], Known(s, k, body[0]);
      ReadsFreshRest(s - k, body);
      InstrSettles(w, inside, s, hs, k, x, e, mem);
      var a := ExecInstr(w, x, e, mem);
      assert s - k - (if Makes(x) then {x.dst} else {}) == s - k';
      BodySettles(w, inside, s, hs, k', body[1..], a.env, a.mem);
      MadeRest(s, body);
      assert k' + s * Made(body[1..]) == k + s * Made(body);
    }
  }

  lemma {:induction false} PhisUnchanged(w: World, inside: set<Reg>, k: set<Reg>, phis: seq<Phi>, prev: Label, src: Env, acc: Env)
    requires forall i :: 0 <= i < |phis| ==> phis[i].dst in inside && phis[i].dst !in k
    ensures Unchanged(inside, k, acc, EvalPhis(w, phis, prev, src, acc))
  {
    if phis != [] {
      PhisUnchanged(w, inside, k, phis[1..], prev, src, acc[phis[0].dst := Val(w, Incoming(phis[0].incoming, prev), src)]);
    }
  }

  // ----- Runs -----

  ghost predicate ValueBase(f: Func, loop: Loop, p: Label, s: set<Reg>) {
    WellFormed(f) && Ssa(f) && LoopOk(f, loop, p) && InvariantSet(f, loop.blocks, s)
  }

  lemma MembersAtHome(f: Func, ls: seq<Label>, s: set<Reg>)
    requires (forall l :: l in ls ==> l in f.blocks) && InvariantSet(f, ls, s)
    ensures HomesInLoop(f, ls, s)
  {
    MembersHaveReasons(f, ls, s);
    forall r | r in s
      ensures exists x :: InBody(f, ls, x) && x.dst == r
    {
      assert HasReason(f, ls, s, r);
    }
  }

  lemma LoopInstrFits(f: Func, ls: seq<Label>, s: set<Reg>, x: Instr)
    requires (forall l :: l in ls ==> l in f.blocks) && UniqueDefs(f) && InvariantSet(f, ls, s) && InBody(f, ls, x)
    ensures InstrFits(LoopRegs(f, ls), s, Picked(f, ls, s), x)
  {
    BodyReg(f, ls, x);
    if x.dst in s {
      PickedIs(f, ls, s, x);
      InvariantOf(f, ls, s, x);
    }
    forall y | y in Picked(f, ls, s) && y.dst == x.dst
      ensures y == x
    {
      PickedIs(f, ls, s, y);
      OneInstrPerReg(f, ls, y, x);
    }
  }

  lemma BlockInstrsFit(f: Func, ls: seq<Label>, s: set<Reg>, l: Label)
    requires (forall l :: l in ls ==> l in f.blocks) && UniqueDefs(f) && InvariantSet(f, ls, s) && l in ls
    ensures forall x :: x in f.blocks[l].body ==> InstrFits(LoopRegs(f, ls), s, Picked(f, ls, s), x)
    ensures forall i :: 0 <= i < |f.blocks[l].phis| ==> f.blocks[l].phis[i].dst in LoopRegs(f, ls) && f.blocks[l].phis[i].dst !in s
  {
    MembersAtHome(f, ls, s);
    forall x | x in f.blocks[l].body
      ensures InstrFits(LoopRegs(f, ls), s, Picked(f, ls, s), x)
    {
      assert InBody(f, ls, x);
      LoopInstrFits(f, ls, s, x);
    }
    forall i | 0 <= i < |f.blocks[l].phis|
      ensures f.blocks[l].phis[i].dst in LoopRegs(f, ls) && f.blocks[l].phis[i].dst !in s
    {
      RegInLoop(f, ls, l, i);
      NotPhi(f, ls, s, l, i);
    }
  }

  lemma EnterSettles(w: World, inside: set<Reg>, s: set<Reg>, hs: seq<Instr>, k: set<Reg>, b: Block, prev: Label, e: Env, mem: Mem)
    requires Honest(w) && (forall x :: x in b.body ==> InstrFits(inside, s, hs, x)) && Settled(w, inside, hs, k, e) && k <= s
    requires forall i :: 0 <= i < |b.phis| ==> b.phis[i].dst in inside && b.phis[i].dst !in s
    requires ReadsFresh(s - k, b.body) && EnterBlock(w, b, prev, e, mem).Ran?
    ensures var e2 := EnterBlock(w, b, prev, e, mem).env;
      Settled(w, inside, hs, k + s * Made(b.body), e2) && Unchanged(inside, k, e, e2)
  {
    var e1 := EvalPhis(w, b.phis, prev, e, e);
    PhisUnchanged(w, inside, k, b.phis, prev, e, e);
    SettledKept(w, inside, hs, k, e, e1);
    BodySettles(w, inside, s, hs, k, b.body, e1, mem);
  }

  lemma StepEnters(w: World, f: Func, c: Config)
    requires c.At? && c.cur in f.blocks && Step(w, f, c).At?
    ensures EnterBlock(w, f.blocks[c.cur], c.prev, c.env, c.mem).Ran?
    ensures Step(w, f, c).env == EnterBlock(w, f.blocks[c.cur], c.prev, c.env, c.mem).env
  {
  }

  lemma FreshStep(f: Func, p: Label, s: set<Reg>, q: seq<Label>, l: Label)
    requires l in f.blocks && l != p
    ensures Fresh(f, p, s, q + [l]) == Fresh(f, p, s, q) + s * Made(f.blocks[l].body)
  {
    assert (q + [l])[..|q + [l]| - 1] == q;
  }

  /** e2 has e's values for the registers in k, all of which are in k2. */
  ghost predicate Carried(k: set<Reg>, e: Env, k2: set<Reg>, e2: Env) {
    k <= k2 && forall r: Reg :: r in k ==> Get(e2, r) == Get(e, r)
  }

  lemma CarriedTrans(k: set<Reg>, e: Env, k2: set<Reg>, e2: Env, k3: set<Reg>, e3: Env)
    requires Carried(k, e, k2, e2) && Carried(k2, e2, k3, e3)
    ensures Carried(k, e, k3, e3)
  {
  }

  lemma UnchangedCarries(inside: set<Reg>, k: set<Reg>, e: Env, k2: set<Reg>, e2: Env)
    requires Unchanged(inside, k, e, e2) && k <= k2
    ensures Carried(k, e, k2, e2)
  {
  }

  /** One pass through a loop block: the invariants computed so far keep their values. */
  lemma BlockSettles(w: World, f: Func, loop: Loop, p: Label, s: set<Reg>, q: seq<Label>, c: Config, k: set<Reg>, k2: set<Reg>, e2: Env)
    requires Honest(w) && ValueBase(f, loop, p, s) && c.At? && c.cur in loop.blocks
    requires Arrived(f, q, c.prev, c.cur) && PathInBlocks(f, q)
    requires Settled(w, LoopRegs(f, loop.blocks), Picked(f, loop.blocks, s), k, c.env)
    requires k == Fresh(f, p, s, q) && k2 == Fresh(f, p, s, q + [c.cur])
    requires Step(w, f, c).At? && e2 == Step(w, f, c).env
    ensures Settled(w, LoopRegs(f, loop.blocks), Picked(f, loop.blocks, s), k2, e2) && Carried(k, c.env, k2, e2)
  {
    var ls, l := loop.blocks, c.cur;
    MembersAtHome(f, ls, s);
    assert BodySsa(f, l);
    BlockReads(f, loop, p, s, q, c.prev, l);
    FreshSubset(f, p, s, q);
    BlockInstrsFit(f, ls, s, l);
    StepEnters(w, f, c);
    EnterSettles(w, LoopRegs(f, ls), s, Picked(f, ls, s), k, f.blocks[l], c.prev, c.env, c.mem);
    FreshStep(f, p, s, q, l);
    UnchangedCarries(LoopRegs(f, ls), k, c.env, k2, e2);
  }

  lemma {:induction false} FreshSubset(f: Func, p: Label, s: set<Reg>, q: seq<Label>)
    ensures Fresh(f, p, s, q) <= s
    decreases |q|
  {
    if q != [] {
      FreshSubset(f, p, s, q[..|q| - 1]);
    }
  }

  /** The blocks run in the first n steps. */
  ghost function Executed(w: World, f: Func, n: nat): seq<Label>
    requires f.order != []
  {
    if n == 0 then [] else Visited(w, f, n - 1)
  }

  lemma ExecutedArrives(w: World, f: Func, n: nat)
    requires Shape(f) && (forall l :: l in f.blocks ==> TermOk(f, f.blocks[l].term)) && Run(w, f, n).At?
    ensures Arrived(f, Executed(w, f, n), Run(w, f, n).prev, Run(w, f, n).cur) && PathInBlocks(f, Executed(w, f, n))
    ensures Executed(w, f, n + 1) == Executed(w, f, n) + [Run(w, f, n).cur]
  {
    RunIsPath(w, f, n);
    if n > 0 {
      RunIsPath(w, f, n - 1);
      PathBlocks(f, Visited(w, f, n - 1));
      LeaveTarget(w, f, Run(w, f, n - 1));
    }
  }

  /** The invariants computed since the loop was last entered, after n steps. */
  ghost function KnownAt(w: World, f: Func, p: Label, s: set<Reg>, n: nat): set<Reg>
    requires f.order != []
  {
    Fresh(f, p, s, Executed(w, f, n))
  }

  ghost predicate SettledAt(w: World, f: Func, ls: seq<Label>, s: set<Reg>, k: set<Reg>, c: Config)
    requires (forall l :: l in ls ==> l in f.blocks) && c.At?
  {
    Settled(w, LoopRegs(f, ls), Picked(f, ls, s), k, c.env)
  }

  lemma StepSettles(w: World, f: Func, loop: Loop, p: Label, s: set<Reg>, n: nat, m: nat)
    requires Honest(w) && ValueBase(f, loop, p, s) && Run(w, f, n).At? && Run(w, f, n).cur in loop.blocks
    requires m == n + 1 && Run(w, f, m).At? && SettledAt(w, f, loop.blocks, s, KnownAt(w, f, p, s, n), Run(w, f, n))
    ensures SettledAt(w, f, loop.blocks, s, KnownAt(w, f, p, s, m), Run(w, f, m))
    ensures Carried(KnownAt(w, f, p, s, n), Run(w, f, n).env, KnownAt(w, f, p, s, m), Run(w, f, m).env)
  {
    ExecutedArrives(w, f, n);
    BlockSettles(w, f, loop, p, s, Executed(w, f, n), Run(w, f, n), KnownAt(w, f, p, s, n), KnownAt(w, f, p, s, m), Run(w, f, m).env);
  }

  lemma KnownAfterPreheader(w: World, f: Func, p: Label, s: set<Reg>, n: nat, m: nat)
    requires Shape(f) && (forall l :: l in f.blocks ==> TermOk(f, f.blocks[l].term)) && Run(w, f, n).At? && Run(w, f, n).cur == p
    requires m == n + 1
    ensures KnownAt(w, f, p, s, m) == {}
  {
    ExecutedArrives(w, f, n);
  }

  lemma LeftFrom(w: World, f: Func, m: nat, n: nat)
    requires f.order != [] && n == m + 1 && Run(w, f, n).At?
    ensures Run(w, f, m).At? && f.Edge(Run(w, f, m).cur, Run(w, f, n).cur)
  {
    LeaveTarget(w, f, Run(w, f, m));
  }

  lemma {:induction false} RunSettled(w: World, f: Func, loop: Loop, p: Label, s: set<Reg>, n: nat)
    requires Honest(w) && ValueBase(f, loop, p, s) && Run(w, f, n).At? && Run(w, f, n).cur in loop.blocks
    ensures SettledAt(w, f, loop.blocks, s, KnownAt(w, f, p, s, n), Run(w, f, n))
  {
    if n > 0 {
      var m: nat := n - 1;
      LeftFrom(w, f, m, n);
      if Run(w, f, m).cur in loop.blocks {
        RunSettled(w, f, loop, p, s, m);
        StepSettles(w, f, loop, p, s, m, n);
      } else {
        KnownAfterPreheader(w, f, p, s, m, n);
      }
    }
  }

  /** The run stays in the loop from step a up to, not including, step b. */
  ghost predicate StaysIn(w: World, f: Func, loop: Loop, a: nat, b: nat)
    requires f.order != []
  {
    forall i: nat :: a <= i < b ==> Run(w, f, i).At? && Run(w, f, i).cur in loop.blocks
  }

  /** While the run stays in the loop, an invariant that was computed keeps its value. */
  lemma {:induction false} InvariantsKept(w: World, f: Func, loop: Loop, p: Label, s: set<Reg>, a: nat, b: nat)
    requires Honest(w) && ValueBase(f, loop, p, s) && a <= b && StaysIn(w, f, loop, a, b) && Run(w, f, b).At? && Run(w, f, a).At?
    ensures Carried(KnownAt(w, f, p, s, a), Run(w, f, a).env, KnownAt(w, f, p, s, b), Run(w, f, b).env)
    decreases b
  {
    if a < b {
      var c: nat := b - 1;
      assert Run(w, f, c).At?;
      InvariantsKept(w, f, loop, p, s, a, c);
      RunSettled(w, f, loop, p, s, c);
      StepSettles(w, f, loop, p, s, c, b);
      CarriedTrans(KnownAt(w, f, p, s, a), Run(w, f, a).env, KnownAt(w, f, p, s, c), Run(w, f, c).env, KnownAt(w, f, p, s, b), Run(w, f, b).env);
    }
  }

  lemma JustMade(w: World, f: Func, loop: Loop, p: Label, s: set<Reg>, a: nat, c: nat, x: Instr)
    requires c == a + 1 && WellFormed(f) && LoopOk(f, loop, p) && Run(w, f, a).At? && Run(w, f, a).cur in loop.blocks
    requires x in f.blocks[Run(w, f, a).cur].body && x.dst in s && Makes(x)
    ensures x.dst in KnownAt(w, f, p, s, c)
  {
    var l := Run(w, f, a).cur;
    ExecutedArrives(w, f, a);
    var i :| 0 <= i < |f.blocks[l].body| && f.blocks[l].body[i] == x;
    assert x.dst in Made(f.blocks[l].body);
  }

  lemma KeptBetween(w: World, f: Func, loop: Loop, p: Label, s: set<Reg>, a: nat, b: nat, r: Reg)
    requires Honest(w) && ValueBase(f, loop, p, s) && a <= b && StaysIn(w, f, loop, a, b) && Run(w, f, b).At? && Run(w, f, a).At?
    requires r in KnownAt(w, f, p, s, a)
    ensures Get(Run(w, f, b).env, r) == Get(Run(w, f, a).env, r)
  {
    InvariantsKept(w, f, loop, p, s, a, b);
  }

  lemma StaysLater(w: World, f: Func, loop: Loop, a: nat, c: nat, d: nat)
    requires f.order != [] && StaysIn(w, f, loop, a, d) && a <= c < d
    ensures StaysIn(w, f, loop, c, d) && Run(w, f, c).At?
  {
  }

  /** Every member of the invariant set computes the same value each time it runs before the run
      leaves the loop: here in step c, from the state after a steps, and in step d, after b. */
  lemma SameValueEachTime(w: World, f: Func, loop: Loop, p: Label, s: set<Reg>, a: nat, c: nat, b: nat, d: nat, x: Instr)
    requires Honest(w) && ValueBase(f, loop, p, s) && c == a + 1 && d == b + 1 && a < b
    requires StaysIn(w, f, loop, a, d) && Run(w, f, d).At? && Run(w, f, a).cur == Run(w, f, b).cur
    requires x in f.blocks[Run(w, f, a).cur].body && x.dst in s && Makes(x)
    ensures Run(w, f, c).At? && Get(Run(w, f, d).env, x.dst) == Get(Run(w, f, c).env, x.dst)
  {
    StaysLater(w, f, loop, a, c, d);
    JustMade(w, f, loop, p, s, a, c, x);
    KeptBetween(w, f, loop, p, s, c, d, x.dst);
  }
}
