/** The expansions compute what the original instructions computed. */
module MbaSound {
  import opened IR
  import opened Semantics
  import opened Renaming
  import opened ModMath
  import opened Bits
  import opened MbaSpec

  predicate IsBinary(code: Opcode) { code == Add || code == Sub || code == Mul || code == Xor || code == And }

  function Binary(code: Opcode, k: nat, x: int, y: int): int {
    if code == Add then Norm(x + y, k)
    else if code == Sub then Norm(x - y, k)
    else if code == Mul then Norm(x * y, k)
    else if code == Xor then XorBits(x, y, k)
    else AndBits(x, y, k)
  }

  type BinaryOps = (Opcode, nat, int, int) -> int

  /** Two-operand integer operations compute `bin`. */
  ghost predicate Interprets(w: World, bin: BinaryOps) {
    forall o: Op, x: int, y: int, m: Mem :: o.ty.IntTy? && !o.dbg && IsBinary(o.code) ==>
      w.eval(o, [x, y], m) == Ok(bin(o.code, o.ty.width, x, y), m)
  }

  /** Integer operations are what they should be. */
  ghost predicate Arithmetic(w: World) { Interprets(w, Binary) }

  predicate IsBinaryInstr(x: Instr) { |x.args| == 2 && x.op.ty.IntTy? && !x.op.dbg && IsBinary(x.op.code) }

  /** The registers after a two-operand instruction. */
  function After(w: World, bin: BinaryOps, x: Instr, e: Env): Env
    requires IsBinaryInstr(x)
  {
    e[x.dst := bin(x.op.code, x.op.ty.width, Val(w, x.args[0], e), Val(w, x.args[1], e))]
  }

  lemma RunOne(w: World, bin: BinaryOps, x: Instr, rest: seq<Instr>, e: Env, mem: Mem)
    requires Interprets(w, bin) && IsBinaryInstr(x)
    ensures ExecBody(w, [x] + rest, e, mem) == ExecBody(w, rest, After(w, bin, x, e), mem)
  {
    assert Vals(w, x.args, e) == [Val(w, x.args[0], e), Val(w, x.args[1], e)];
    assert ([x] + rest)[1..] == rest;
  }

  lemma RunThree(w: World, bin: BinaryOps, x: Instr, y: Instr, z: Instr, e: Env, mem: Mem)
    requires Interprets(w, bin) && IsBinaryInstr(x) && IsBinaryInstr(y) && IsBinaryInstr(z)
    ensures ExecBody(w, [x, y, z], e, mem) == Ran(After(w, bin, z, After(w, bin, y, After(w, bin, x, e))), mem)
  {
    RunOne(w, bin, x, [y, z], e, mem);
    RunOne(w, bin, y, [z], After(w, bin, x, e), mem);
    RunOne(w, bin, z, [], After(w, bin, y, After(w, bin, x, e)), mem);
    assert [x] + [y, z] == [x, y, z] && [y] + [z] == [y, z] && [z] + [] == [z];
  }

  function AfterFour(w: World, bin: BinaryOps, u: Instr, x: Instr, y: Instr, z: Instr, e: Env): Env
    requires IsBinaryInstr(u) && IsBinaryInstr(x) && IsBinaryInstr(y) && IsBinaryInstr(z)
  {
    After(w, bin, z, After(w, bin, y, After(w, bin, x, After(w, bin, u, e))))
  }

  lemma RunFour(w: World, bin: BinaryOps, u: Instr, x: Instr, y: Instr, z: Instr, e: Env, mem: Mem)
    requires Interprets(w, bin) && IsBinaryInstr(u) && IsBinaryInstr(x) && IsBinaryInstr(y) && IsBinaryInstr(z)
    ensures ExecBody(w, [u, x, y, z], e, mem) == Ran(AfterFour(w, bin, u, x, y, z, e), mem)
  {
    RunOne(w, bin, u, [x, y, z], e, mem);
    RunThree(w, bin, x, y, z, After(w, bin, u, e), mem);
    assert [u] + [x, y, z] == [u, x, y, z];
  }

  /** e2 is e with v in d, but for registers from n to k. */
  ghost predicate Leaves(n: nat, k: nat, d: Reg, v: int, e: Env, e2: Env) {
    Get(e2, d) == v && forall r: Reg :: !(n <= r < k) && r != d ==> Get(e2, r) == Get(e, r)
  }

  ghost predicate OperandBelow(x: Operand, n: nat) { x.Ref? ==> x.r < n }

  lemma SubRuns(w: World, bin: BinaryOps, d: Reg, a: Operand, b: Operand, k: nat, n: nat, e: Env, mem: Mem) returns (e2: Env)
    requires Interprets(w, bin) && d < n && OperandBelow(a, n) && OperandBelow(b, n)
    ensures ExecBody(w, SubExpansion(d, a, b, k, n), e, mem) == Ran(e2, mem)
    ensures Leaves(n, n + 2, d, bin(Add, k, bin(Add, k, Val(w, a, e), bin(Xor, k, Val(w, b, e), -1)), 1), e, e2)
  {
    var x, y, z := Instr(n, Arith(Xor, k), [b, Const(-1)]), Instr(n + 1, Arith(Add, k), [a, Ref(n)]), Instr(d, Arith(Add, k), [Ref(n + 1), Const(1)]);
    RunThree(w, bin, x, y, z, e, mem);
    e2 := After(w, bin, z, After(w, bin, y, After(w, bin, x, e)));
  }

  /** The first half of the 8-bit chain leaves the sum in register n + 3. */
  lemma SumLeaves(w: World, bin: BinaryOps, a: Operand, b: Operand, n: nat, e: Env)
    requires OperandBelow(a, n) && OperandBelow(b, n)
    ensures var x, y, s := Val(w, a, e), Val(w, b, e), SumPart(a, b, n);
      Leaves(n, n + 3, n + 3, bin(Add, 8, bin(Xor, 8, x, y), bin(Mul, 8, 2, bin(And, 8, x, y))), e, AfterFour(w, bin, s[0], s[1], s[2], s[3], e))
  {
  }

  lemma SumRuns(w: World, bin: BinaryOps, a: Operand, b: Operand, n: nat, e: Env, mem: Mem) returns (e2: Env)
    requires Interprets(w, bin) && OperandBelow(a, n) && OperandBelow(b, n)
    ensures ExecBody(w, SumPart(a, b, n), e, mem) == Ran(e2, mem)
    ensures var x, y := Val(w, a, e), Val(w, b, e);
      Leaves(n, n + 3, n + 3, bin(Add, 8, bin(Xor, 8, x, y), bin(Mul, 8, 2, bin(And, 8, x, y))), e, e2)
  {
    var s := SumPart(a, b, n);
    e2 := AfterFour(w, bin, s[0], s[1], s[2], s[3], e);
    RunFour(w, bin, s[0], s[1], s[2], s[3], e, mem);
    SumLeaves(w, bin, a, b, n, e);
  }

  /** The second half turns the sum into the result. */
  lemma AffineLeaves(w: World, bin: BinaryOps, d: Reg, n: nat, e: Env)
    requires d < n
    ensures var s := AffinePart(d, n);
      Leaves(n + 4, n + 7, d, bin(Add, 8, 111, bin(Mul, 8, 151, bin(Add, 8, 23, bin(Mul, 8, 39, Get(e, n + 3))))), e,
             AfterFour(w, bin, s[0], s[1], s[2], s[3], e))
  {
  }

  lemma AffineRuns(w: World, bin: BinaryOps, d: Reg, n: nat, e: Env, mem: Mem) returns (e2: Env)
    requires Interprets(w, bin) && d < n
    ensures ExecBody(w, AffinePart(d, n), e, mem) == Ran(e2, mem)
    ensures Leaves(n + 4, n + 7, d, bin(Add, 8, 111, bin(Mul, 8, 151, bin(Add, 8, 23, bin(Mul, 8, 39, Get(e, n + 3))))), e, e2)
  {
    var s := AffinePart(d, n);
    e2 := AfterFour(w, bin, s[0], s[1], s[2], s[3], e);
    RunFour(w, bin, s[0], s[1], s[2], s[3], e, mem);
    AffineLeaves(w, bin, d, n, e);
  }

  lemma ChainRuns(w: World, bin: BinaryOps, d: Reg, a: Operand, b: Operand, n: nat, e: Env, mem: Mem) returns (e2: Env)
    requires Interprets(w, bin) && d < n && OperandBelow(a, n) && OperandBelow(b, n)
    ensures ExecBody(w, AddExpansion(d, a, b, n), e, mem) == Ran(e2, mem)
    ensures var x, y := Val(w, a, e), Val(w, b, e);
      Leaves(n, n + 7, d, bin(Add, 8, 111, bin(Mul, 8, 151, bin(Add, 8, 23, bin(Mul, 8, 39,
        bin(Add, 8, bin(Xor, 8, x, y), bin(Mul, 8, 2, bin(And, 8, x, y))))))), e, e2)
  {
    var e1 := SumRuns(w, bin, a, b, n, e, mem);
    e2 := AffineRuns(w, bin, d, n, e1, mem);
    ExecBodyAppend(w, SumPart(a, b, n), AffinePart(d, n), e, mem);
  }

  lemma SubValue(x: int, y: int, k: nat)
    ensures Binary(Add, k, Binary(Add, k, x, Binary(Xor, k, y, -1)), 1) == Binary(Sub, k, x, y)
  {
    SubIdentity(x, y, k);
  }

  function AffineChain(s: int, w: nat): int { Binary(Add, w, 111, Binary(Mul, w, 151, Binary(Add, w, 23, Binary(Mul, w, 39, s)))) }

  function SumChain(x: int, y: int, w: nat): int { Binary(Add, w, Binary(Xor, w, x, y), Binary(Mul, w, 2, Binary(And, w, x, y))) }

  lemma AffineIs(s: nat, w: nat)
    requires s < 256 && w == 8
    ensures AffineChain(s, w) == s
  {
    Pow2Of8();
    var t := (39 * s) % 256;
    var u := (23 + t) % 256;
    AffineIdentity(s, t, u, (151 * u) % 256);
  }

  lemma SumIs(x: int, y: int, w: nat)
    ensures SumChain(x, y, w) == Binary(Add, w, x, y)
  {
    SumIdentity(x, y, w);
  }

  /** The 8-bit identity behind MBAAdd. */
  lemma AddValue(x: int, y: int, w: nat)
    requires w == 8
    ensures AffineChain(SumChain(x, y, w), w) == Binary(Add, w, x, y)
  {
    SumIs(x, y, w);
    Pow2Of8();
    AffineIs(Binary(Add, w, x, y), w);
  }

  lemma OriginalRuns(w: World, bin: BinaryOps, x: Instr, e: Env, mem: Mem)
    requires Interprets(w, bin) && IsBinaryInstr(x)
    ensures ExecInstr(w, x, e, mem) == Ran(After(w, bin, x, e), mem)
  {
    assert Vals(w, x.args, e) == [Val(w, x.args[0], e), Val(w, x.args[1], e)];
  }

  /** An expansion leaves the value of the instruction it replaces, and touches new registers only. */
  lemma ExpansionRuns(w: World, rule: Rule, x: Instr, n: nat, e: Env, mem: Mem) returns (v: int, e2: Env)
    requires Arithmetic(w) && Matches(rule, x) && x.dst < n && OperandsBelow(x.args, n)
    ensures ExecInstr(w, x, e, mem) == Ran(e[x.dst := v], mem)
    ensures ExecBody(w, Expansion(rule, x, n), e, mem) == Ran(e2, mem) && Leaves(n, n + Inserted(rule), x.dst, v, e, e2)
  {
    var a, b := Val(w, x.args[0], e), Val(w, x.args[1], e);
    OriginalRuns(w, Binary, x, e, mem);
    v := Binary(x.op.code, x.op.ty.width, a, b);
    if rule.AddRule? {
      e2 := ChainRuns(w, Binary, x.dst, x.args[0], x.args[1], n, e, mem);
      AddValue(a, b, 8);
    } else {
      e2 := SubRuns(w, Binary, x.dst, x.args[0], x.args[1], x.op.ty.width, n, e, mem);
      SubValue(a, b, x.op.ty.width);
    }
  }

  // ----- Bodies, blocks, functions -----

  lemma LeavesAgrees(n: nat, k: nat, hidden: set<Reg>, d: Reg, v: int, e: Env, e': Env, e2: Env)
    requires AgreeOff(hidden, e, e') && Leaves(n, k, d, v, e', e2) && d !in hidden && forall r: Reg :: n <= r < k ==> r in hidden
    ensures AgreeOff(hidden, e[d := v], e2)
  {
  }

  lemma BelowAvoids(xs: seq<Operand>, lo: nat, hi: nat)
    requires OperandsBelow(xs, lo)
    ensures Avoids(Range(lo, hi), xs)
  {
  }

  lemma ExpansionAgrees(w: World, rule: Rule, x: Instr, lo: nat, n: nat, hi: nat, e: Env, e': Env, mem: Mem) returns (v: int, e2: Env)
    requires Arithmetic(w) && Matches(rule, x) && x.dst < lo <= n && n + Inserted(rule) <= hi && OperandsBelow(x.args, lo)
    requires AgreeOff(Range(lo, hi), e, e')
    ensures ExecInstr(w, x, e, mem) == Ran(e[x.dst := v], mem)
    ensures ExecBody(w, Expansion(rule, x, n), e', mem) == Ran(e2, mem) && AgreeOff(Range(lo, hi), e[x.dst := v], e2)
  {
    BelowAvoids(x.args, lo, hi);
    ValsAgree(w, Range(lo, hi), x.args, e, e');
    v, e2 := ExpansionRuns(w, rule, x, n, e', mem);
    LeavesAgrees(n, n + Inserted(rule), Range(lo, hi), x.dst, v, e, e', e2);
    SameValue(w, x, e, e', mem, v);
  }

  lemma SameValue(w: World, x: Instr, e: Env, e': Env, mem: Mem, v: int)
    requires Vals(w, x.args, e) == Vals(w, x.args, e') && !x.op.dbg && x.op.ty != Void
    requires ExecInstr(w, x, e', mem) == Ran(e'[x.dst := v], mem)
    ensures ExecInstr(w, x, e, mem) == Ran(e[x.dst := v], mem)
  {
    assert Get(e'[x.dst := v], x.dst) == v;
    var r := w.eval(x.op, Vals(w, x.args, e'), mem);
    assert r.Ok? && Get(e'[x.dst := r.v], x.dst) == r.v;
  }

  lemma PlainAgrees(w: World, x: Instr, lo: nat, hi: nat, e: Env, e': Env, mem: Mem)
    requires x.dst < lo && OperandsBelow(x.args, lo) && AgreeOff(Range(lo, hi), e, e')
    ensures var a, b := ExecInstr(w, x, e, mem), ExecInstr(w, x, e', mem);
      if a.Ran? then b.Ran? && b.mem == a.mem && AgreeOff(Range(lo, hi), a.env, b.env) else b == a
  {
    BelowAvoids(x.args, lo, hi);
    ValsAgree(w, Range(lo, hi), x.args, e, e');
  }

  lemma OneRest(w: World, x: Instr, rest: seq<Instr>, e: Env, mem: Mem)
    ensures ExecBody(w, [x] + rest, e, mem) ==
      if ExecInstr(w, x, e, mem).Ran? then ExecBody(w, rest, ExecInstr(w, x, e, mem).env, ExecInstr(w, x, e, mem).mem)
      else ExecInstr(w, x, e, mem)
  {
    assert ([x] + rest)[1..] == rest;
  }

  /** An expanded body does what the body did; only new registers differ. */
  lemma {:induction false} ExpandRuns(w: World, rule: Rule, body: seq<Instr>, lo: nat, n: nat, hi: nat, e: Env, e': Env, mem: Mem)
    requires Arithmetic(w) && BodyBelow(body, lo) && lo <= n && n + Used(rule, body) <= hi && AgreeOff(Range(lo, hi), e, e')
    ensures var a, b := ExecBody(w, body, e, mem), ExecBody(w, Expand(rule, body, n), e', mem);
      if a.Ran? then b.Ran? && b.mem == a.mem && AgreeOff(Range(lo, hi), a.env, b.env) else b == a
    decreases body
  {
    if body != [] {
      var x, rest := body[0], body[1..];
      assert OperandsBelow(x.args, lo);
      assert [x] + rest == body;
      OneRest(w, x, rest, e, mem);
      if Matches(rule, x) {
        var v, e2 := ExpansionAgrees(w, rule, x, lo, n, hi, e, e', mem);
        ExecBodyAppend(w, Expansion(rule, x, n), Expand(rule, rest, n + Inserted(rule)), e', mem);
        ExpandRuns(w, rule, rest, lo, n + Inserted(rule), hi, e[x.dst := v], e2, mem);
      } else {
        PlainAgrees(w, x, lo, hi, e, e', mem);
        OneRest(w, x, Expand(rule, rest, n), e', mem);
        var a, b := ExecInstr(w, x, e, mem), ExecInstr(w, x, e', mem);
        if a.Ran? {
          ExpandRuns(w, rule, rest, lo, n, hi, a.env, b.env, a.mem);
        }
      }
    }
  }

  lemma PhisAgree(w: World, phis: seq<Phi>, lo: nat, hi: nat, p: Label, e: Env, e': Env)
    requires AgreeOff(Range(lo, hi), e, e') && forall i :: 0 <= i < |phis| ==> IncomingBelow(phis[i].incoming, lo)
    ensures AgreeOff(Range(lo, hi), EvalPhis(w, phis, p, e, e), EvalPhis(w, phis, p, e', e'))
  {
    forall i | 0 <= i < |phis|
      ensures Val(w, Incoming(phis[i].incoming, p), e) == Val(w, Incoming(phis[i].incoming, p), e')
    {
      if Lists(phis[i].incoming, p) {
        var k := IncomingAt(phis[i].incoming, p);
      } else {
        IncomingMissing(phis[i].incoming, p);
      }
    }
    SamePhisRun(w, Range(lo, hi), phis, p, p, e, e', e, e');
  }

  lemma LeavesAgree(w: World, t: Term, lo: nat, hi: nat, cur: Label, e: Env, e': Env, mem: Mem)
    requires OperandsBelow(t.uses, lo) && AgreeOff(Range(lo, hi), e, e')
    ensures Follows(Range(lo, hi), Leave(w, t, cur, e, mem), Leave(w, t, cur, e', mem))
  {
    BelowAvoids(t.uses, lo, hi);
    ValsAgree(w, Range(lo, hi), t.uses, e, e');
  }

  lemma BlockAgrees(w: World, rule: Rule, b: Block, lo: nat, n: nat, hi: nat, prev: Label, cur: Label, e: Env, e': Env, mem: Mem)
    requires Arithmetic(w) && BlockBelow(b, lo) && lo <= n && n + Used(rule, b.body) <= hi && AgreeOff(Range(lo, hi), e, e')
    ensures Follows(Range(lo, hi), StepBlock(w, b, prev, cur, e, mem), StepBlock(w, ExpandBlock(rule, b, n), prev, cur, e', mem))
  {
    PhisAgree(w, b.phis, lo, hi, prev, e, e');
    var e1, e1' := EvalPhis(w, b.phis, prev, e, e), EvalPhis(w, b.phis, prev, e', e');
    ExpandRuns(w, rule, b.body, lo, n, hi, e1, e1', mem);
    var r, r' := ExecBody(w, b.body, e1, mem), ExecBody(w, Expand(rule, b.body, n), e1', mem);
    if r.Ran? {
      LeavesAgree(w, b.term, lo, hi, cur, r.env, r'.env, r.mem);
    }
  }

  /** Every block of the result is an expanded block of the original, with its own new registers. */
  lemma {:induction false} ExpandedBlock(rule: Rule, f: Func, ls: seq<Label>, n: nat, l: Label) returns (k: nat)
    requires (forall l :: l in ls ==> l in f.blocks) && (forall i, j :: 0 <= i < j < |ls| ==> ls[i] != ls[j]) && l in f.blocks
    ensures var t := ExpandBlocks(rule, f, ls, n);
      && n <= t.1
      && (l in ls ==> n <= k && k + Used(rule, f.blocks[l].body) <= t.1 && t.0.blocks[l] == ExpandBlock(rule, f.blocks[l], k))
      && (l !in ls ==> t.0.blocks[l] == f.blocks[l])
    decreases |ls|
  {
    k := n;
    if ls != [] {
      var i := |ls| - 1;
      var m := ls[i];
      k := ExpandedBlock(rule, f, ls[..i], n, l);
      var u := ExpandedBlock(rule, f, ls[..i], n, m);
      assert ls == ls[..i] + [m];
      if l == m {
        k := ExpandBlocks(rule, f, ls[..i], n).1;
      }
    }
  }

  lemma StepAgrees(w: World, rule: Rule, f: Func, n: nat, g: Func, hi: nat, c: Config, c': Config)
    requires Arithmetic(w) && Shape(f) && RegsBelow(f, n) && (g, hi) == ExpandBlocks(rule, f, f.order, n)
    requires Follows(Range(n, hi), c, c')
    ensures Follows(Range(n, hi), Step(w, f, c), Step(w, g, c'))
  {
    if c.At? && c.cur in f.blocks {
      var k := ExpandedBlock(rule, f, f.order, n, c.cur);
      assert BlockBelow(f.blocks[c.cur], n);
      BlockAgrees(w, rule, f.blocks[c.cur], n, k, hi, c.prev, c.cur, c.env, c'.env, c.mem);
    }
  }

  /** One block keeps the two functions in step. */
  ghost predicate StepsFollow(w: World, f: Func, g: Func, hidden: set<Reg>) {
    forall c, c' :: Follows(hidden, c, c') ==> Follows(hidden, Step(w, f, c), Step(w, g, c'))
  }

  lemma {:induction false} RunsFollow(w: World, f: Func, g: Func, hidden: set<Reg>, i: nat)
    requires f.order != [] && g.order != [] && g.order[0] == f.order[0] && StepsFollow(w, f, g, hidden)
    ensures Follows(hidden, Run(w, f, i), Run(w, g, i))
  {
    if i > 0 {
      RunsFollow(w, f, g, hidden, i - 1);
      RunNext(w, f, i - 1, i);
      RunNext(w, g, i - 1, i);
    }
  }

  lemma RunAgrees(w: World, rule: Rule, f: Func, n: nat, i: nat)
    requires Arithmetic(w) && Shape(f) && RegsBelow(f, n)
    ensures var t := ExpandBlocks(rule, f, f.order, n); Follows(Range(n, t.1), Run(w, f, i), Run(w, t.0, i))
  {
    var t := ExpandBlocks(rule, f, f.order, n);
    forall c, c' | Follows(Range(n, t.1), c, c')
      ensures Follows(Range(n, t.1), Step(w, f, c), Step(w, t.0, c'))
    {
      StepAgrees(w, rule, f, n, t.0, t.1, c, c');
    }
    RunsFollow(w, f, t.0, Range(n, t.1), i);
  }

  /** MBAAdd and MBASub preserve every run: the same blocks, the same memory, and the same value in
      every original register. */
  lemma MbaPreserves(w: World, rule: Rule, f: Func, n: nat)
    requires Arithmetic(w) && Shape(f) && RegsBelow(f, n)
    ensures var t := ExpandBlocks(rule, f, f.order, n);
      Lockstep(w, f, t.0) && forall i: nat :: Follows(Range(n, t.1), Run(w, f, i), Run(w, t.0, i))
  {
    var t := ExpandBlocks(rule, f, f.order, n);
    forall i: nat
      ensures Follows(Range(n, t.1), Run(w, f, i), Run(w, t.0, i)) && Look(Run(w, f, i)) == Look(Run(w, t.0, i))
    {
      RunAgrees(w, rule, f, n, i);
    }
  }
}
