/** Cloning one block preserves the meaning of the function, whichever arm the condition takes. */
module DuplicateSound {
  import opened IR
  import opened Semantics
  import opened Renaming
  import opened DuplicateSpec

  // ----- Environments related by a renaming -----

  /** Registers below n read in e as their images under mu read in e'. */
  ghost predicate Sees(n: nat, mu: map<Reg, Reg>, e: Env, e': Env) {
    forall r: nat :: r < n ==> Get(e, r) == Get(e', Image(mu, r))
  }

  lemma SubVals(w: World, n: nat, mu: map<Reg, Reg>, xs: seq<Operand>, e: Env, e': Env)
    requires Sees(n, mu, e, e') && OperandsBelow(xs, n)
    ensures Vals(w, SubOps(mu, xs), e') == Vals(w, xs, e)
  {
    forall i | 0 <= i < |xs|
      ensures Vals(w, SubOps(mu, xs), e')[i] == Vals(w, xs, e)[i]
    {
    }
  }

  /** All images are distinct and registers outside mu are not images: a write to r is seen as a
      write to its image only. */
  ghost predicate Fresh(n: nat, mu: map<Reg, Reg>) {
    && (forall r :: r in mu ==> r < n && mu[r] >= n)
    && (forall r, q :: r in mu && q in mu && mu[r] == mu[q] ==> r == q)
  }

  lemma WriteSeen(n: nat, mu: map<Reg, Reg>, e: Env, e': Env, r: Reg, v: int)
    requires Fresh(n, mu) && Sees(n, mu, e, e') && r < n
    ensures Sees(n, mu, e[r := v], e'[Image(mu, r) := v])
  {
  }

  // ----- A body renamed throughout -----

  lemma {:induction false} SubBodyRuns(w: World, n: nat, mu: map<Reg, Reg>, body: seq<Instr>, e: Env, e': Env, mem: Mem)
    requires Fresh(n, mu) && Sees(n, mu, e, e') && BodyBelow(body, n)
    requires forall i :: 0 <= i < |body| ==> body[i].dst !in mu
    ensures var x, y := ExecBody(w, body, e, mem), ExecBody(w, SubBody(mu, body), e', mem);
      if x.Ran? then y.Ran? && y.mem == x.mem && Sees(n, mu, x.env, y.env) else y == x
  {
    if body != [] {
      SubVals(w, n, mu, body[0].args, e, e');
      var x, y := ExecInstr(w, body[0], e, mem), ExecInstr(w, SubInstr(mu, body[0]), e', mem);
      assert SubBody(mu, body)[1..] == SubBody(mu, body[1..]);
      if x.Ran? {
        if !body[0].op.dbg && body[0].op.ty != Void {
          WriteSeen(n, mu, e, e', body[0].dst, x.env[body[0].dst]);
        }
        SubBodyRuns(w, n, mu, body[1..], x.env, y.env, x.mem);
      }
    }
  }

  lemma {:induction false} RelabelIs(inc: seq<(Label, Operand)>, l: Label, t: Label, p: Label)
    requires forall i :: 0 <= i < |inc| ==> inc[i].0 != t
    ensures p != t && p != l ==> Incoming(Relabel(inc, l, t), p) == Incoming(inc, p)
    ensures Incoming(Relabel(inc, l, t), t) == Incoming(inc, l)
  {
    if inc != [] {
      assert Relabel(inc, l, t)[1..] == Relabel(inc[1..], l, t);
      RelabelIs(inc[1..], l, t, p);
    }
  }

  lemma {:induction false} IncomingIsBelow(inc: seq<(Label, Operand)>, p: Label, n: nat)
    requires IncomingBelow(inc, n)
    ensures Incoming(inc, p).Ref? ==> Incoming(inc, p).r < n
  {
    if inc != [] {
      IncomingIsBelow(inc[1..], p, n);
    }
  }

  /** PHIs that read, each on its side, operands that mu relates. */
  ghost predicate PhisRelate(n: nat, mu: map<Reg, Reg>, phis: seq<Phi>, p: Label, phis': seq<Phi>, p': Label) {
    && |phis| == |phis'|
    && forall i :: 0 <= i < |phis| ==>
      var v := Incoming(phis[i].incoming, p);
      && phis'[i].dst == phis[i].dst < n && phis[i].dst !in mu
      && Incoming(phis'[i].incoming, p') == SubOp(mu, v)
      && (v.Ref? ==> v.r < n)
  }

  lemma {:induction false} PhisRun(w: World, n: nat, mu: map<Reg, Reg>, phis: seq<Phi>, p: Label, phis': seq<Phi>, p': Label,
                                   s: Env, s': Env, e: Env, e': Env)
    requires Fresh(n, mu) && Sees(n, mu, s, s') && Sees(n, mu, e, e') && PhisRelate(n, mu, phis, p, phis', p')
    ensures Sees(n, mu, EvalPhis(w, phis, p, s, e), EvalPhis(w, phis', p', s', e'))
  {
    if phis != [] {
      var v := Val(w, Incoming(phis[0].incoming, p), s);
      assert Val(w, Incoming(phis'[0].incoming, p'), s') == v;
      WriteSeen(n, mu, e, e', phis[0].dst, v);
      PhisRun(w, n, mu, phis[1..], p, phis'[1..], p', s, s', e[phis[0].dst := v], e'[phis[0].dst := v]);
    }
  }

  // ----- One arm -----

  lemma {:induction false} ArmIs(body: seq<Instr>, base: nat, i: nat)
    requires i <= |body| && DistinctDsts(body)
    ensures forall j :: 0 <= j < i && body[j].op.ty != Void ==> body[j].dst in Arm(body, base, i) && Arm(body, base, i)[body[j].dst] == base + 3 * j
    ensures forall r :: r in Arm(body, base, i) ==> exists j :: 0 <= j < i && body[j].op.ty != Void && body[j].dst == r
  {
    if i > 0 {
      ArmIs(body, base, i - 1);
    }
  }

  lemma {:induction false} ArmKey(body: seq<Instr>, base: nat, i: nat, r: Reg) returns (j: nat)
    requires i <= |body| && r in Arm(body, base, i)
    ensures j < i && body[j].op.ty != Void && body[j].dst == r && Arm(body, base, i)[r] == base + 3 * j
  {
    if body[i - 1].op.ty != Void && body[i - 1].dst == r {
      j := i - 1;
    } else {
      j := ArmKey(body, base, i - 1, r);
    }
  }

  lemma ArmInjective(body: seq<Instr>, base: nat, i: nat)
    requires i <= |body|
    ensures var m := Arm(body, base, i); forall r, q :: r in m && q in m && m[r] == m[q] ==> r == q
  {
    var m := Arm(body, base, i);
    forall r, q | r in m && q in m && m[r] == m[q]
      ensures r == q
    {
      var j := ArmKey(body, base, i, r);
      var h := ArmKey(body, base, i, q);
    }
  }

  lemma ArmFresh(body: seq<Instr>, base: nat, i: nat, n: nat)
    requires i <= |body| && BodyBelow(body, n) && base >= n
    ensures Fresh(n, Arm(body, base, i))
    ensures forall r :: r in Arm(body, base, i) ==> base <= Arm(body, base, i)[r] < base + 3 * i && (Arm(body, base, i)[r] - base) % 3 == 0
  {
    var m := Arm(body, base, i);
    forall r | r in m
      ensures r < n && base <= m[r] < base + 3 * i && (m[r] - base) % 3 == 0
    {
      var j := ArmKey(body, base, i, r);
    }
    ArmInjective(body, base, i);
  }

  lemma ArmGrows(body: seq<Instr>, base: nat, i: nat)
    requires i < |body|
    ensures Arm(body, base, i + 1) ==
      if body[i].op.ty == Void then Arm(body, base, i) else Arm(body, base, i)[body[i].dst := base + 3 * i]
  {
  }

  /** In an arm, after i instructions, the values made in the arm are read there and everything else
      under its new name. */
  lemma ArmWrites(n: nat, body: seq<Instr>, base: nat, rho: map<Reg, Reg>, i: nat, e: Env, e': Env, v: int)
    requires i < |body| && DistinctDsts(body) && BodyBelow(body, n) && base >= n && body[i].op.ty != Void
    requires forall r :: r in rho ==> rho[r] >= n && (rho[r] - base) % 3 != 0
    requires Sees(n, rho + Arm(body, base, i), e, e')
    ensures Sees(n, rho + Arm(body, base, i + 1), e[body[i].dst := v], e'[base + 3 * i := v])
  {
    ArmFresh(body, base, i, n);
    ArmGrows(body, base, i);
    var m, m', d := rho + Arm(body, base, i), rho + Arm(body, base, i + 1), body[i].dst;
    forall r: nat | r < n
      ensures Get(e[d := v], r) == Get(e'[base + 3 * i := v], Image(m', r))
    {
      if r != d {
        assert Image(m', r) == Image(m, r) != base + 3 * i;
      }
    }
  }

  lemma {:induction false} ArmBodyAt(body: seq<Instr>, base: nat, rho: map<Reg, Reg>, i: nat, j: nat)
    requires j < i <= |body|
    ensures ArmBody(body, base, rho, i)[j] ==
      Instr(base + 3 * j, body[j].op, SubOps(rho + Arm(body, base, j), body[j].args))
  {
    if j < i - 1 {
      ArmBodyAt(body, base, rho, i - 1, j);
    }
  }

  ghost predicate ArmOk(body: seq<Instr>, n: nat, base: nat, rho: map<Reg, Reg>) {
    && DistinctDsts(body) && BodyBelow(body, n) && base >= n
    && (forall r :: r in rho ==> rho[r] >= n && (rho[r] - base) % 3 != 0)
    && (forall j :: 0 <= j < |body| && body[j].op.dbg ==> body[j].op.ty == Void)
  }

  lemma ArmStep(w: World, n: nat, body: seq<Instr>, base: nat, rho: map<Reg, Reg>, i: nat, e: Env, e': Env, mem: Mem)
    requires i < |body| && ArmOk(body, n, base, rho) && Sees(n, rho + Arm(body, base, i), e, e')
    ensures var x, y := ExecInstr(w, body[i], e, mem), ExecInstr(w, ArmBody(body, base, rho, |body|)[i], e', mem);
      if x.Ran? then y.Ran? && y.mem == x.mem && Sees(n, rho + Arm(body, base, i + 1), x.env, y.env) else y == x
  {
    ArmBodyAt(body, base, rho, |body|, i);
    ArmGrows(body, base, i);
    SubVals(w, n, rho + Arm(body, base, i), body[i].args, e, e');
    var x := ExecInstr(w, body[i], e, mem);
    if x.Ran? && body[i].op.ty != Void {
      ArmWrites(n, body, base, rho, i, e, e', x.env[body[i].dst]);
    }
  }

  lemma {:induction false} ArmRuns(w: World, n: nat, body: seq<Instr>, base: nat, rho: map<Reg, Reg>, i: nat, e: Env, e': Env, mem: Mem)
    requires i <= |body| && ArmOk(body, n, base, rho) && Sees(n, rho + Arm(body, base, i), e, e')
    ensures var x, y := ExecBody(w, body[i..], e, mem), ExecBody(w, ArmBody(body, base, rho, |body|)[i..], e', mem);
      if x.Ran? then y.Ran? && y.mem == x.mem && Sees(n, rho + Arm(body, base, |body|), x.env, y.env) else y == x
    decreases |body| - i
  {
    if i < |body| {
      var b := ArmBody(body, base, rho, |body|);
      ArmStep(w, n, body, base, rho, i, e, e', mem);
      var x, y := ExecInstr(w, body[i], e, mem), ExecInstr(w, b[i], e', mem);
      assert body[i..][1..] == body[i + 1..] && b[i..][1..] == b[i + 1..];
      if x.Ran? {
        ArmRuns(w, n, body, base, rho, i + 1, x.env, y.env, x.mem);
      }
    }
  }

  // ----- The joining PHIs -----

  lemma {:induction false} EvalPhisAppend(w: World, p: seq<Phi>, q: seq<Phi>, prev: Label, src: Env, acc: Env)
    ensures EvalPhis(w, p + q, prev, src, acc) == EvalPhis(w, q, prev, src, EvalPhis(w, p, prev, src, acc))
  {
    if p == [] {
      assert p + q == q;
    } else {
      assert (p + q)[0] == p[0] && (p + q)[1..] == p[1..] + q;
      EvalPhisAppend(w, p[1..], q, prev, src, acc[p[0].dst := Val(w, Incoming(p[0].incoming, prev), src)]);
    }
  }

  ghost predicate Joined(body: seq<Instr>, n: nat, base: nat, i: nat, s: Env, t: Env)
    requires i <= |body|
  {
    && (forall j :: 0 <= j < i && body[j].op.ty != Void ==> Get(t, n + 3 + 3 * j) == Get(s, base + 3 * j))
    && (forall r: nat :: r < n ==> Get(t, r) == Get(s, r))
  }

  lemma OneJoin(w: World, body: seq<Instr>, n: nat, k: nat, c: nat, i: nat, s: Env, t: Env)
    requires 0 < i <= |body| && c < 2 && body[i - 1].op.ty != Void
    requires Joined(body, n, n + 1 + c, i - 1, s, t)
    ensures Joined(body, n, n + 1 + c, i, s, EvalPhis(w, [JoinPhi(body[i - 1].op.ty, n, k, i)], k + c, s, t))
  {
    var phi := JoinPhi(body[i - 1].op.ty, n, k, i);
    assert phi.incoming[1..][0] == (k + 1, Ref(n + 3 * i - 1));
    assert Incoming(phi.incoming, k + c) == Ref(n + 1 + c + 3 * (i - 1));
    assert [phi][1..] == [];
    assert EvalPhis(w, [phi], k + c, s, t) == t[n + 3 * i := Get(s, n + 1 + c + 3 * (i - 1))];
  }

  lemma {:induction false} TailPhisRun(w: World, body: seq<Instr>, n: nat, k: nat, c: nat, i: nat, s: Env)
    requires i <= |body| && c < 2
    ensures Joined(body, n, n + 1 + c, i, s, EvalPhis(w, TailPhis(body, n, k, i), k + c, s, s))
  {
    if i > 0 {
      TailPhisRun(w, body, n, k, c, i - 1, s);
      var p := TailPhis(body, n, k, i - 1);
      if body[i - 1].op.ty != Void {
        EvalPhisAppend(w, p, [JoinPhi(body[i - 1].op.ty, n, k, i)], k + c, s, s);
        OneJoin(w, body, n, k, c, i, s, EvalPhis(w, p, k + c, s, s));
      } else {
        assert TailPhis(body, n, k, i) == p;
      }
    }
  }

  lemma JoinedSees(body: seq<Instr>, n: nat, base: nat, e: Env, s: Env, t: Env)
    requires DistinctDsts(body)
    requires Sees(n, Arm(body, n + 3, |body|) + Arm(body, base, |body|), e, s)
    requires Joined(body, n, base, |body|, s, t)
    ensures Sees(n, Arm(body, n + 3, |body|), e, t)
  {
    var rho, arm := Arm(body, n + 3, |body|), Arm(body, base, |body|);
    forall r: nat | r < n
      ensures Get(e, r) == Get(t, Image(rho, r))
    {
      if r in rho {
        JoinedAt(body, n, base, s, t, r);
      } else {
        if r in arm {
          var _ := ArmKey(body, base, |body|, r);
          ArmIs(body, n + 3, |body|);
        }
        assert Image(rho + arm, r) == r;
      }
    }
  }

  lemma JoinedAt(body: seq<Instr>, n: nat, base: nat, s: Env, t: Env, r: Reg)
    requires DistinctDsts(body) && r in Arm(body, n + 3, |body|) && Joined(body, n, base, |body|, s, t)
    ensures r in Arm(body, base, |body|)
    ensures Get(t, Arm(body, n + 3, |body|)[r]) == Get(s, Arm(body, base, |body|)[r])
  {
    var j := ArmKey(body, n + 3, |body|, r);
    ArmIs(body, base, |body|);
  }

  // ----- The whole function -----

  /** What cloning block l needs: n and k above every register and label, one definition per register,
      an entry without PHIs, debug intrinsics without values and without value operands. */
  ghost predicate Ready(f: Func, n: nat, k: nat) {
    && Shape(f) && UniqueDefs(f)
    && f.blocks[f.order[0]].phis == []
    && LabelsBelow(f, k)
    && (forall m {:trigger BlockReady(f, f.blocks[m], n)} :: m in f.blocks ==> BlockReady(f, f.blocks[m], n))
  }

  ghost predicate BlockReady(f: Func, b: Block, n: nat) {
    && (forall t :: t in b.term.targets ==> t in f.blocks)
    && BodyBelow(b.body, n) && OperandsBelow(b.term.uses, n)
    && (forall i :: 0 <= i < |b.phis| ==> b.phis[i].dst < n && IncomingBelow(b.phis[i].incoming, n))
    && (forall i, j :: 0 <= i < |b.phis| && 0 <= j < |b.phis[i].incoming| ==> b.phis[i].incoming[j].0 in f.blocks)
    && (forall i :: 0 <= i < |b.body| && b.body[i].op.dbg ==> b.body[i].op.ty == Void && b.body[i].args == [])
  }

  /** The arms' condition computes something and changes nothing. */
  ghost predicate ConditionRuns(w: World) {
    forall v, m :: w.eval(IS_NULL, [v], m).Ok? && w.eval(IS_NULL, [v], m).mem == m
  }

  lemma BodyDistinct(f: Func, l: Label)
    requires UniqueDefs(f) && l in f.blocks
    ensures DistinctDsts(f.blocks[l].body)
  {
    var x := f.blocks[l];
    forall i, j | 0 <= i < j < |x.body|
      ensures x.body[i].dst != x.body[j].dst
    {
      if x.body[i].dst == x.body[j].dst {
        OneDef(f, l, |x.phis| + i, l, |x.phis| + j);
      }
    }
  }

  lemma RhoIs(f: Func, l: Label, n: nat, k: nat)
    requires Ready(f, n, k) && l in f.blocks
    ensures Fresh(n, Rho(f, l, n))
    ensures forall m, i :: m in f.blocks && 0 <= i < |f.blocks[m].phis| ==> f.blocks[m].phis[i].dst !in Rho(f, l, n)
    ensures forall m, i :: m in f.blocks && m != l && 0 <= i < |f.blocks[m].body| ==> f.blocks[m].body[i].dst !in Rho(f, l, n)
  {
    var x := f.blocks[l];
    assert BlockReady(f, x, n);
    ArmFresh(x.body, n + 3, |x.body|, n);
    forall m, i | m in f.blocks && 0 <= i < |f.blocks[m].phis|
      ensures f.blocks[m].phis[i].dst !in Rho(f, l, n)
    {
      if f.blocks[m].phis[i].dst in Rho(f, l, n) {
        var j := ArmKey(x.body, n + 3, |x.body|, f.blocks[m].phis[i].dst);
        OneDef(f, m, i, l, |x.phis| + j);
      }
    }
    forall m, i | m in f.blocks && m != l && 0 <= i < |f.blocks[m].body|
      ensures f.blocks[m].body[i].dst !in Rho(f, l, n)
    {
      if f.blocks[m].body[i].dst in Rho(f, l, n) {
        var j := ArmKey(x.body, n + 3, |x.body|, f.blocks[m].body[i].dst);
        OneDef(f, m, |f.blocks[m].phis| + i, l, |x.phis| + j);
      }
    }
  }

  /** At the same block, with the same memory and the same values under the new names, coming from
      the same block or, when that is l, from the block that now ends it. */
  ghost predicate Related(f: Func, l: Label, n: nat, k: nat, c: Config, c': Config)
    requires l in f.blocks
  {
    match c
    case At(p, m, e, mem) =>
      && m in f.blocks && c'.At? && c'.cur == m && c'.mem == mem
      && Sees(n, Rho(f, l, n), e, c'.env)
      && (f.blocks[m].phis == [] ||
          (p in f.blocks && m in f.blocks[p].term.targets && c'.prev == if p == l then k + 2 else p))
    case Done(_, _) => c' == c
    case Crashed(_) => c' == c
  }

  lemma PhisStayRelated(f: Func, l: Label, n: nat, k: nat, m: Label, p: Label)
    requires Ready(f, n, k) && l in f.blocks && m in f.blocks && p in f.blocks && m in f.blocks[p].term.targets
    ensures PhisRelate(n, Rho(f, l, n), f.blocks[m].phis, p, SubPhis(Rho(f, l, n), PhisAfterSplit(f, l, k + 2, m)),
                       if p == l then k + 2 else p)
  {
    RhoIs(f, l, n, k);
    var rho, x, p' := Rho(f, l, n), f.blocks[m], if p == l then k + 2 else p;
    var split := PhisAfterSplit(f, l, k + 2, m);
    assert BlockReady(f, x, n);
    forall i | 0 <= i < |x.phis|
      ensures Incoming(SubPhis(rho, split)[i].incoming, p') == SubOp(rho, Incoming(x.phis[i].incoming, p))
      ensures Incoming(x.phis[i].incoming, p).Ref? ==> Incoming(x.phis[i].incoming, p).r < n
    {
      IncomingIsBelow(x.phis[i].incoming, p, n);
      SubIncomingIs(rho, split[i].incoming, p');
      if m in f.blocks[l].term.targets {
        RelabelIs(x.phis[i].incoming, l, k + 2, p);
      }
    }
  }

  /** The PHIs of m, read on either side. */
  lemma PhisEnter(w: World, f: Func, l: Label, n: nat, k: nat, c: Config, c': Config)
    requires Ready(f, n, k) && l in f.blocks && c.At? && Related(f, l, n, k, c, c')
    ensures Sees(n, Rho(f, l, n),
      EvalPhis(w, f.blocks[c.cur].phis, c.prev, c.env, c.env),
      EvalPhis(w, SubPhis(Rho(f, l, n), PhisAfterSplit(f, l, k + 2, c.cur)), c'.prev, c'.env, c'.env))
  {
    RhoIs(f, l, n, k);
    if f.blocks[c.cur].phis != [] {
      PhisStayRelated(f, l, n, k, c.cur, c.prev);
      PhisRun(w, n, Rho(f, l, n), f.blocks[c.cur].phis, c.prev,
              SubPhis(Rho(f, l, n), PhisAfterSplit(f, l, k + 2, c.cur)), c'.prev, c.env, c'.env, c.env, c'.env);
    }
  }

  lemma LeaveRelated(w: World, f: Func, l: Label, n: nat, k: nat, m: Label, e: Env, e': Env, mem: Mem)
    requires l in f.blocks && m in f.blocks && BlockReady(f, f.blocks[m], n)
    requires Sees(n, Rho(f, l, n), e, e')
    ensures Related(f, l, n, k, Leave(w, f.blocks[m].term, m, e, mem),
                    Leave(w, SubTerm(Rho(f, l, n), f.blocks[m].term), if m == l then k + 2 else m, e', mem))
  {
    SubVals(w, n, Rho(f, l, n), f.blocks[m].term.uses, e, e');
  }

  lemma OtherStep(w: World, f: Func, l: Label, n: nat, k: nat, c: Config, c': Config)
    requires Ready(f, n, k) && l in f.blocks && c.At? && c.cur != l && Related(f, l, n, k, c, c')
    ensures Related(f, l, n, k, StepBlock(w, f.blocks[c.cur], c.prev, c.cur, c.env, c.mem),
                    StepBlock(w, SubBlock(Rho(f, l, n), OtherBlock(f, l, k, c.cur)), c'.prev, c.cur, c'.env, c.mem))
  {
    var x, rho := f.blocks[c.cur], Rho(f, l, n);
    assert BlockReady(f, x, n);
    PhisEnter(w, f, l, n, k, c, c');
    RhoIs(f, l, n, k);
    var e, e' := EvalPhis(w, x.phis, c.prev, c.env, c.env),
                 EvalPhis(w, SubPhis(rho, PhisAfterSplit(f, l, k + 2, c.cur)), c'.prev, c'.env, c'.env);
    SubBodyRuns(w, n, rho, x.body, e, e', c.mem);
    var r, r' := ExecBody(w, x.body, e, c.mem), ExecBody(w, SubBody(rho, x.body), e', c.mem);
    if r.Ran? {
      LeaveRelated(w, f, l, n, k, c.cur, r.env, r'.env, r.mem);
    }
  }

  /** The head computes the condition and goes to one of the arms. */
  lemma HeadStep(w: World, rho: map<Reg, Reg>, phis: seq<Phi>, ctx: Operand, n: nat, k: nat, l: Label, p: Label, e: Env, mem: Mem)
    returns (a: nat, v: int)
    requires ConditionRuns(w) && n !in rho
    ensures a < 2
    ensures StepBlock(w, SubBlock(rho, HeadBlock(phis, ctx, n, k)), p, l, e, mem) ==
      At(l, k + a, EvalPhis(w, SubPhis(rho, phis), p, e, e)[n := v], mem)
    ensures v == w.eval(IS_NULL, [Val(w, SubOp(rho, ctx), EvalPhis(w, SubPhis(rho, phis), p, e, e))], mem).v && a == if v != 0 then 0 else 1
  {
    var b := SubBlock(rho, HeadBlock(phis, ctx, n, k));
    var e1 := EvalPhis(w, b.phis, p, e, e);
    var x := SubOp(rho, ctx);
    assert SubOps(rho, [ctx]) == [x] && SubOps(rho, [Ref(n)]) == [Ref(n)];
    assert b.body == [Instr(n, IS_NULL, [x])];
    assert b.term == Term(Cond, [Ref(n)], [k, k + 1]);
    assert Vals(w, [x], e1) == [Val(w, x, e1)];
    v := w.eval(IS_NULL, [Val(w, x, e1)], mem).v;
    assert b.body[1..] == [];
    assert ExecBody(w, b.body, e1, mem) == Ran(e1[n := v], mem);
    assert Vals(w, [Ref(n)], e1[n := v]) == [v];
    a := if v != 0 then 0 else 1;
  }

  lemma ArmReady(f: Func, l: Label, n: nat, k: nat, a: nat)
    requires Ready(f, n, k) && l in f.blocks && a < 2
    ensures ArmOk(f.blocks[l].body, n, n + 1 + a, Rho(f, l, n))
  {
    assert BlockReady(f, f.blocks[l], n);
    BodyDistinct(f, l);
    ArmFresh(f.blocks[l].body, n + 3, |f.blocks[l].body|, n);
  }

  /** An arm does the work of the body and goes to the tail. */
  lemma ArmStepBlock(w: World, f: Func, l: Label, n: nat, k: nat, a: nat, p: Label, e: Env, e': Env, mem: Mem)
    requires Ready(f, n, k) && l in f.blocks && a < 2 && Sees(n, Rho(f, l, n), e, e')
    ensures var body, rho := f.blocks[l].body, Rho(f, l, n);
      var x, y := ExecBody(w, body, e, mem), StepBlock(w, NewArm(f, l, n, k, a), p, k + a, e', mem);
      if x.Ran? then
        y.At? && y.prev == k + a && y.cur == k + 2 && y.mem == x.mem && Sees(n, rho + Arm(body, n + 1 + a, |body|), x.env, y.env)
      else y == Crashed(x.m)
  {
    var body, rho := f.blocks[l].body, Rho(f, l, n);
    ArmReady(f, l, n, k, a);
    assert rho + Arm(body, n + 1 + a, 0) == rho;
    ArmRuns(w, n, body, n + 1 + a, rho, 0, e, e', mem);
    var b := ArmBody(body, n + 1 + a, rho, |body|);
    assert body[0..] == body && b[0..] == b;
  }

  /** The tail joins the values and leaves as l did. */
  lemma TailStep(w: World, f: Func, l: Label, n: nat, k: nat, a: nat, e: Env, e': Env, mem: Mem)
    requires Ready(f, n, k) && l in f.blocks && a < 2
    requires Sees(n, Rho(f, l, n) + Arm(f.blocks[l].body, n + 1 + a, |f.blocks[l].body|), e, e')
    ensures Related(f, l, n, k, Leave(w, f.blocks[l].term, l, e, mem), StepBlock(w, NewTail(f, l, n, k), k + a, k + 2, e', mem))
  {
    var body := f.blocks[l].body;
    assert BlockReady(f, f.blocks[l], n);
    BodyDistinct(f, l);
    TailPhisRun(w, body, n, k, a, |body|, e');
    var e2 := EvalPhis(w, TailPhis(body, n, k, |body|), k + a, e', e');
    JoinedSees(body, n, n + 1 + a, e, e', e2);
    LeaveRelated(w, f, l, n, k, l, e, e2, mem);
  }

  lemma HeadKeeps(f: Func, l: Label, n: nat, e: Env, s: Env, v: int)
    requires l in f.blocks && BodyBelow(f.blocks[l].body, n) && Sees(n, Rho(f, l, n), e, s)
    ensures Sees(n, Rho(f, l, n), e, s[n := v]) && n !in Rho(f, l, n)
  {
    ArmFresh(f.blocks[l].body, n + 3, |f.blocks[l].body|, n);
  }

  lemma CloneHead(w: World, f: Func, l: Label, ctx: Operand, n: nat, k: nat, c: Config, c': Config) returns (a: nat, e': Env)
    requires Ready(f, n, k) && l in f.blocks && ConditionRuns(w)
    requires c.At? && c.cur == l && Related(f, l, n, k, c, c')
    ensures a < 2 && Step(w, Clone(f, l, ctx, n, k), c') == At(l, k + a, e', c.mem)
    ensures Sees(n, Rho(f, l, n), EvalPhis(w, f.blocks[l].phis, c.prev, c.env, c.env), e')
  {
    var rho, phis := Rho(f, l, n), PhisAfterSplit(f, l, k + 2, l);
    PhisEnter(w, f, l, n, k, c, c');
    assert BlockReady(f, f.blocks[l], n);
    var s := EvalPhis(w, SubPhis(rho, phis), c'.prev, c'.env, c'.env);
    HeadKeeps(f, l, n, EvalPhis(w, f.blocks[l].phis, c.prev, c.env, c.env), s, 0);
    var v;
    a, v := HeadStep(w, rho, phis, ctx, n, k, l, c'.prev, c'.env, c.mem);
    e' := s[n := v];
    HeadKeeps(f, l, n, EvalPhis(w, f.blocks[l].phis, c.prev, c.env, c.env), s, v);
  }

  lemma NewStep(w: World, f: Func, l: Label, ctx: Operand, n: nat, k: nat, m: Label, p: Label, e: Env, mem: Mem)
    requires l in f.blocks && k <= m <= k + 2
    ensures Step(w, Clone(f, l, ctx, n, k), At(p, m, e, mem)) == StepBlock(w, CloneBlock(f, l, ctx, n, k, m), p, m, e, mem)
  {
  }

  lemma ArmIsNext(w: World, f: Func, l: Label, ctx: Operand, n: nat, k: nat, a: nat, e: Env, mem: Mem)
    requires l in f.blocks && a < 2
    ensures Step(w, Clone(f, l, ctx, n, k), At(l, k + a, e, mem)) == StepBlock(w, NewArm(f, l, n, k, a), l, k + a, e, mem)
  {
    NewStep(w, f, l, ctx, n, k, k + a, l, e, mem);
  }

  lemma TailIsNext(w: World, f: Func, l: Label, ctx: Operand, n: nat, k: nat, p: Label, e: Env, mem: Mem)
    requires l in f.blocks
    ensures Step(w, Clone(f, l, ctx, n, k), At(p, k + 2, e, mem)) == StepBlock(w, NewTail(f, l, n, k), p, k + 2, e, mem)
  {
    NewStep(w, f, l, ctx, n, k, k + 2, p, e, mem);
  }

  /** The step after the head runs the body in the arm. */
  lemma ArmNext(w: World, f: Func, l: Label, ctx: Operand, n: nat, k: nat, a: nat, e: Env, e': Env, mem: Mem) returns (e2: Env)
    requires Ready(f, n, k) && l in f.blocks && a < 2 && Sees(n, Rho(f, l, n), e, e')
    ensures var x, y := ExecBody(w, f.blocks[l].body, e, mem), Step(w, Clone(f, l, ctx, n, k), At(l, k + a, e', mem));
      if x.Ran? then
        y == At(k + a, k + 2, e2, x.mem)
        && Sees(n, Rho(f, l, n) + Arm(f.blocks[l].body, n + 1 + a, |f.blocks[l].body|), x.env, e2)
      else y == Crashed(x.m)
  {
    ArmIsNext(w, f, l, ctx, n, k, a, e', mem);
    ArmStepBlock(w, f, l, n, k, a, l, e, e', mem);
    var y := StepBlock(w, NewArm(f, l, n, k, a), l, k + a, e', mem);
    e2 := if y.At? then y.env else map[];
  }

  lemma RelatedTo(f: Func, l: Label, n: nat, k: nat, c: Config, d: Config, d': Config)
    requires l in f.blocks && Related(f, l, n, k, c, d) && d' == d
    ensures Related(f, l, n, k, c, d')
  {
  }

  lemma TailNext(w: World, f: Func, l: Label, ctx: Operand, n: nat, k: nat, a: nat, e: Env, e': Env, mem: Mem)
    requires Ready(f, n, k) && l in f.blocks && a < 2
    requires Sees(n, Rho(f, l, n) + Arm(f.blocks[l].body, n + 1 + a, |f.blocks[l].body|), e, e')
    ensures Related(f, l, n, k, Leave(w, f.blocks[l].term, l, e, mem), Step(w, Clone(f, l, ctx, n, k), At(k + a, k + 2, e', mem)))
  {
    TailStep(w, f, l, n, k, a, e, e', mem);
    TailIsNext(w, f, l, ctx, n, k, k + a, e', mem);
    RelatedTo(f, l, n, k, Leave(w, f.blocks[l].term, l, e, mem), StepBlock(w, NewTail(f, l, n, k), k + a, k + 2, e', mem),
              Step(w, Clone(f, l, ctx, n, k), At(k + a, k + 2, e', mem)));
  }

  /** The two blocks after the head, from environments that agree after the PHIs. */
  lemma CloneArmAndTail(w: World, f: Func, l: Label, ctx: Operand, n: nat, k: nat, a: nat, e: Env, e': Env, mem: Mem)
    requires Ready(f, n, k) && l in f.blocks && a < 2 && Sees(n, Rho(f, l, n), e, e')
    ensures var g := Clone(f, l, ctx, n, k);
      Related(f, l, n, k, AfterBody(w, f, l, e, mem), Step(w, g, Step(w, g, At(l, k + a, e', mem))))
  {
    var e2 := ArmNext(w, f, l, ctx, n, k, a, e, e', mem);
    var r := ExecBody(w, f.blocks[l].body, e, mem);
    if r.Ran? {
      TailNext(w, f, l, ctx, n, k, a, r.env, e2, r.mem);
    }
  }

  function AfterBody(w: World, f: Func, l: Label, e: Env, mem: Mem): Config
    requires l in f.blocks
  {
    match ExecBody(w, f.blocks[l].body, e, mem)
    case Ran(e', m) => Leave(w, f.blocks[l].term, l, e', m)
    case Stopped(m) => Crashed(m)
  }

  /** Entering l takes three blocks on the cloned side, one if the body traps. */
  lemma CloneStep(w: World, f: Func, l: Label, ctx: Operand, n: nat, k: nat, c: Config, c': Config)
    requires Ready(f, n, k) && l in f.blocks && ConditionRuns(w)
    requires c.At? && c.cur == l && Related(f, l, n, k, c, c')
    ensures var g := Clone(f, l, ctx, n, k); Related(f, l, n, k, Step(w, f, c), Step(w, g, Step(w, g, Step(w, g, c'))))
  {
    var a, e' := CloneHead(w, f, l, ctx, n, k, c, c');
    CloneArmAndTail(w, f, l, ctx, n, k, a, EvalPhis(w, f.blocks[l].phis, c.prev, c.env, c.env), e', c.mem);
  }

  /** One block of the original is one block or three of the clone. */
  lemma StepRelated(w: World, f: Func, l: Label, ctx: Operand, n: nat, k: nat, c: Config, c': Config)
    requires Ready(f, n, k) && l in f.blocks && ConditionRuns(w) && Related(f, l, n, k, c, c')
    ensures Related(f, l, n, k, Step(w, f, c),
      RunFrom(w, Clone(f, l, ctx, n, k), c', if c.At? && c.cur == l then 3 else 1))
  {
    var g := Clone(f, l, ctx, n, k);
    assert RunFrom(w, g, c', 1) == Step(w, g, c');
    assert RunFrom(w, g, c', 3) == Step(w, g, Step(w, g, Step(w, g, c')));
    if c.At? && c.cur == l {
      CloneStep(w, f, l, ctx, n, k, c, c');
    } else if c.At? {
        OtherStep(w, f, l, n, k, c, c');
    }
  }

  lemma {:induction false} RunFromAdd(w: World, g: Func, c: Config, i: nat, j: nat)
    ensures RunFrom(w, g, RunFrom(w, g, c, i), j) == RunFrom(w, g, c, i + j)
    decreases j
  {
    if j > 0 {
      RunFromAdd(w, g, c, i, j - 1);
    }
  }

  lemma {:induction false} InsertAfterIs(s: seq<Label>, l: Label, new': seq<Label>)
    ensures s != [] ==> InsertAfter(s, l, new') != [] && InsertAfter(s, l, new')[0] == s[0]
  {
  }

  lemma StartRelated(w: World, f: Func, l: Label, ctx: Operand, n: nat, k: nat)
    requires Ready(f, n, k) && l in f.blocks && Clone(f, l, ctx, n, k).order != []
    requires Clone(f, l, ctx, n, k).order[0] == f.order[0]
    ensures Related(f, l, n, k, Start(w, f), Start(w, Clone(f, l, ctx, n, k)))
  {
  }

  lemma {:induction false} RunRelated(w: World, f: Func, l: Label, ctx: Operand, n: nat, k: nat, i: nat) returns (j: nat)
    requires Ready(f, n, k) && l in f.blocks && ConditionRuns(w)
    ensures Clone(f, l, ctx, n, k).order != [] && i <= j <= 3 * i
    ensures Related(f, l, n, k, Run(w, f, i), Run(w, Clone(f, l, ctx, n, k), j))
  {
    var g := Clone(f, l, ctx, n, k);
    InsertAfterIs(f.order, l, [k, k + 1, k + 2]);
    if i == 0 {
      j := 0;
      StartRelated(w, f, l, ctx, n, k);
    } else {
      j := RunRelated(w, f, l, ctx, n, k, i - 1);
      var c := Run(w, f, i - 1);
      var d := if c.At? && c.cur == l then 3 else 1;
      StepRelated(w, f, l, ctx, n, k, c, Run(w, g, j));
      RunFromAdd(w, g, Start(w, g), j, d);
      j := j + d;
    }
  }

  /** Cloning a block preserves the meaning of the function. */
  lemma CloneSimulates(w: World, f: Func, l: Label, ctx: Operand, n: nat, k: nat)
    requires Ready(f, n, k) && l in f.blocks && ConditionRuns(w)
    ensures Clone(f, l, ctx, n, k).order != [] && Simulates(w, f, Clone(f, l, ctx, n, k))
  {
    var g := Clone(f, l, ctx, n, k);
    InsertAfterIs(f.order, l, [k, k + 1, k + 2]);
    forall i: nat
      ensures Shows(w, g, Look(Run(w, f, i)), i)
    {
      var j := RunRelated(w, f, l, ctx, n, k, i);
    }
  }
}
