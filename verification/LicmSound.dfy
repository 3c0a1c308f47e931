/** Hoisting an operand-closed set of safe register computations preserves the meaning. */
module LicmSound {
  import opened IR
  import opened Semantics
  import opened Paths
  import opened StrictSsa
  import opened LicmSpec

  // ----- Register computations -----

  /** An operation that is no call and does not touch memory depends on its operands only, and traps
      only if it is not safe. */
  ghost predicate Honest(w: World) {
    forall o: Op, vs: seq<int>, m: Mem :: RegisterOnly(o) ==> SameResult(w.eval(o, vs, m), w.eval(o, vs, w.mem0), o.safe, m)
  }

  predicate SameResult(x: Res, y: Res, safe: bool, m: Mem) {
    if x.Ok? then x.mem == m && y.Ok? && y.v == x.v else !safe && y.Trap?
  }

  function PureVal(w: World, x: Instr, e: Env): int {
    match w.eval(x.op, Vals(w, x.args, e), w.mem0)
    case Ok(v, _) => v
    case Trap(_) => 0
  }

  /** Every instruction of hs has its current value. */
  ghost predicate Steady(w: World, hs: seq<Instr>, e: Env) {
    forall x :: x in hs && Makes(x) ==> Get(e, x.dst) == PureVal(w, x, e)
  }

  lemma PureStays(w: World, x: Instr, e: Env, r: Reg, v: int)
    requires !ReadsReg(x, r)
    ensures PureVal(w, x, e[r := v]) == PureVal(w, x, e)
  {
    forall k | 0 <= k < |x.args|
      ensures Val(w, x.args[k], e[r := v]) == Val(w, x.args[k], e)
    {
      assert x.args[k] in x.args;
    }
    assert Vals(w, x.args, e[r := v]) == Vals(w, x.args, e);
  }

  /** A write to a register that is neither an operand nor a result of hs. */
  lemma SteadyStays(w: World, hs: seq<Instr>, e: Env, r: Reg, v: int)
    requires Steady(w, hs, e) && forall x :: x in hs ==> !ReadsReg(x, r) && x.dst != r
    ensures Steady(w, hs, e[r := v])
  {
    forall x | x in hs && Makes(x)
      ensures Get(e[r := v], x.dst) == PureVal(w, x, e[r := v])
    {
      PureStays(w, x, e, r, v);
    }
  }

  ghost predicate Foreign(hs: seq<Instr>, r: Reg) { forall x :: x in hs ==> !ReadsReg(x, r) && x.dst != r }

  // ----- A body without its hoisted instructions -----

  /** A stale register is read only after the body has written it. */
  ghost predicate ReadsFresh(d: set<Reg>, body: seq<Instr>) {
    forall i, k :: 0 <= i < |body| && !body[i].op.dbg && 0 <= k < |body[i].args| && body[i].args[k].Ref? ==>
      body[i].args[k].r !in d || MadeBefore(body, i, body[i].args[k].r)
  }

  /** How a body relates to the hoisted instructions hs, whose registers are h. */
  ghost predicate BodyFits(h: set<Reg>, hs: seq<Instr>, body: seq<Instr>) {
    forall x :: x in body ==>
      if x.dst in h then x in hs && RegisterOnly(x.op) && x.op.safe else Foreign(hs, x.dst)
  }

  lemma ReadsFreshRest(d: set<Reg>, body: seq<Instr>)
    requires body != [] && ReadsFresh(d, body)
    ensures ReadsFresh(d - (if Makes(body[0]) then {body[0].dst} else {}), body[1..])
    ensures body[0].op.dbg || Avoids(d, body[0].args)
  {
    var d' := d - (if Makes(body[0]) then {body[0].dst} else {});
    forall i, k | 0 <= i < |body[1..]| && !body[1..][i].op.dbg && 0 <= k < |body[1..][i].args| && body[1..][i].args[k].Ref?
      ensures body[1..][i].args[k].r !in d' || MadeBefore(body[1..], i, body[1..][i].args[k].r)
    {
      var r := body[1..][i].args[k].r;
      assert body[1..][i] == body[i + 1];
      if r in d' {
        var j :| 0 <= j < i + 1 && j < |body| && body[j].dst == r && Makes(body[j]);
        assert j > 0 && body[1..][j - 1] == body[j];
      }
    }
  }

  lemma MadeRest(d: set<Reg>, body: seq<Instr>)
    requires body != []
    ensures d - (if Makes(body[0]) then {body[0].dst} else {}) - Made(body[1..]) == d - Made(body)
  {
    assert forall j :: 0 <= j < |body[1..]| ==> body[1..][j] == body[j + 1];
    forall r | r in Made(body)
      ensures r in (if Makes(body[0]) then {body[0].dst} else {}) + Made(body[1..])
    {
      var j :| 0 <= j < |body| && Makes(body[j]) && body[j].dst == r;
      assert j > 0 ==> body[1..][j - 1] == body[j];
    }
  }

  /** One instruction: it runs on both sides, or it was hoisted and its value is there already. */
  lemma OneInstr(w: World, h: set<Reg>, hs: seq<Instr>, d: set<Reg>, x: Instr, e: Env, e': Env, mem: Mem)
    requires Honest(w) && Steady(w, hs, e') && AgreeOff(d, e, e') && (x.op.dbg || Avoids(d, x.args))
    requires if x.dst in h then x in hs && RegisterOnly(x.op) && x.op.safe else Foreign(hs, x.dst)
    ensures var a, b := ExecInstr(w, x, e, mem), if x.dst in h then Ran(e', mem) else ExecInstr(w, x, e', mem);
      if a.Ran? then
        && b.Ran? && a.mem == b.mem && Steady(w, hs, b.env)
        && AgreeOff(d - (if Makes(x) then {x.dst} else {}), a.env, b.env)
      else a == b
  {
    if !x.op.dbg {
      ValsAgree(w, d, x.args, e, e');
      if x.dst in h {
        assert w.eval(x.op, Vals(w, x.args, e), mem).Ok?;
      } else {
        var r := w.eval(x.op, Vals(w, x.args, e), mem);
        if r.Ok? {
          SteadyStays(w, hs, e', x.dst, r.v);
        }
      }
    }
  }

  function Then(w: World, x: Exec, body: seq<Instr>): Exec {
    if x.Ran? then ExecBody(w, body, x.env, x.mem) else x
  }

  lemma {:induction false} BodyWithout(w: World, h: set<Reg>, hs: seq<Instr>, d: set<Reg>, body: seq<Instr>, e: Env, e': Env, mem: Mem)
    requires Honest(w) && BodyFits(h, hs, body) && Steady(w, hs, e') && ReadsFresh(d, body) && AgreeOff(d, e, e')
    ensures var a, b := ExecBody(w, body, e, mem), ExecBody(w, Left(body, h), e', mem);
      if a.Ran? then b.Ran? && a.mem == b.mem && Steady(w, hs, b.env) && AgreeOff(d - Made(body), a.env, b.env)
      else a == b
  {
    if body == [] {
      assert d - Made(body) == d;
    } else {
      var x := body[0];
      ReadsFreshRest(d, body);
      OneInstr(w, h, hs, d, x, e, e', mem);
      var a := ExecInstr(w, x, e, mem);
      var b := if x.dst in h then Ran(e', mem) else ExecInstr(w, x, e', mem);
      LeftStep(w, h, body, e', mem);
      if a.Ran? {
        BodyWithout(w, h, hs, d - (if Makes(x) then {x.dst} else {}), body[1..], a.env, b.env, a.mem);
        MadeRest(d, body);
      }
    }
  }

  lemma LeftStep(w: World, h: set<Reg>, body: seq<Instr>, e: Env, mem: Mem)
    requires body != []
    ensures ExecBody(w, Left(body, h), e, mem) ==
      Then(w, if body[0].dst in h then Ran(e, mem) else ExecInstr(w, body[0], e, mem), Left(body[1..], h))
  {
    if body[0].dst in h {
      assert Left(body, h) == Left(body[1..], h);
    } else {
      assert Left(body, h)[0] == body[0] && Left(body, h)[1..] == Left(body[1..], h);
    }
  }

  // ----- Running the hoisted instructions -----

  /** No instruction reads its own result or a later one. */
  ghost predicate DefsFirst(hs: seq<Instr>) {
    forall j, k :: 0 <= j <= k < |hs| ==> !ReadsReg(hs[j], hs[k].dst)
  }

  ghost predicate Movable(hs: seq<Instr>) {
    && (forall k :: 0 <= k < |hs| ==> RegisterOnly(hs[k].op) && hs[k].op.safe)
    && (forall j, k :: 0 <= j < k < |hs| ==> hs[j].dst != hs[k].dst)
  }

  ghost function Dsts(hs: seq<Instr>): set<Reg> { set k | 0 <= k < |hs| :: hs[k].dst }

  lemma {:induction false} HoistedRun(w: World, hs: seq<Instr>, e: Env, mem: Mem)
    requires Honest(w) && DefsFirst(hs) && Movable(hs)
    ensures var a := ExecBody(w, hs, e, mem);
      a.Ran? && a.mem == mem && Steady(w, hs, a.env) && AgreeOff(Dsts(hs), e, a.env)
  {
    if hs != [] {
      var n := |hs| - 1;
      var pre, x := hs[..n], hs[n];
      HoistedRun(w, pre, e, mem);
      assert hs == pre + [x];
      ExecBodyAppend(w, pre, [x], e, mem);
      var a := ExecBody(w, pre, e, mem);
      var v := w.eval(x.op, Vals(w, x.args, a.env), mem).v;
      forall y | y in pre
        ensures !ReadsReg(y, x.dst) && y.dst != x.dst
      {
        var j :| 0 <= j < n && pre[j] == y;
        assert hs[j] == y;
      }
      SteadyStays(w, pre, a.env, x.dst, v);
      assert !ReadsReg(hs[n], hs[n].dst);
      PureStays(w, x, a.env, x.dst, v);
      assert Dsts(pre) + {x.dst} <= Dsts(hs);
    }
  }
}
