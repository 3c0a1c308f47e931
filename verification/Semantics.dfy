/** Runs of a function.  The meaning of every operation is a parameter, so a theorem about runs
    holds for every instruction set. */
module Semantics {
  import opened IR

  /** Memory together with the trace of externally visible effects. */
  type Mem = seq<int>

  type Env = map<Reg, int>

  datatype Res = Ok(v: int, mem: Mem) | Trap(m: Mem)

  datatype World = World(
    eval: (Op, seq<int>, Mem) -> Res,
    arg: nat -> int,
    glob: nat -> int,
    mem0: Mem)

  /** Between blocks: about to enter cur from prev. */
  datatype Config =
    | At(prev: Label, cur: Label, env: Env, mem: Mem)
    | Done(vals: seq<int>, mem: Mem)
    | Crashed(mem: Mem)

  datatype Exec = Ran(env: Env, mem: Mem) | Stopped(m: Mem)

  /** A register that was never written reads as 0. */
  function Get(env: Env, r: Reg): int { if r in env then env[r] else 0 }

  function Val(w: World, x: Operand, env: Env): int {
    match x
    case Const(n) => n
    case Global(g) => w.glob(g)
    case Arg(a) => w.arg(a)
    case Ref(r) => Get(env, r)
  }

  function Vals(w: World, xs: seq<Operand>, env: Env): seq<int> {
    seq(|xs|, i requires 0 <= i < |xs| => Val(w, xs[i], env))
  }

  /** PHIs are read together: every operand is evaluated in `src`. */
  function EvalPhis(w: World, phis: seq<Phi>, prev: Label, src: Env, acc: Env): Env {
    if phis == [] then acc
    else
      EvalPhis(w, phis[1..], prev, src, acc[phis[0].dst := Val(w, Incoming(phis[0].incoming, prev), src)])
  }

  function ExecInstr(w: World, i: Instr, env: Env, mem: Mem): Exec {
    if i.op.dbg then Ran(env, mem)
    else
      match w.eval(i.op, Vals(w, i.args, env), mem)
      case Ok(v, m) => Ran(if i.op.ty == Void then env else env[i.dst := v], m)
      case Trap(m) => Stopped(m)
  }

  function ExecBody(w: World, body: seq<Instr>, env: Env, mem: Mem): Exec {
    if body == [] then Ran(env, mem)
    else
      match ExecInstr(w, body[0], env, mem)
      case Ran(e, m) => ExecBody(w, body[1..], e, m)
      case Stopped(m) => Stopped(m)
  }

  datatype Decision = Go(i: nat) | Ret | Halt

  function CaseIndex(cases: seq<int>, v: int): nat {
    if cases == [] then 0 else if cases[0] == v then 0 else 1 + CaseIndex(cases[1..], v)
  }

  function Decide(kind: Kind, vals: seq<int>): Decision {
    match kind
    case Uncond => Go(0)
    case Cond => if |vals| > 0 && vals[0] != 0 then Go(0) else Go(1)
    case Switch(cases) =>
      if |vals| == 0 then Halt
      else
        var i := CaseIndex(cases, vals[0]);
        if i < |cases| then Go(i + 1) else Go(0)
    case Indirect => if |vals| > 0 && vals[0] >= 0 then Go(vals[0]) else Halt
    case Return => Ret
    case Unreachable => Halt
  }

  function Leave(w: World, t: Term, cur: Label, env: Env, mem: Mem): Config {
    match Decide(t.kind, Vals(w, t.uses, env))
    case Go(i) => if i < |t.targets| then At(cur, t.targets[i], env, mem) else Crashed(mem)
    case Ret => Done(Vals(w, t.uses, env), mem)
    case Halt => Crashed(mem)
  }

  function EnterBlock(w: World, b: Block, prev: Label, env: Env, mem: Mem): Exec {
    ExecBody(w, b.body, EvalPhis(w, b.phis, prev, env, env), mem)
  }

  function StepBlock(w: World, b: Block, prev: Label, cur: Label, env: Env, mem: Mem): Config {
    match EnterBlock(w, b, prev, env, mem)
    case Ran(e, m) => Leave(w, b.term, cur, e, m)
    case Stopped(m) => Crashed(m)
  }

  function Step(w: World, f: Func, c: Config): Config {
    if c.At? then
      if c.cur in f.blocks then StepBlock(w, f.blocks[c.cur], c.prev, c.cur, c.env, c.mem)
      else Crashed(c.mem)
    else c
  }

  function Start(w: World, f: Func): Config
    requires f.order != []
  {
    At(f.order[0], f.order[0], map[], w.mem0)
  }

  function RunFrom(w: World, f: Func, c: Config, n: nat): Config {
    if n == 0 then c else Step(w, f, RunFrom(w, f, c, n - 1))
  }

  /** The state after n blocks. */
  function Run(w: World, f: Func, n: nat): Config
    requires f.order != []
  {
    RunFrom(w, f, Start(w, f), n)
  }

  lemma RunNext(w: World, f: Func, n: nat, m: nat)
    requires f.order != [] && m == n + 1
    ensures Run(w, f, m) == Step(w, f, Run(w, f, n))
  {
  }

  /** What an observer outside the function sees. */
  datatype View = Running(mem: Mem) | Finished(vals: seq<int>, mem: Mem) | Trapped(mem: Mem)

  function Look(c: Config): View {
    match c
    case At(_, _, _, m) => Running(m)
    case Done(v, m) => Finished(v, m)
    case Crashed(m) => Trapped(m)
  }

  /** f and g look the same after every number of blocks. */
  ghost predicate Lockstep(w: World, f: Func, g: Func)
    requires f.order != [] && g.order != []
  {
    forall n: nat :: Look(Run(w, f, n)) == Look(Run(w, g, n))
  }

  /** g shows v after n blocks or more. */
  ghost predicate Shows(w: World, g: Func, v: View, n: nat)
    requires g.order != []
  {
    exists m: nat :: n <= m && Look(Run(w, g, m)) == v
  }

  /** Whatever f shows after n blocks g shows after n or more. */
  ghost predicate Simulates(w: World, f: Func, g: Func)
    requires f.order != [] && g.order != []
  {
    forall n: nat :: Shows(w, g, Look(Run(w, f, n)), n)
  }

  /** f stops with the observation o. */
  ghost predicate Ends(w: World, f: Func, o: View)
    requires f.order != []
  {
    exists n: nat :: !Run(w, f, n).At? && Look(Run(w, f, n)) == o
  }

  lemma {:induction false} HaltedStays(w: World, f: Func, n: nat, m: nat)
    requires f.order != [] && n <= m && !Run(w, f, n).At?
    ensures Run(w, f, m) == Run(w, f, n)
    decreases m
  {
    if n < m {
      HaltedStays(w, f, n, m - 1);
    }
  }

  /** Runs are deterministic, so a simulation that makes progress is an equivalence: the two
      functions stop with the same observations, and one diverges exactly when the other does. */
  lemma SimulationIsEquivalence(w: World, f: Func, g: Func)
    requires f.order != [] && g.order != [] && Simulates(w, f, g)
    ensures forall o :: Ends(w, f, o) <==> Ends(w, g, o)
  {
    forall o | Ends(w, f, o)
      ensures Ends(w, g, o)
    {
      var n: nat :| !Run(w, f, n).At? && Look(Run(w, f, n)) == o;
      assert Shows(w, g, Look(Run(w, f, n)), n);
      var m: nat :| n <= m && Look(Run(w, g, m)) == Look(Run(w, f, n));
      assert !Run(w, g, m).At?;
    }
    forall o | Ends(w, g, o)
      ensures Ends(w, f, o)
    {
      var n: nat :| !Run(w, g, n).At? && Look(Run(w, g, n)) == o;
      assert Shows(w, g, Look(Run(w, f, n)), n);
      var m: nat :| n <= m && Look(Run(w, g, m)) == Look(Run(w, f, n));
      HaltedStays(w, g, n, m);
      assert !Run(w, f, n).At?;
    }
  }

  lemma SimulatesTrans(w: World, f: Func, g: Func, h: Func)
    requires f.order != [] && g.order != [] && h.order != []
    requires Simulates(w, f, g) && Simulates(w, g, h)
    ensures Simulates(w, f, h)
  {
    forall n: nat
      ensures Shows(w, h, Look(Run(w, f, n)), n)
    {
      assert Shows(w, g, Look(Run(w, f, n)), n);
      var k: nat :| n <= k && Look(Run(w, g, k)) == Look(Run(w, f, n));
      assert Shows(w, h, Look(Run(w, g, k)), k);
      var m: nat :| k <= m && Look(Run(w, h, m)) == Look(Run(w, g, k));
    }
  }

  lemma LockstepSimulates(w: World, f: Func, g: Func)
    requires f.order != [] && g.order != [] && Lockstep(w, f, g)
    ensures Simulates(w, f, g)
  {
    forall n: nat
      ensures Shows(w, g, Look(Run(w, f, n)), n)
    {
      assert n <= n && Look(Run(w, g, n)) == Look(Run(w, f, n));
    }
  }

  // ----- Facts about single steps -----

  lemma {:induction false} EvalPhisFrame(w: World, phis: seq<Phi>, prev: Label, src: Env, acc: Env, r: Reg)
    requires forall i :: 0 <= i < |phis| ==> phis[i].dst != r
    ensures Get(EvalPhis(w, phis, prev, src, acc), r) == Get(acc, r)
  {
    if phis != [] {
      EvalPhisFrame(w, phis[1..], prev, src, acc[phis[0].dst := Val(w, Incoming(phis[0].incoming, prev), src)], r);
    }
  }

  lemma {:induction false} EvalPhisAt(w: World, phis: seq<Phi>, prev: Label, src: Env, acc: Env, i: nat)
    requires i < |phis| && forall j, k :: 0 <= j < k < |phis| ==> phis[j].dst != phis[k].dst
    ensures Get(EvalPhis(w, phis, prev, src, acc), phis[i].dst) == Val(w, Incoming(phis[i].incoming, prev), src)
  {
    var v := Val(w, Incoming(phis[0].incoming, prev), src);
    if i == 0 {
      EvalPhisFrame(w, phis[1..], prev, src, acc[phis[0].dst := v], phis[0].dst);
    } else {
      EvalPhisAt(w, phis[1..], prev, src, acc[phis[0].dst := v], i - 1);
    }
  }

  lemma {:induction false} ExecBodyFrame(w: World, body: seq<Instr>, env: Env, mem: Mem, r: Reg)
    requires forall i :: 0 <= i < |body| ==> body[i].dst != r
    requires ExecBody(w, body, env, mem).Ran?
    ensures Get(ExecBody(w, body, env, mem).env, r) == Get(env, r)
  {
    if body != [] {
      var x := ExecInstr(w, body[0], env, mem);
      ExecBodyFrame(w, body[1..], x.env, x.mem, r);
    }
  }

  lemma {:induction false} ExecBodyAppend(w: World, b1: seq<Instr>, b2: seq<Instr>, env: Env, mem: Mem)
    ensures ExecBody(w, b1 + b2, env, mem) ==
      match ExecBody(w, b1, env, mem)
      case Ran(e, m) => ExecBody(w, b2, e, m)
      case Stopped(m) => Stopped(m)
  {
    if b1 == [] {
      assert b1 + b2 == b2;
    } else {
      assert (b1 + b2)[0] == b1[0] && (b1 + b2)[1..] == b1[1..] + b2;
      var x := ExecInstr(w, b1[0], env, mem);
      if x.Ran? {
        ExecBodyAppend(w, b1[1..], b2, x.env, x.mem);
      }
    }
  }

  // ----- Environments that agree except on some registers -----

  ghost predicate AgreeOff(d: set<Reg>, e1: Env, e2: Env) {
    forall r :: r !in d ==> Get(e1, r) == Get(e2, r)
  }

  ghost predicate Avoids(d: set<Reg>, xs: seq<Operand>) {
    forall k :: 0 <= k < |xs| && xs[k].Ref? ==> xs[k].r !in d
  }

  lemma ValsAgree(w: World, d: set<Reg>, xs: seq<Operand>, e1: Env, e2: Env)
    requires AgreeOff(d, e1, e2) && Avoids(d, xs)
    ensures Vals(w, xs, e1) == Vals(w, xs, e2)
  {
    forall k | 0 <= k < |xs|
      ensures Vals(w, xs, e1)[k] == Vals(w, xs, e2)[k]
    {
    }
  }

  lemma {:induction false} SamePhisRun(w: World, d: set<Reg>, phis: seq<Phi>, p1: Label, p2: Label,
                                       s1: Env, s2: Env, e1: Env, e2: Env)
    requires AgreeOff(d, e1, e2)
    requires forall i :: 0 <= i < |phis| ==>
      Val(w, Incoming(phis[i].incoming, p1), s1) == Val(w, Incoming(phis[i].incoming, p2), s2)
    ensures AgreeOff(d, EvalPhis(w, phis, p1, s1, e1), EvalPhis(w, phis, p2, s2, e2))
  {
    if phis != [] {
      var v := Val(w, Incoming(phis[0].incoming, p1), s1);
      SamePhisRun(w, d, phis[1..], p1, p2, s1, s2, e1[phis[0].dst := v], e2[phis[0].dst := v]);
    }
  }

  /** The same place, memory and registers, except for the hidden ones. */
  ghost predicate Follows(hidden: set<Reg>, c: Config, c': Config) {
    if c.At? then c'.At? && c'.prev == c.prev && c'.cur == c.cur && c'.mem == c.mem && AgreeOff(hidden, c.env, c'.env)
    else c' == c
  }
}
