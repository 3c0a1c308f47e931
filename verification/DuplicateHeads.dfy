/** What the conditions that DuplicateBB inserts test: the context value that was chosen, whatever has
    been cloned before or since. */
module DuplicateHeads {
  import opened IR
  import opened Semantics
  import opened Paths
  import opened RIV
  import opened Renaming
  import opened DuplicateSpec
  import opened DuplicateSound
  import opened DuplicateShape
  import opened DuplicateRun

  // ----- Runs of a clone pass through the original's blocks -----

  /** How many of the first m blocks of a run have labels below k. */
  ghost function Olds(w: World, g: Func, k: nat, m: nat): nat
    requires g.order != []
  {
    if m == 0 then 0 else Olds(w, g, k, m - 1) + Old(Run(w, g, m - 1), k)
  }

  function Old(c: Config, k: nat): nat { if c.At? && c.cur < k then 1 else 0 }

  lemma OldsNext(w: World, g: Func, k: nat, m: nat, m': nat)
    requires g.order != [] && m' == m + 1
    ensures Olds(w, g, k, m') == Olds(w, g, k, m) + Old(Run(w, g, m), k)
  {
  }

  /** The registers when the body of the current block begins. */
  ghost function BodyEnv(w: World, f: Func, c: Config): Env
    requires c.At?
  {
    if c.cur in f.blocks then EvalPhis(w, f.blocks[c.cur].phis, c.prev, c.env, c.env) else c.env
  }

  ghost predicate TracksAt(w: World, f: Func, g: Func, k: nat, m: nat)
    requires f.order != [] && g.order != []
  {
    var c, d := Run(w, g, m), Run(w, f, Olds(w, g, k, m));
    c.At? && c.cur < k ==> d.At? && d.cur == c.cur && d.mem == c.mem
  }

  /** Without its blocks from k on, g's run is f's. */
  ghost predicate Tracks(w: World, f: Func, g: Func, k: nat)
    requires f.order != [] && g.order != []
  {
    forall m: nat :: TracksAt(w, f, g, k, m)
  }

  lemma PrevBlock(w: World, g: Func, m: nat)
    requires g.order != [] && m > 0 && Run(w, g, m).At?
    ensures Run(w, g, m - 1).At? && g.Edge(Run(w, g, m - 1).cur, Run(w, g, m).cur)
    ensures Run(w, g, m) == Step(w, g, Run(w, g, m - 1))
  {
    RunNext(w, g, m - 1, m);
    LeaveTarget(w, g, Run(w, g, m - 1));
  }

  /** What is given of one clone. */
  ghost predicate Given(w: World, f: Func, l: Label, n: nat, k: nat) {
    Ready(f, n, k) && l in f.blocks && ConditionRuns(w)
  }

  lemma CloneBegins(w: World, f: Func, l: Label, ctx: Operand, n: nat, k: nat)
    requires Given(w, f, l, n, k)
    ensures var g := Clone(f, l, ctx, n, k); g.order != [] && g.order[0] == f.order[0] && LabelsBelow(f, k) && f.order[0] < k
    ensures forall x, t :: x in f.blocks && t in f.blocks[x].term.targets ==> t < k
  {
    CloneOrder(f, l, ctx, n, k);
    TargetsBelow(f, n, k);
  }

  /** An edge of the clone: between old blocks, from the head l to an arm, from an arm to the tail, or
      from the tail. */
  ghost predicate EdgeOk(l: Label, k: nat, p: Label, m: Label) {
    || (p < k && p != l && m < k)
    || (p == l && (m == k || m == k + 1))
    || ((p == k || p == k + 1) && m == k + 2)
    || (p == k + 2 && m < k)
  }

  /** One block of f, from related states, is one block of g, or three. */
  ghost predicate StepsBack(w: World, f: Func, g: Func, l: Label, n: nat, k: nat, c: Config, d: Config)
    requires l in f.blocks
  {
    c.At? && Related(f, l, n, k, c, d) ==>
      Related(f, l, n, k, Step(w, f, c), if c.cur == l then Step(w, g, Step(w, g, Step(w, g, d))) else Step(w, g, d))
  }

  /** What the runs of the clone g have to do with those of f. */
  ghost predicate RunsBack(w: World, f: Func, g: Func, l: Label, n: nat, k: nat) {
    && f.order != [] && g.order != [] && l in f.blocks && l < k && g.order[0] < k
    && Related(f, l, n, k, Start(w, f), Start(w, g))
    && (forall p, m :: g.Edge(p, m) ==> EdgeOk(l, k, p, m))
    && (forall c, d :: StepsBack(w, f, g, l, n, k, c, d))
  }

  lemma CloneStepsBack(w: World, f: Func, l: Label, ctx: Operand, n: nat, k: nat, c: Config, d: Config)
    requires Given(w, f, l, n, k)
    ensures StepsBack(w, f, Clone(f, l, ctx, n, k), l, n, k, c, d)
  {
    var g := Clone(f, l, ctx, n, k);
    if c.At? && Related(f, l, n, k, c, d) {
      if c.cur == l {
        CloneStep(w, f, l, ctx, n, k, c, d);
      } else {
        StepRelated(w, f, l, ctx, n, k, c, d);
        assert RunFrom(w, g, d, 1) == Step(w, g, d);
      }
    }
  }

  lemma CloneRunsBack(w: World, f: Func, l: Label, ctx: Operand, n: nat, k: nat)
    requires Given(w, f, l, n, k)
    ensures RunsBack(w, f, Clone(f, l, ctx, n, k), l, n, k)
  {
    var g := Clone(f, l, ctx, n, k);
    CloneBegins(w, f, l, ctx, n, k);
    StartRelated(w, f, l, ctx, n, k);
    forall p, m | g.Edge(p, m)
      ensures EdgeOk(l, k, p, m)
    {
      CloneEdges(f, l, ctx, n, k, p, m);
    }
    forall c, d
      ensures StepsBack(w, f, g, l, n, k, c, d)
    {
      CloneStepsBack(w, f, l, ctx, n, k, c, d);
    }
  }

  ghost predicate BothAt(f: Func, l: Label, n: nat, k: nat, c: Config, d: Config)
    requires l in f.blocks
  {
    c.At? && Related(f, l, n, k, c, d)
  }

  lemma BothStay(f: Func, l: Label, n: nat, k: nat, c: Config, d: Config, c': Config, d': Config)
    requires l in f.blocks && BothAt(f, l, n, k, c, d) && c' == c && d' == d
    ensures BothAt(f, l, n, k, c', d')
  {
  }

  ghost predicate Back(w: World, f: Func, g: Func, l: Label, n: nat, k: nat, m: nat)
    requires f.order != [] && g.order != [] && l in f.blocks
  {
    BothAt(f, l, n, k, Run(w, f, Olds(w, g, k, m)), Run(w, g, m))
  }

  lemma NextBoth(w: World, f: Func, g: Func, l: Label, n: nat, k: nat, c: Config, d: Config) returns (d': Config)
    requires RunsBack(w, f, g, l, n, k) && BothAt(f, l, n, k, c, d)
    ensures d' == if d.cur == l then Step(w, g, Step(w, g, Step(w, g, d))) else Step(w, g, d)
    ensures d'.At? ==> BothAt(f, l, n, k, Step(w, f, c), d')
  {
    assert StepsBack(w, f, g, l, n, k, c, d);
    d' := if d.cur == l then Step(w, g, Step(w, g, Step(w, g, d))) else Step(w, g, d);
  }

  lemma OldsThree(w: World, g: Func, k: nat, m: nat, m1: nat, m2: nat, m3: nat)
    requires g.order != [] && m1 == m + 1 && m2 == m + 2 && m3 == m + 3
    requires Old(Run(w, g, m), k) == 1 && Old(Run(w, g, m1), k) == 0 && Old(Run(w, g, m2), k) == 0
    ensures Olds(w, g, k, m3) == Olds(w, g, k, m) + 1
  {
    OldsNext(w, g, k, m, m1);
    OldsNext(w, g, k, m1, m2);
    OldsNext(w, g, k, m2, m3);
  }

  /** A run that has left the tail has gone from the head through an arm. */
  lemma TailCameFromHead(w: World, f: Func, g: Func, l: Label, n: nat, k: nat, m3: nat) returns (m: nat)
    requires RunsBack(w, f, g, l, n, k) && m3 > 0 && Run(w, g, m3).At? && Run(w, g, m3 - 1).At? && Run(w, g, m3 - 1).cur == k + 2
    ensures m3 == m + 3 && Run(w, g, m).At? && Run(w, g, m).cur == l
    ensures Run(w, g, m3) == Step(w, g, Step(w, g, Step(w, g, Run(w, g, m))))
    ensures Olds(w, g, k, m3) == Olds(w, g, k, m) + 1
  {
    var m2: nat := m3 - 1;
    assert m2 > 0;
    PrevBlock(w, g, m2);
    var m1: nat := m2 - 1;
    assert EdgeOk(l, k, Run(w, g, m1).cur, k + 2);
    assert m1 > 0;
    PrevBlock(w, g, m1);
    m := m1 - 1;
    assert EdgeOk(l, k, Run(w, g, m).cur, Run(w, g, m1).cur);
    RunNext(w, g, m2, m3);
    OldsThree(w, g, k, m, m1, m2, m3);
  }

  /** From an old block to the next old one, after one block or three. */
  lemma BackThrough(w: World, f: Func, g: Func, l: Label, n: nat, k: nat, m: nat, m': nat)
    requires RunsBack(w, f, g, l, n, k) && Back(w, f, g, l, n, k, m) && Run(w, g, m').At?
    requires Olds(w, g, k, m') == Olds(w, g, k, m) + 1 && Run(w, g, m).At?
    requires var d := Run(w, g, m); Run(w, g, m') == if d.cur == l then Step(w, g, Step(w, g, Step(w, g, d))) else Step(w, g, d)
    ensures Back(w, f, g, l, n, k, m')
  {
    var q := Olds(w, g, k, m);
    RunNext(w, f, q, q + 1);
    var d := NextBoth(w, f, g, l, n, k, Run(w, f, q), Run(w, g, m));
    BothStay(f, l, n, k, Step(w, f, Run(w, f, q)), d, Run(w, f, Olds(w, g, k, m')), Run(w, g, m'));
  }

  /** Where a run of the clone is at an original block, the original's run, that many original blocks
      on, is there too, with the values under their old names. */
  lemma {:induction false} RunBack(w: World, f: Func, g: Func, l: Label, n: nat, k: nat, m: nat)
    requires RunsBack(w, f, g, l, n, k) && Run(w, g, m).At? && Run(w, g, m).cur < k
    ensures Back(w, f, g, l, n, k, m)
  {
    if m > 0 {
      PrevBlock(w, g, m);
      var m': nat := m - 1;
      assert EdgeOk(l, k, Run(w, g, m').cur, Run(w, g, m).cur);
      if Run(w, g, m').cur == k + 2 {
        var h := TailCameFromHead(w, f, g, l, n, k, m);
        RunBack(w, f, g, l, n, k, h);
        BackThrough(w, f, g, l, n, k, h, m);
      } else {
        RunBack(w, f, g, l, n, k, m');
        OldsNext(w, g, k, m', m);
        BackThrough(w, f, g, l, n, k, m', m);
      }
    }
  }

  lemma CloneTracks(w: World, f: Func, g: Func, l: Label, n: nat, k: nat)
    requires RunsBack(w, f, g, l, n, k)
    ensures Tracks(w, f, g, k)
  {
    forall m: nat
      ensures TracksAt(w, f, g, k, m)
    {
      if Run(w, g, m).At? && Run(w, g, m).cur < k {
        RunBack(w, f, g, l, n, k, m);
      }
    }
  }

  // ----- Several clones -----

  lemma OldsComposeNext(w: World, f: Func, g: Func, k: nat, k': nat, m: nat, m': nat, q: nat, q': nat)
    requires f.order != [] && g.order != [] && k <= k' && TracksAt(w, f, g, k', m) && m' == m + 1
    requires q == Olds(w, g, k', m) && q' == q + 1 && Olds(w, g, k, m) == Olds(w, f, k, q)
    ensures Olds(w, g, k, m') == Olds(w, f, k, Olds(w, g, k', m'))
  {
    OldsNext(w, g, k, m, m');
    OldsNext(w, g, k', m, m');
    OldsNext(w, f, k, q, q');
  }

  lemma {:induction false} OldsCompose(w: World, f: Func, g: Func, k: nat, k': nat, m: nat)
    requires f.order != [] && g.order != [] && k <= k' && Tracks(w, f, g, k')
    ensures Olds(w, g, k, m) == Olds(w, f, k, Olds(w, g, k', m))
  {
    if m > 0 {
      OldsCompose(w, f, g, k, k', m - 1);
      assert TracksAt(w, f, g, k', m - 1);
      OldsComposeNext(w, f, g, k, k', m - 1, m, Olds(w, g, k', m - 1), Olds(w, g, k', m - 1) + 1);
    }
  }

  lemma TracksTrans(w: World, f: Func, g: Func, h: Func, k: nat, k': nat)
    requires f.order != [] && g.order != [] && h.order != [] && k <= k'
    requires Tracks(w, f, g, k) && Tracks(w, g, h, k')
    ensures Tracks(w, f, h, k)
  {
    forall m: nat
      ensures TracksAt(w, f, h, k, m)
    {
      OldsCompose(w, g, h, k, k', m);
      assert TracksAt(w, g, h, k', m) && TracksAt(w, f, g, k, Olds(w, h, k', m));
    }
  }

  /** With all labels below k every block counts. */
  lemma {:induction false} OldsAll(w: World, f: Func, n: nat, k: nat, m: nat)
    requires Ready(f, n, k) && Run(w, f, m).At?
    ensures Run(w, f, m).cur < k && Olds(w, f, k, m) == m
  {
    TargetsBelow(f, n, k);
    if m > 0 {
      PrevBlock(w, f, m);
      OldsAll(w, f, n, k, m - 1);
    }
  }

  lemma SelfTracks(w: World, f: Func, n: nat, k: nat)
    requires Ready(f, n, k)
    ensures Tracks(w, f, f, k)
  {
    forall m: nat
      ensures TracksAt(w, f, f, k, m)
    {
      if Run(w, f, m).At? {
        OldsAll(w, f, n, k, m);
      }
    }
  }

  /** The next state of the run, and that its runs go back to the state's. */
  lemma NextTracks(w: World, s: State, n0: nat, ts: Targets, heads: set<Label>) returns (s': State)
    requires RunPoint(s, n0, ts, heads) && ts != [] && TargetsOk(s, ts) && TargetLabels(ts) !! heads && ConditionRuns(w)
    ensures s' == CloneOne(s, ts[0].0, ts[0].1)
    ensures s'.k == s.k + 3 && TargetsOk(s', ts[1..]) && CloneAll(s, ts) == CloneAll(s', ts[1..])
    ensures RunPoint(s', n0, ts[1..], heads + {ts[0].0}) && TargetLabels(ts[1..]) !! heads + {ts[0].0}
    ensures RunsBack(w, s.f, s'.f, ts[0].0, s.n, s.k)
  {
    s' := CloneOne(s, ts[0].0, ts[0].1);
    TailFacts(ts, heads);
    TargetsOkTail(s, ts);
    RunAdvances(s, n0, ts, heads);
    assert BasePoint(s, n0);
    CloneRunsBack(w, s.f, ts[0].0, SubOp(s.remap, ts[0].1), s.n, s.k);
  }

  lemma {:induction false} AllTracks(w: World, s: State, n0: nat, ts: Targets, heads: set<Label>)
    requires RunPoint(s, n0, ts, heads) && TargetsOk(s, ts) && TargetLabels(ts) !! heads && ConditionRuns(w)
    ensures s.f.order != [] && CloneAll(s, ts).f.order != [] && Tracks(w, s.f, CloneAll(s, ts).f, s.k)
    decreases ts
  {
    if ts == [] {
      assert BasePoint(s, n0);
      SelfTracks(w, s.f, s.n, s.k);
    } else {
      var s' := NextTracks(w, s, n0, ts, heads);
      AllTracks(w, s', n0, ts[1..], heads + {ts[0].0});
      CloneTracks(w, s.f, s'.f, ts[0].0, s.n, s.k);
      TracksTrans(w, s.f, s'.f, CloneAll(s', ts[1..]).f, s.k, s'.k);
    }
  }

  // ----- What a head tests -----

  /** 0 if the condition on x is true, 1 if it is false. */
  ghost function Choice(w: World, x: int, mem: Mem): nat
    requires ConditionRuns(w)
  {
    if w.eval(Op(IsNull, IntTy(1), false, false, true, false), [x], mem).v != 0 then 0 else 1
  }

  lemma SubVal(w: World, n: nat, mu: map<Reg, Reg>, x: Operand, e: Env, e': Env)
    requires Sees(n, mu, e, e') && (x.Ref? ==> x.r < n)
    ensures Val(w, SubOp(mu, x), e') == Val(w, x, e)
  {
  }

  lemma HeadBlockChooses(w: World, rho: map<Reg, Reg>, phis: seq<Phi>, ctx: Operand, n: nat, k: nat, l: Label, p: Label, e: Env, mem: Mem)
    requires ConditionRuns(w) && n !in rho
    ensures var c, e1 := StepBlock(w, SubBlock(rho, HeadBlock(phis, ctx, n, k)), p, l, e, mem), EvalPhis(w, SubPhis(rho, phis), p, e, e);
      c.At? && c.cur == k + Choice(w, Val(w, SubOp(rho, ctx), e1), mem)
  {
    var a, v := HeadStep(w, rho, phis, ctx, n, k, l, p, e, mem);
  }

  lemma HeadNext(w: World, f: Func, l: Label, ctx: Operand, n: nat, k: nat, p: Label, e: Env, mem: Mem)
    requires l in f.blocks && l < k
    ensures Step(w, Clone(f, l, ctx, n, k), At(p, l, e, mem)) == StepBlock(w, NewHead(f, l, ctx, n, k), p, l, e, mem)
  {
    CloneHas(f, l, ctx, n, k, l);
  }

  /** The head of a clone tests its context value as it is when the body begins. */
  lemma HeadChooses(w: World, f: Func, l: Label, ctx: Operand, n: nat, k: nat, c: Config, d: Config)
    requires Given(w, f, l, n, k) && (ctx.Ref? ==> ctx.r < n) && BothAt(f, l, n, k, c, d) && c.cur == l
    ensures var t := Step(w, Clone(f, l, ctx, n, k), d); t.At? && t.cur == k + Choice(w, Val(w, ctx, BodyEnv(w, f, c)), c.mem)
  {
    var rho, phis := Rho(f, l, n), PhisAfterSplit(f, l, k + 2, l);
    assert LabelsBelow(f, k) && BlockReady(f, f.blocks[l], n);
    PhisEnter(w, f, l, n, k, c, d);
    HeadKeeps(f, l, n, BodyEnv(w, f, c), EvalPhis(w, SubPhis(rho, phis), d.prev, d.env, d.env), 0);
    HeadNext(w, f, l, ctx, n, k, d.prev, d.env, d.mem);
    HeadBlockChooses(w, rho, phis, ctx, n, k, l, d.prev, d.env, d.mem);
    SubVal(w, n, rho, ctx, BodyEnv(w, f, c), EvalPhis(w, SubPhis(rho, phis), d.prev, d.env, d.env));
  }

  /** A value read in another block is the same before and after the clone. */
  lemma ValueKept(w: World, f: Func, l: Label, ctx: Operand, n: nat, k: nat, c: Config, d: Config, x: Operand)
    requires Given(w, f, l, n, k) && BothAt(f, l, n, k, c, d) && c.cur != l && (x.Ref? ==> x.r < n)
    ensures d.At? && Val(w, SubOp(Rho(f, l, n), x), BodyEnv(w, Clone(f, l, ctx, n, k), d)) == Val(w, x, BodyEnv(w, f, c))
  {
    assert LabelsBelow(f, k);
    PhisEnter(w, f, l, n, k, c, d);
    CloneHas(f, l, ctx, n, k, c.cur);
    SubVal(w, n, Rho(f, l, n), x, BodyEnv(w, f, c), BodyEnv(w, Clone(f, l, ctx, n, k), d));
  }

  // ----- A head keeps its branches -----

  /** The block tests one value and goes on to k or k + 1. */
  ghost predicate Forks(b: Block, k: nat) {
    && |b.body| == 1 && b.body[0].op == IS_NULL && |b.body[0].args| == 1
    && b.term.kind == Cond && b.term.targets == [k, k + 1]
  }

  lemma ForkRuns(w: World, g: Func, c: Config, k: nat)
    requires ConditionRuns(w) && c.At? && c.cur in g.blocks && Forks(g.blocks[c.cur], k)
    ensures Step(w, g, c).At? && (Step(w, g, c).cur == k || Step(w, g, c).cur == k + 1)
  {
    var b := g.blocks[c.cur];
    var e := EvalPhis(w, b.phis, c.prev, c.env, c.env);
    assert b.body == [b.body[0]] && b.body[1..] == [];
    assert Vals(w, b.body[0].args, e) == [Val(w, b.body[0].args[0], e)];
    assert ExecBody(w, b.body, e, c.mem).Ran?;
  }

  lemma ForksStay(f: Func, l: Label, ctx: Operand, n: nat, k: nat, m: Label, j: nat)
    requires l in f.blocks && m in f.blocks && m != l && m < k && Forks(f.blocks[m], j)
    ensures m in Clone(f, l, ctx, n, k).blocks && Forks(Clone(f, l, ctx, n, k).blocks[m], j)
  {
    CloneHas(f, l, ctx, n, k, m);
  }

  lemma {:induction false} ForksStayAll(s: State, ts: Targets, m: Label, j: nat)
    requires TargetsOk(s, ts) && m in s.f.blocks && m < s.k && m !in TargetLabels(ts) && Forks(s.f.blocks[m], j)
    ensures m in CloneAll(s, ts).f.blocks && Forks(CloneAll(s, ts).f.blocks[m], j)
    decreases ts
  {
    if ts != [] {
      TargetLabelsTail(ts);
      TargetsOkTail(s, ts);
      ForksStay(s.f, ts[0].0, SubOp(s.remap, ts[0].1), s.n, s.k, m, j);
      ForksStayAll(CloneOne(s, ts[0].0, ts[0].1), ts[1..], m, j);
    }
  }

  lemma HeadForks(f: Func, l: Label, ctx: Operand, n: nat, k: nat)
    requires l in f.blocks && l < k
    ensures l in Clone(f, l, ctx, n, k).blocks && Forks(Clone(f, l, ctx, n, k).blocks[l], k)
  {
    CloneHas(f, l, ctx, n, k, l);
    NewHeadBody(f, l, ctx, n, k);
  }

  // ----- All heads of a run -----

  /** In c a run enters l and is then in e; before the cloning it was in d, where the value of x decides
      between t and t + 1. */
  ghost predicate TestsIn(w: World, f: Func, c: Config, e: Config, d: Config, l: Label, x: Operand, t: Label)
    requires ConditionRuns(w)
  {
    c.At? && c.cur == l ==>
      && d.At? && d.cur == l && d.mem == c.mem
      && e.At? && e.cur == t + Choice(w, Val(w, x, BodyEnv(w, f, d)), d.mem)
  }

  /** The same for g's run after m blocks and m' blocks, with the matching point of f's run. */
  ghost predicate Tests(w: World, f: Func, g: Func, k: nat, m: nat, m': nat, l: Label, x: Operand, t: Label)
    requires f.order != [] && g.order != [] && ConditionRuns(w)
  {
    TestsIn(w, f, Run(w, g, m), Run(w, g, m'), Run(w, f, Olds(w, g, k, m)), l, x, t)
  }

  lemma PendingKnown(s: State, n0: nat, ts: Targets)
    requires BasePoint(s, n0) && AllPending(s, n0, ts) && ts != []
    ensures SubOp(s.remap, ts[0].1).Ref? ==> SubOp(s.remap, ts[0].1).r < s.n
  {
    KnownBelow(s.f, SubOp(s.remap, ts[0].1), s.n, s.k);
  }

  /** From the head of the first target the whole run goes to one of its clones. */
  lemma HeadGoesOn(w: World, s: State, s': State, ts: Targets, g: Func, m: nat, m': nat)
    requires ts != [] && TargetsOk(s, ts) && s' == CloneOne(s, ts[0].0, ts[0].1) && TargetsOk(s', ts[1..]) && g == CloneAll(s', ts[1..]).f
    requires ConditionRuns(w) && g.order != [] && Run(w, g, m).At? && Run(w, g, m).cur == ts[0].0 && m' == m + 1
    ensures Old(Run(w, g, m'), s'.k) == 1
  {
    HeadForks(s.f, ts[0].0, SubOp(s.remap, ts[0].1), s.n, s.k);
    NotAgain(s, ts);
    ForksStayAll(s', ts[1..], ts[0].0, s.k);
    ForkRuns(w, g, Run(w, g, m), s.k);
    RunNext(w, g, m, m');
  }

  lemma NotAgain(s: State, ts: Targets)
    requires ts != [] && TargetsOk(s, ts)
    ensures ts[0].0 !in TargetLabels(ts[1..])
  {
    forall i | 0 <= i < |ts[1..]|
      ensures ts[1..][i].0 != ts[0].0
    {
      assert ts[1..][i] == ts[i + 1];
    }
  }

  /** The head of the first target, right after it was cloned. */
  lemma FirstStep(w: World, s: State, s': State, n0: nat, ts: Targets, q: nat, q': nat)
    requires BasePoint(s, n0) && AllPending(s, n0, ts) && ts != [] && TargetsOk(s, ts) && ConditionRuns(w) && q' == q + 1
    requires s' == CloneOne(s, ts[0].0, ts[0].1) && RunsBack(w, s.f, s'.f, ts[0].0, s.n, s.k)
    ensures Tests(w, s.f, s'.f, s.k, q, q', ts[0].0, SubOp(s.remap, ts[0].1), s.k)
  {
    var l, x := ts[0].0, SubOp(s.remap, ts[0].1);
    if Run(w, s'.f, q).At? && Run(w, s'.f, q).cur == l {
      RunBack(w, s.f, s'.f, l, s.n, s.k, q);
      PendingKnown(s, n0, ts);
      HeadChooses(w, s.f, l, x, s.n, s.k, Run(w, s.f, Olds(w, s'.f, s.k, q)), Run(w, s'.f, q));
      RunNext(w, s'.f, q, q');
    }
  }

  /** What the head does there it does in the result of the whole run. */
  lemma SameTests(w: World, f: Func, c: Config, e: Config, d: Config, c': Config, e': Config, d': Config, l: Label, x: Operand, t: Label)
    requires ConditionRuns(w) && TestsIn(w, f, c, e, d, l, x, t) && d' == d
    requires c'.At? && c'.cur == l ==> c.At? && c.cur == l && c.mem == c'.mem && e'.At? && e.At? && e'.cur == e.cur
    ensures TestsIn(w, f, c', e', d', l, x, t)
  {
  }

  lemma TestsAhead(w: World, f: Func, g: Func, h: Func, k: nat, k': nat, m: nat, m': nat, l: Label, x: Operand, t: Label, q: nat, q': nat)
    requires f.order != [] && g.order != [] && h.order != [] && ConditionRuns(w) && l < k <= k' && Tracks(w, g, h, k')
    requires m' == m + 1 && q == Olds(w, h, k', m) && q' == q + 1
    requires Run(w, h, m).At? && Run(w, h, m).cur == l && Old(Run(w, h, m'), k') == 1
    requires TestsIn(w, f, Run(w, g, q), Run(w, g, q'), Run(w, f, Olds(w, g, k, q)), l, x, t)
    ensures TestsIn(w, f, Run(w, h, m), Run(w, h, m'), Run(w, f, Olds(w, h, k, m)), l, x, t)
  {
    OldsCompose(w, g, h, k, k', m);
    NextAhead(w, g, h, k', m, m', q, q');
    SameTests(w, f, Run(w, g, q), Run(w, g, q'), Run(w, f, Olds(w, g, k, q)), Run(w, h, m), Run(w, h, m'), Run(w, f, Olds(w, h, k, m)), l, x, t);
  }

  lemma NextAhead(w: World, g: Func, h: Func, k': nat, m: nat, m': nat, q: nat, q': nat)
    requires g.order != [] && h.order != [] && Tracks(w, g, h, k') && m' == m + 1 && q == Olds(w, h, k', m) && q' == q + 1
    requires Old(Run(w, h, m), k') == 1 && Old(Run(w, h, m'), k') == 1
    ensures Run(w, g, q).At? && Run(w, g, q).cur == Run(w, h, m).cur && Run(w, g, q).mem == Run(w, h, m).mem
    ensures Run(w, g, q').At? && Run(w, g, q').cur == Run(w, h, m').cur
  {
    OldsNext(w, h, k', m, m');
    assert TracksAt(w, g, h, k', m) && TracksAt(w, g, h, k', m');
  }

  lemma FirstTests(w: World, s: State, n0: nat, ts: Targets, heads: set<Label>, m: nat, m': nat)
    requires RunPoint(s, n0, ts, heads) && ts != [] && TargetsOk(s, ts) && TargetLabels(ts) !! heads && ConditionRuns(w) && m' == m + 1
    ensures s.f.order != [] && CloneAll(s, ts).f.order != []
    ensures Tests(w, s.f, CloneAll(s, ts).f, s.k, m, m', ts[0].0, SubOp(s.remap, ts[0].1), s.k)
  {
    var l, x, g := ts[0].0, SubOp(s.remap, ts[0].1), CloneAll(s, ts).f;
    var s' := NextTracks(w, s, n0, ts, heads);
    AllTracks(w, s', n0, ts[1..], heads + {l});
    var q: nat := Olds(w, g, s'.k, m);
    var q': nat := q + 1;
    if Run(w, g, m).At? && Run(w, g, m).cur == l {
      FirstStep(w, s, s', n0, ts, q, q');
      HeadGoesOn(w, s, s', ts, g, m, m');
      TestsAhead(w, s.f, s'.f, g, s.k, s'.k, m, m', l, x, s.k, q, q');
    }
  }

  /** The context value of a later target, looked up before and after the first one is cloned. */
  lemma LaterValue(w: World, s: State, n0: nat, ts: Targets, i: nat, c: Config, d: Config)
    requires BasePoint(s, n0) && AllPending(s, n0, ts) && TargetsOk(s, ts) && ConditionRuns(w) && 0 < i < |ts|
    requires BothAt(s.f, ts[0].0, s.n, s.k, c, d) && c.cur == ts[i].0
    ensures d.At?
    ensures Val(w, SubOp(CloneOne(s, ts[0].0, ts[0].1).remap, ts[i].1), BodyEnv(w, CloneOne(s, ts[0].0, ts[0].1).f, d)) ==
      Val(w, SubOp(s.remap, ts[i].1), BodyEnv(w, s.f, c))
  {
    var l, x := ts[0].0, ts[i].1;
    assert PendingOk(s, n0, l, ts[0].1) && PendingOk(s, n0, ts[i].0, x);
    if x.Ref? && x.r in s.remap {
      NotRemapped(s, l, x.r);
    }
    LookupOnce(s, n0, l, x);
    KnownBelow(s.f, SubOp(s.remap, x), s.n, s.k);
    ValueKept(w, s.f, l, SubOp(s.remap, ts[0].1), s.n, s.k, c, d, SubOp(s.remap, x));
  }

  lemma LaterTests(w: World, s: State, s': State, n0: nat, ts: Targets, heads: set<Label>, g: Func, i: nat, m: nat, m': nat, t: Label)
    requires RunPoint(s, n0, ts, heads) && TargetsOk(s, ts) && ConditionRuns(w) && 0 < i < |ts|
    requires s' == CloneOne(s, ts[0].0, ts[0].1) && s'.k == s.k + 3 && RunsBack(w, s.f, s'.f, ts[0].0, s.n, s.k)
    requires g.order != [] && Tracks(w, s'.f, g, s'.k) && Tests(w, s'.f, g, s'.k, m, m', ts[i].0, SubOp(s'.remap, ts[i].1), t)
    ensures Tests(w, s.f, g, s.k, m, m', ts[i].0, SubOp(s.remap, ts[i].1), t)
  {
    if Run(w, g, m).At? && Run(w, g, m).cur == ts[i].0 {
      var q := Olds(w, g, s'.k, m);
      RunBack(w, s.f, s'.f, ts[0].0, s.n, s.k, q);
      OldsCompose(w, s'.f, g, s.k, s'.k, m);
      LaterValue(w, s, n0, ts, i, Run(w, s.f, Olds(w, s'.f, s.k, q)), Run(w, s'.f, q));
    }
  }

  lemma {:induction false} HeadTests(w: World, s: State, n0: nat, ts: Targets, heads: set<Label>, i: nat, m: nat, m': nat)
    requires RunPoint(s, n0, ts, heads) && TargetsOk(s, ts) && TargetLabels(ts) !! heads && ConditionRuns(w) && i < |ts| && m' == m + 1
    ensures s.f.order != [] && CloneAll(s, ts).f.order != []
    ensures Tests(w, s.f, CloneAll(s, ts).f, s.k, m, m', ts[i].0, SubOp(s.remap, ts[i].1), s.k + 3 * i)
    decreases ts
  {
    if i == 0 {
      FirstTests(w, s, n0, ts, heads, m, m');
    } else {
      var s' := NextTracks(w, s, n0, ts, heads);
      HeadTests(w, s', n0, ts[1..], heads + {ts[0].0}, i - 1, m, m');
      AllTracks(w, s', n0, ts[1..], heads + {ts[0].0});
      assert ts[1..][i - 1] == ts[i];
      LaterTests(w, s, s', n0, ts, heads, CloneAll(s', ts[1..]).f, i, m, m', s.k + 3 * i);
    }
  }

  /** Whenever a run of the result enters the head of target i, the original's run, as many original
      blocks on, enters the block that was cloned, and the next block is the target's first clone if
      the condition holds of the value that the chosen operand has there, and the second if not. */
  lemma HeadsTestChosenValues(w: World, f: Func, n: nat, k: nat, t: Tree, init: Values, ts: Targets, i: nat, m: nat)
    requires WellFormed(f) && Ready(f, n, k) && DominatorTree(f, t) && NoRefs(init) && Chosen(Below(f, t, init), ts)
    requires ConditionRuns(w) && i < |ts|
    ensures TargetsOk(State(f, map[], n, k), ts) && CloneAll(State(f, map[], n, k), ts).f.order != []
    ensures Tests(w, f, CloneAll(State(f, map[], n, k), ts).f, k, m, m + 1, ts[i].0, ts[i].1, k + 3 * i)
  {
    RunStarts(f, n, k, t, init, ts);
    HeadTests(w, State(f, map[], n, k), n, ts, {}, i, m, m + 1);
    assert SubOp(map[], ts[i].1) == ts[i].1;
  }

  /** If the condition compares with zero: the first clone runs if the chosen value is zero. */
  lemma ZeroTakesFirstClone(w: World, f: Func, n: nat, k: nat, t: Tree, init: Values, ts: Targets, i: nat, m: nat)
    requires WellFormed(f) && Ready(f, n, k) && DominatorTree(f, t) && NoRefs(init) && Chosen(Below(f, t, init), ts) && i < |ts|
    requires forall v, mem :: w.eval(Op(IsNull, IntTy(1), false, false, true, false), [v], mem) == Ok(if v == 0 then 1 else 0, mem)
    ensures TargetsOk(State(f, map[], n, k), ts) && CloneAll(State(f, map[], n, k), ts).f.order != []
    ensures var g := CloneAll(State(f, map[], n, k), ts).f; var d := Run(w, f, Olds(w, g, k, m));
      Run(w, g, m).At? && Run(w, g, m).cur == ts[i].0 ==>
        && d.At? && d.cur == ts[i].0 && Run(w, g, m + 1).At?
        && Run(w, g, m + 1).cur == k + 3 * i + if Val(w, ts[i].1, BodyEnv(w, f, d)) == 0 then 0 else 1
  {
    HeadsTestChosenValues(w, f, n, k, t, init, ts, i, m);
  }
}
