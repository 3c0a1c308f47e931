/** Runs before and after one merge go in step. */
module MergeRuns {
  import opened IR
  import opened Semantics
  import opened MergeSpec
  import opened MergeSound

  // ----- Blocks by themselves -----

  /** The instructions of the body that run. */
  function Live(x: Block): seq<Instr> { Strip(x.body, |x.body|) }

  lemma LiveRuns(w: World, x: Block, env: Env, mem: Mem)
    ensures ExecBody(w, x.body, env, mem) == ExecBody(w, Live(x), env, mem)
  {
    StripRuns(w, x.body, |x.body|, env, mem);
    assert x.body[..|x.body|] == x.body;
  }

  lemma {:induction false} StripKeeps(body: seq<Instr>, n: nat)
    requires n <= |body| && DistinctDsts(body)
    ensures forall i :: i in Strip(body, n) <==> i in body[..n] && !i.op.dbg
    ensures DistinctDsts(Strip(body, n))
  {
    if n > 0 {
      StripKeeps(body, n - 1);
      assert body[..n] == body[..n - 1] + [body[n - 1]];
      var s := Strip(body, n - 1);
      forall k | 0 <= k < |s|
        ensures s[k].dst != body[n - 1].dst
      {
        assert s[k] in s;
      }
    }
  }

  /** The block reads no register in d, PHIs aside. */
  ghost predicate Clean(d: set<Reg>, x: Block) {
    && DistinctDefs(x)
    && (forall i :: 0 <= i < |x.body| && !x.body[i].op.dbg ==> Avoids(d, x.body[i].args))
    && Avoids(d, x.term.uses)
  }

  lemma CleanWork(d: set<Reg>, x: Block)
    requires Clean(d, x)
    ensures SameWork(d, Live(x), Live(x))
    ensures forall i :: 0 <= i < |x.body| && !x.body[i].op.dbg ==> x.body[i] in Live(x)
  {
    DistinctBody(x);
    StripKeeps(x.body, |x.body|);
    var p := Live(x);
    assert x.body[..|x.body|] == x.body;
    forall k | 0 <= k < |p|
      ensures !p[k].op.dbg && Avoids(d, p[k].args)
    {
      assert p[k] in p;
    }
  }

  ghost predicate SameCode(x: Block, y: Block) {
    && |x.phis| == |y.phis|
    && |Live(x)| == |Live(y)|
    && forall k :: 0 <= k < |Live(x)| ==> Live(x)[k].op == Live(y)[k].op && Live(x)[k].args == Live(y)[k].args
  }

  /** d holds everything the block writes. */
  ghost predicate WritesIn(d: set<Reg>, x: Block) {
    forall i :: 0 <= i < Count(x) ==> DstAt(x, i) in d
  }

  lemma BodyWritesIn(d: set<Reg>, x: Block)
    requires WritesIn(d, x)
    ensures forall k :: 0 <= k < |x.body| ==> x.body[k].dst in d
    ensures forall k :: 0 <= k < |x.phis| ==> x.phis[k].dst in d
  {
    forall k | 0 <= k < |x.body|
      ensures x.body[k].dst in d
    {
      assert DstAt(x, |x.phis| + k) == x.body[k].dst;
    }
    forall k | 0 <= k < |x.phis|
      ensures x.phis[k].dst in d
    {
      assert DstAt(x, k) == x.phis[k].dst;
    }
  }

  lemma LiveWritesIn(d: set<Reg>, x: Block)
    requires WritesIn(d, x) && DistinctDefs(x)
    ensures forall k :: 0 <= k < |Live(x)| ==> Live(x)[k].dst in d
  {
    BodyWritesIn(d, x);
    DistinctBody(x);
    StripKeeps(x.body, |x.body|);
    forall k | 0 <= k < |Live(x)|
      ensures Live(x)[k].dst in d
    {
      assert Live(x)[k] in Live(x) && x.body[..|x.body|] == x.body;
    }
  }

  lemma SameCodeWork(d: set<Reg>, x: Block, y: Block)
    requires SameCode(x, y) && Clean(d, x) && Clean(d, y) && WritesIn(d, x) && WritesIn(d, y)
    ensures SameWork(d, Live(x), Live(y))
  {
    CleanWork(d, x);
    CleanWork(d, y);
    LiveWritesIn(d, x);
    LiveWritesIn(d, y);
  }

  /** The PHIs, in order, read the same values. */
  ghost predicate PhisAgree(w: World, xs: seq<Phi>, p: Label, e: Env, ys: seq<Phi>, p': Label, e': Env) {
    && |xs| == |ys|
    && forall i :: 0 <= i < |xs| ==> Val(w, Incoming(xs[i].incoming, p), e) == Val(w, Incoming(ys[i].incoming, p'), e')
  }

  /** The PHIs, in order, have the same values. */
  ghost predicate SamePhiResults(xs: seq<Phi>, ys: seq<Phi>, e: Env, e': Env)
    requires |xs| == |ys|
  {
    forall i :: 0 <= i < |xs| ==> Get(e, xs[i].dst) == Get(e', ys[i].dst)
  }

  lemma PhiResults(w: World, x: Block, p: Label, e: Env, y: Block, p': Label, e': Env)
    requires DistinctDefs(x) && DistinctDefs(y) && PhisAgree(w, x.phis, p, e, y.phis, p', e')
    ensures SamePhiResults(x.phis, y.phis, EvalPhis(w, x.phis, p, e, e), EvalPhis(w, y.phis, p', e', e'))
  {
    DistinctBody(x);
    DistinctBody(y);
    forall i | 0 <= i < |x.phis|
      ensures Get(EvalPhis(w, x.phis, p, e, e), x.phis[i].dst) == Get(EvalPhis(w, y.phis, p', e', e'), y.phis[i].dst)
    {
      EvalPhisAt(w, x.phis, p, e, e, i);
      EvalPhisAt(w, y.phis, p', e', e', i);
    }
  }

  /** Bodies keep the values of the PHIs before them. */
  lemma PhiResultsKept(w: World, x: Block, y: Block, e: Env, e': Env, m: Mem)
    requires DistinctDefs(x) && DistinctDefs(y) && |x.phis| == |y.phis| && SamePhiResults(x.phis, y.phis, e, e')
    requires ExecBody(w, x.body, e, m).Ran? && ExecBody(w, y.body, e', m).Ran?
    ensures SamePhiResults(x.phis, y.phis, ExecBody(w, x.body, e, m).env, ExecBody(w, y.body, e', m).env)
  {
    DistinctBody(x);
    DistinctBody(y);
    forall i | 0 <= i < |x.phis|
      ensures Get(ExecBody(w, x.body, e, m).env, x.phis[i].dst) == Get(ExecBody(w, y.body, e', m).env, y.phis[i].dst)
    {
      ExecBodyFrame(w, x.body, e, m, x.phis[i].dst);
      ExecBodyFrame(w, y.body, e', m, y.phis[i].dst);
    }
  }

  /** Everything the block computes is the same. */
  ghost predicate BlockAgrees(x: Block, e: Env, e': Env) {
    && SamePhiResults(x.phis, x.phis, e, e')
    && forall i :: 0 <= i < |x.body| && !x.body[i].op.dbg && x.body[i].op.ty != Void ==>
         Get(e, x.body[i].dst) == Get(e', x.body[i].dst)
  }

  lemma BodyRunsAlike(w: World, d: set<Reg>, x: Block, e: Env, e': Env, m: Mem)
    requires Clean(d, x) && AgreeOff(d, e, e')
    ensures var r, r' := ExecBody(w, x.body, e, m), ExecBody(w, x.body, e', m);
      if r.Ran? then
        && r'.Ran? && r.mem == r'.mem && AgreeOff(d, r.env, r'.env)
        && (forall i :: 0 <= i < |x.body| && !x.body[i].op.dbg && x.body[i].op.ty != Void ==>
             Get(r.env, x.body[i].dst) == Get(r'.env, x.body[i].dst))
        && Vals(w, x.term.uses, r.env) == Vals(w, x.term.uses, r'.env)
      else r == r'
  {
    CleanWork(d, x);
    LiveRuns(w, x, e, m);
    LiveRuns(w, x, e', m);
    SameWorkRuns(w, d, Live(x), Live(x), e, e', m);
    var r, r' := ExecBody(w, x.body, e, m), ExecBody(w, x.body, e', m);
    if r.Ran? {
      ValsAgree(w, d, x.term.uses, r.env, r'.env);
      forall i | 0 <= i < |x.body| && !x.body[i].op.dbg && x.body[i].op.ty != Void
        ensures Get(r.env, x.body[i].dst) == Get(r'.env, x.body[i].dst)
      {
        var k :| 0 <= k < |Live(x)| && Live(x)[k] == x.body[i];
      }
    }
  }

  lemma CleanRuns(w: World, d: set<Reg>, x: Block, p: Label, e: Env, p': Label, e': Env, m: Mem)
    requires Clean(d, x) && AgreeOff(d, e, e') && PhisAgree(w, x.phis, p, e, x.phis, p', e')
    ensures var r, r' := EnterBlock(w, x, p, e, m), EnterBlock(w, x, p', e', m);
      if r.Ran? then
        && r'.Ran? && r.mem == r'.mem && AgreeOff(d, r.env, r'.env) && BlockAgrees(x, r.env, r'.env)
        && Vals(w, x.term.uses, r.env) == Vals(w, x.term.uses, r'.env)
      else r == r'
  {
    var e1, e1' := EvalPhis(w, x.phis, p, e, e), EvalPhis(w, x.phis, p', e', e');
    SamePhisRun(w, d, x.phis, p, p', e, e', e, e');
    PhiResults(w, x, p, e, x, p', e');
    BodyRunsAlike(w, d, x, e1, e1', m);
    if ExecBody(w, x.body, e1, m).Ran? {
      PhiResultsKept(w, x, x, e1, e1', m);
    }
  }

  /** PHIs that write in d only. */
  lemma PhisInside(w: World, d: set<Reg>, x: Block, p: Label, e: Env, y: Block, p': Label, e': Env)
    requires WritesIn(d, x) && WritesIn(d, y) && AgreeOff(d, e, e')
    ensures AgreeOff(d, EvalPhis(w, x.phis, p, e, e), EvalPhis(w, y.phis, p', e', e'))
  {
    BodyWritesIn(d, x);
    BodyWritesIn(d, y);
    forall r | r !in d
      ensures Get(EvalPhis(w, x.phis, p, e, e), r) == Get(EvalPhis(w, y.phis, p', e', e'), r)
    {
      EvalPhisFrame(w, x.phis, p, e, e, r);
      EvalPhisFrame(w, y.phis, p', e', e', r);
    }
  }

  lemma SameBodiesRun(w: World, d: set<Reg>, x: Block, y: Block, e: Env, e': Env, m: Mem)
    requires |Live(x)| == |Live(y)| && SameWork(d, Live(x), Live(y)) && AgreeOff(d, e, e')
    ensures var r, r' := ExecBody(w, x.body, e, m), ExecBody(w, y.body, e', m);
      if r.Ran? then
        r'.Ran? && r.mem == r'.mem && AgreeOff(d, r.env, r'.env) && SameResults(Live(x), Live(y), r.env, r'.env)
      else r == r'
  {
    LiveRuns(w, x, e, m);
    LiveRuns(w, y, e', m);
    SameWorkRuns(w, d, Live(x), Live(y), e, e', m);
  }

  /** Two blocks with the same code that write in d only, entered where their PHIs read the same. */
  lemma SameCodeRuns(w: World, d: set<Reg>, x: Block, y: Block, p: Label, e: Env, p': Label, e': Env, m: Mem)
    requires SameCode(x, y) && Clean(d, x) && Clean(d, y) && WritesIn(d, x) && WritesIn(d, y)
    requires AgreeOff(d, e, e') && PhisAgree(w, x.phis, p, e, y.phis, p', e')
    ensures var r, r' := EnterBlock(w, x, p, e, m), EnterBlock(w, y, p', e', m);
      if r.Ran? then
        && r'.Ran? && r.mem == r'.mem && AgreeOff(d, r.env, r'.env)
        && SamePhiResults(x.phis, y.phis, r.env, r'.env) && SameResults(Live(x), Live(y), r.env, r'.env)
      else r == r'
  {
    var e1, e1' := EvalPhis(w, x.phis, p, e, e), EvalPhis(w, y.phis, p', e', e');
    SameCodeWork(d, x, y);
    PhisInside(w, d, x, p, e, y, p', e');
    PhiResults(w, x, p, e, y, p', e');
    SameBodiesRun(w, d, x, y, e1, e1', m);
    if ExecBody(w, x.body, e1, m).Ran? {
      PhiResultsKept(w, x, y, e1, e1', m);
    }
  }

  // ----- What a good pair gives -----

  /** The registers the two merged blocks write. */
  ghost function Own(x: Block, y: Block): (d: set<Reg>)
    ensures WritesIn(d, x) && WritesIn(d, y)
  {
    (set i | 0 <= i < Count(x) :: DstAt(x, i)) + (set i | 0 <= i < Count(y) :: DstAt(y, i))
  }

  ghost function OwnOf(f: Func, a: Label, b: Label): set<Reg>
    requires a in f.blocks && b in f.blocks
  {
    Own(f.blocks[a], f.blocks[b])
  }

  lemma OwnPosition(f: Func, a: Label, b: Label, r: Reg) returns (x: Label, i: nat)
    requires a in f.blocks && b in f.blocks && r in OwnOf(f, a, b)
    ensures (x == a || x == b) && x in f.blocks && i < Count(f.blocks[x]) && DstAt(f.blocks[x], i) == r
  {
    x := if exists k :: 0 <= k < Count(f.blocks[a]) && DstAt(f.blocks[a], k) == r then a else b;
    i :| 0 <= i < Count(f.blocks[x]) && DstAt(f.blocks[x], i) == r;
  }

  /** Bodies and terminators never read a register of a merged block. */
  lemma SiteAvoidsOwn(f: Func, a: Label, b: Label, s: Site, r: Reg)
    requires GoodPair(f, a, b) && UsedAt(f, s, r) && !IsPhiAt(f.blocks[s.l], s.i)
    ensures r !in OwnOf(f, a, b)
  {
    if r in OwnOf(f, a, b) {
      var x, j := OwnPosition(f, a, b, r);
      OnlyUseIsPhi(f, a, b, x, j, s);
    }
  }

  lemma BlockIsClean(f: Func, a: Label, b: Label, l: Label)
    requires GoodPair(f, a, b) && l in f.blocks
    ensures Clean(OwnOf(f, a, b), f.blocks[l])
  {
    BlockDefsDistinct(f, l);
    var x := f.blocks[l];
    forall i, k | 0 <= i < |x.body| && !x.body[i].op.dbg && 0 <= k < |x.body[i].args| && x.body[i].args[k].Ref?
      ensures x.body[i].args[k].r !in OwnOf(f, a, b)
    {
      SiteAvoidsOwn(f, a, b, Site(l, |x.phis| + i, k), x.body[i].args[k].r);
    }
    forall k | 0 <= k < |x.term.uses| && x.term.uses[k].Ref?
      ensures x.term.uses[k].r !in OwnOf(f, a, b)
    {
      SiteAvoidsOwn(f, a, b, Site(l, Count(x), k), x.term.uses[k].r);
    }
  }

  ghost predicate PairMatches(x: Block, i: nat, y: Block, j: nat)
    requires i < Count(x) && j < Count(y)
  {
    SameOperation(x, i, y, j) && OperandsAt(x, i) == OperandsAt(y, j)
  }

  ghost predicate CodeMatches(x: Block, y: Block) {
    && |x.phis| == |y.phis| && |NonDbg(x)| == |NonDbg(y)|
    && forall k :: 0 <= k < |NonDbg(x)| ==> PairMatches(x, NonDbg(x)[k], y, NonDbg(y)[k])
  }

  lemma CodeMatchesOf(f: Func, a: Label, b: Label)
    requires a in f.blocks && b in f.blocks && BodiesMatch(f, a, b)
    ensures CodeMatches(f.blocks[a], f.blocks[b])
  {
    PhiCountsAgree(f, a, b);
    forall k | 0 <= k < |NonDbg(f.blocks[a])|
      ensures PairMatches(f.blocks[a], NonDbg(f.blocks[a])[k], f.blocks[b], NonDbg(f.blocks[b])[k])
    {
      assert CanMergeInstructions(f, a, NonDbg(f.blocks[a])[k], b, NonDbg(f.blocks[b])[k]);
    }
  }

  lemma PairCode(x: Block, i: nat, y: Block, j: nat)
    requires i < |x.body| && j < |y.body|
    requires !x.body[i].op.dbg && PairMatches(x, |x.phis| + i, y, |y.phis| + j)
    ensures x.body[i].op == y.body[j].op && x.body[i].args == y.body[j].args
  {
    assert OperandsAt(x, |x.phis| + i) == x.body[i].args && OperandsAt(y, |y.phis| + j) == y.body[j].args;
  }

  lemma LiveIs(x: Block)
    ensures |NonDbg(x)| == |x.phis| + |Live(x)|
    ensures forall k :: 0 <= k < |x.phis| ==> NonDbg(x)[k] == k
    ensures forall k :: |x.phis| <= k < |NonDbg(x)| ==>
      |x.phis| <= NonDbg(x)[k] < Count(x) && Live(x)[k - |x.phis|] == x.body[NonDbg(x)[k] - |x.phis|]
  {
    StripIs(x, |x.body|);
  }

  lemma LiveFaces(x: Block, y: Block, k: nat)
    requires CodeMatches(x, y) && |x.phis| <= k < |NonDbg(x)|
    ensures k - |x.phis| < |Live(x)| == |Live(y)|
    ensures Live(x)[k - |x.phis|].op == Live(y)[k - |x.phis|].op && Live(x)[k - |x.phis|].args == Live(y)[k - |x.phis|].args
  {
    LiveIs(x);
    LiveIs(y);
    NonDbgUpToIs(x, Count(x));
    var m := |x.phis|;
    assert PairMatches(x, NonDbg(x)[k], y, NonDbg(y)[k]);
    PairCode(x, NonDbg(x)[k] - m, y, NonDbg(y)[k] - m);
  }

  lemma SameCodeOf(x: Block, y: Block)
    requires CodeMatches(x, y)
    ensures SameCode(x, y)
  {
    LiveIs(x);
    LiveIs(y);
    forall k | 0 <= k < |Live(x)|
      ensures Live(x)[k].op == Live(y)[k].op && Live(x)[k].args == Live(y)[k].args
    {
      LiveFaces(x, y, |x.phis| + k);
    }
  }

  /** Facing PHIs and instructions have the same value. */
  lemma FacingResults(x: Block, y: Block, r: Reg, q: Reg, e: Env, e': Env)
    requires SameCode(x, y) && FacingDefs(x, y, r, q)
    requires SamePhiResults(x.phis, y.phis, e, e') && SameResults(Live(x), Live(y), e, e')
    ensures Get(e, r) == Get(e', q)
  {
    var i: nat, j: nat :| FacingAt(x, y, r, q, i, j);
    var k :| 0 <= k < |NonDbg(x)| && k < |NonDbg(y)| && NonDbg(x)[k] == i && NonDbg(y)[k] == j;
    LiveIs(x);
    LiveIs(y);
    if k >= |x.phis| {
      assert Live(x)[k - |x.phis|].dst == r && Live(y)[k - |x.phis|].dst == q;
    }
  }

  // ----- The simulation -----

  /** The merged function is at the block the original block was renamed to, sees the same memory
      and the same values outside the merged blocks, and its PHIs are about to read what the
      original's PHIs read. */
  ghost predicate Related(w: World, f: Func, a: Label, b: Label, c: Config, c': Config)
    requires a in f.blocks && b in f.blocks
  {
    match c
    case At(p, l, e, m) =>
      && c'.At? && l in f.blocks && c'.cur == Ren(a, b, l) && c'.mem == m
      && AgreeOff(OwnOf(f, a, b), e, c'.env)
      && PhisAgree(w, f.blocks[l].phis, p, e, f.blocks[Ren(a, b, l)].phis, c'.prev, c'.env)
    case Done(_, _) => c' == c
    case Crashed(_) => c' == c
  }

  /** A PHI entry for cur that names a merged block's register names one of cur's own. */
  lemma OwnEntry(f: Func, a: Label, b: Label, cur: Label, t: Label, i: nat) returns (j: nat)
    requires GoodPair(f, a, b) && f.Edge(cur, t) && t in f.blocks && i < |f.blocks[t].phis|
    requires Incoming(f.blocks[t].phis[i].incoming, cur).Ref?
    requires Incoming(f.blocks[t].phis[i].incoming, cur).r in OwnOf(f, a, b)
    ensures (cur == a || cur == b) && j < Count(f.blocks[cur])
    ensures Incoming(f.blocks[t].phis[i].incoming, cur) == Ref(DstAt(f.blocks[cur], j))
    ensures !DbgAt(f.blocks[cur], j) && TyAt(f.blocks[cur], j) != Void
  {
    var r := Incoming(f.blocks[t].phis[i].incoming, cur).r;
    var y;
    y, j := OwnPosition(f, a, b, r);
    var s := IncomingIsUse(f, t, i, cur);
    OnlyUseIsPhi(f, a, b, y, j, s);
    UsedIsNotDbg(f, y, j, s);
    SameEntry(f, t, i, cur, y, r, s);
  }

  lemma SameEntry(f: Func, t: Label, i: nat, p: Label, q: Label, r: Reg, s: Site)
    requires HasOneUse(f, r) && t in f.blocks && i < |f.blocks[t].phis|
    requires UsedAt(f, s, r) && s.l == t && s.i == i && s.k < |f.blocks[t].phis[i].incoming|
    requires f.blocks[t].phis[i].incoming[s.k].0 == p && Incoming(f.blocks[t].phis[i].incoming, q) == Ref(r)
    ensures p == q
  {
    var inc := f.blocks[t].phis[i].incoming;
    if !Lists(inc, q) {
      IncomingMissing(inc, q);
    }
    var k := IncomingAt(inc, q);
    assert UsedAt(f, Site(t, i, k), r);
    var _ := OneUse(f, r);
  }

  /** After a block, the next block's PHIs read registers of merged blocks only if they were just
      written. */
  lemma NextPhisAgree(w: World, f: Func, a: Label, b: Label, cur: Label, t: Label, e: Env, e': Env)
    requires GoodPair(f, a, b) && cur in f.blocks && cur != a && f.Edge(cur, t) && t in f.blocks
    requires AgreeOff(OwnOf(f, a, b), e, e') && BlockAgrees(f.blocks[cur], e, e')
    ensures PhisAgree(w, f.blocks[t].phis, cur, e, f.blocks[t].phis, cur, e')
  {
    var x := f.blocks[t];
    forall i | 0 <= i < |x.phis|
      ensures Val(w, Incoming(x.phis[i].incoming, cur), e) == Val(w, Incoming(x.phis[i].incoming, cur), e')
    {
      var v := Incoming(x.phis[i].incoming, cur);
      if v.Ref? && v.r in OwnOf(f, a, b) {
        var j := OwnEntry(f, a, b, cur, t, i);
      }
    }
  }

  lemma MatchedEntries(w: World, f: Func, a: Label, b: Label, cur: Label, e: Env)
    requires a in f.blocks && b in f.blocks && PhisMatch(f, a, b) && f.Edge(cur, a)
    requires |f.blocks[a].phis| == |f.blocks[b].phis|
    ensures PhisAgree(w, f.blocks[a].phis, cur, e, f.blocks[b].phis, cur, e)
  {
  }

  /** With matching PHIs it does not matter that the next block is b instead of a. */
  lemma RenamedPhisAgree(w: World, f: Func, a: Label, b: Label, cur: Label, t: Label, e: Env, e': Env)
    requires GoodPair(f, a, b) && PhisMatch(f, a, b) && cur in f.blocks && cur != a && f.Edge(cur, t) && t in f.blocks
    requires AgreeOff(OwnOf(f, a, b), e, e') && BlockAgrees(f.blocks[cur], e, e')
    ensures PhisAgree(w, f.blocks[t].phis, cur, e, f.blocks[Ren(a, b, t)].phis, cur, e')
  {
    NextPhisAgree(w, f, a, b, cur, t, e, e');
    if t == a {
      PhiCountsAgree(f, a, b);
      MatchedEntries(w, f, a, b, cur, e');
    }
  }

  lemma TargetsExist(f: Func, l: Label)
    requires f.order != [] && l in f.blocks && TermOk(f, f.blocks[l].term)
    ensures forall i :: 0 <= i < |f.blocks[l].term.targets| ==>
      f.blocks[l].term.targets[i] in f.blocks && f.Edge(l, f.blocks[l].term.targets[i])
  {
  }

  /** Leaving cur for t after environments that agree. */
  lemma LeaveRelated(w: World, f: Func, a: Label, b: Label, cur: Label, e: Env, e': Env, m: Mem)
    requires GoodPair(f, a, b) && PhisMatch(f, a, b) && cur in f.blocks && cur != a
    requires AgreeOff(OwnOf(f, a, b), e, e') && BlockAgrees(f.blocks[cur], e, e')
    requires Vals(w, f.blocks[cur].term.uses, e) == Vals(w, f.blocks[cur].term.uses, e')
    ensures Related(w, f, a, b, Leave(w, f.blocks[cur].term, cur, e, m),
                    Leave(w, RedirectBlock(f.blocks[cur], a, b).term, cur, e', m))
  {
    TargetsExist(f, cur);
    var c := Leave(w, f.blocks[cur].term, cur, e, m);
    if c.At? {
      RenamedPhisAgree(w, f, a, b, cur, c.cur, e, e');
    }
  }

  /** Entering the same block on both sides. */
  lemma SameBlockStep(w: World, f: Func, a: Label, b: Label, p: Label, l: Label, e: Env, m: Mem, p': Label, e': Env)
    requires GoodPair(f, a, b) && PhisMatch(f, a, b) && l in f.blocks && l != a
    requires AgreeOff(OwnOf(f, a, b), e, e') && PhisAgree(w, f.blocks[l].phis, p, e, f.blocks[l].phis, p', e')
    ensures Related(w, f, a, b, StepBlock(w, f.blocks[l], p, l, e, m),
                    StepBlock(w, RedirectBlock(f.blocks[l], a, b), p', l, e', m))
  {
    BlockIsClean(f, a, b, l);
    CleanRuns(w, OwnOf(f, a, b), f.blocks[l], p, e, p', e', m);
    var r, r' := EnterBlock(w, f.blocks[l], p, e, m), EnterBlock(w, f.blocks[l], p', e', m);
    if r.Ran? {
      LeaveRelated(w, f, a, b, l, r.env, r'.env, r.mem);
    }
  }

  lemma OutsideIsNotOwn(f: Func, a: Label, b: Label, v: Operand)
    requires GoodPair(f, a, b) && v.Ref? && !DefinedIn(f, a, v) && !DefinedIn(f, b, v)
    ensures v.r !in OwnOf(f, a, b)
  {
    if v.r in OwnOf(f, a, b) {
      var z, k := OwnPosition(f, a, b, v.r);
    }
  }

  /** One value from outside the blocks, or two values of the same rank in them. */
  ghost predicate Meet(x0: Block, y0: Block, x: Operand, y: Operand) {
    || (x == y && (x.Ref? ==> x.r !in Own(x0, y0)))
    || (x.Ref? && y.Ref? && FacingDefs(x0, y0, x.r, y.r))
  }

  lemma PhiValuesMeet(f: Func, a: Label, b: Label)
    requires GoodPair(f, a, b) && f.blocks[Succ(f, a)].phis != []
    ensures var inc := f.blocks[Succ(f, a)].phis[0].incoming;
      Meet(f.blocks[a], f.blocks[b], Incoming(inc, a), Incoming(inc, b))
  {
    var inc := f.blocks[Succ(f, a)].phis[0].incoming;
    var x, y := Incoming(inc, a), Incoming(inc, b);
    PhiValuesFace(f, a, b);
    if x.Ref? && !DefinedIn(f, a, x) && !DefinedIn(f, b, x) {
      OutsideIsNotOwn(f, a, b, x);
    }
  }

  lemma MeetValue(w: World, x0: Block, y0: Block, x: Operand, y: Operand, e: Env, e': Env)
    requires Meet(x0, y0, x, y) && AgreeOff(Own(x0, y0), e, e')
    requires SameCode(x0, y0) && SamePhiResults(x0.phis, y0.phis, e, e') && SameResults(Live(x0), Live(y0), e, e')
    ensures Val(w, x, e) == Val(w, y, e')
  {
    if x.Ref? && y.Ref? && FacingDefs(x0, y0, x.r, y.r) {
      FacingResults(x0, y0, x.r, y.r, e, e');
    }
  }

  /** The successor's PHI, if there is one, takes the same value from both blocks. */
  lemma SuccessorPhiAgrees(w: World, f: Func, a: Label, b: Label, e: Env, e': Env, phi: Phi)
    requires GoodPair(f, a, b) && AgreeOff(OwnOf(f, a, b), e, e') && SameCode(f.blocks[a], f.blocks[b])
    requires SamePhiResults(f.blocks[a].phis, f.blocks[b].phis, e, e')
    requires SameResults(Live(f.blocks[a]), Live(f.blocks[b]), e, e')
    requires f.blocks[Succ(f, a)].phis == [phi]
    ensures Val(w, Incoming(phi.incoming, a), e) == Val(w, Incoming(phi.incoming, b), e')
  {
    PhiValuesMeet(f, a, b);
    MeetValue(w, f.blocks[a], f.blocks[b], Incoming(phi.incoming, a), Incoming(phi.incoming, b), e, e');
  }

  lemma MergedPhisAgree(w: World, f: Func, a: Label, b: Label, e: Env, e': Env)
    requires GoodPair(f, a, b) && AgreeOff(OwnOf(f, a, b), e, e') && SameCode(f.blocks[a], f.blocks[b])
    requires SamePhiResults(f.blocks[a].phis, f.blocks[b].phis, e, e')
    requires SameResults(Live(f.blocks[a]), Live(f.blocks[b]), e, e')
    ensures var s := f.blocks[Succ(f, a)].phis; PhisAgree(w, s, a, e, s, b, e')
  {
    var phis := f.blocks[Succ(f, a)].phis;
    if phis != [] {
      assert phis == [phis[0]];
      SuccessorPhiAgrees(w, f, a, b, e, e', phis[0]);
    }
  }

  /** A block that branches to itself has no PHIs if they match: it would be a predecessor of b. */
  lemma SelfLoopIsBare(f: Func, a: Label, b: Label)
    requires GoodPair(f, a, b) && PhisMatch(f, a, b) && Succ(f, a) == a
    ensures f.blocks[a].phis == []
  {
    assert f.Edge(a, a) && !f.Edge(a, b);
  }

  lemma MergedLeave(w: World, f: Func, a: Label, b: Label, e: Env, e': Env, m: Mem)
    requires GoodPair(f, a, b) && PhisMatch(f, a, b)
    requires AgreeOff(OwnOf(f, a, b), e, e') && SameCode(f.blocks[a], f.blocks[b])
    requires SamePhiResults(f.blocks[a].phis, f.blocks[b].phis, e, e')
    requires SameResults(Live(f.blocks[a]), Live(f.blocks[b]), e, e')
    ensures Related(w, f, a, b, At(a, Succ(f, a), e, m), At(b, Ren(a, b, Succ(f, a)), e', m))
  {
    TargetsExist(f, a);
    MergedPhisAgree(w, f, a, b, e, e');
    if Succ(f, a) == a {
      SelfLoopIsBare(f, a, b);
      PhiCountsAgree(f, a, b);
    }
  }

  /** Entering a on the original side and b on the merged side. */
  lemma MergedBlockStep(w: World, f: Func, a: Label, b: Label, p: Label, e: Env, m: Mem, p': Label, e': Env)
    requires GoodPair(f, a, b) && PhisMatch(f, a, b) && AgreeOff(OwnOf(f, a, b), e, e')
    requires PhisAgree(w, f.blocks[a].phis, p, e, f.blocks[b].phis, p', e')
    ensures Related(w, f, a, b, StepBlock(w, f.blocks[a], p, a, e, m),
                    StepBlock(w, RedirectBlock(f.blocks[b], a, b), p', b, e', m))
  {
    var d, x, y := OwnOf(f, a, b), f.blocks[a], f.blocks[b];
    CodeMatchesOf(f, a, b);
    SameCodeOf(x, y);
    BlockIsClean(f, a, b, a);
    BlockIsClean(f, a, b, b);
    SameCodeRuns(w, d, x, y, p, e, p', e', m);
    var r, r' := EnterBlock(w, x, p, e, m), EnterBlock(w, y, p', e', m);
    if r.Ran? {
      MergedLeave(w, f, a, b, r.env, r'.env, r.mem);
      assert Leave(w, x.term, a, r.env, r.mem) == At(a, Succ(f, a), r.env, r.mem);
    }
  }

  lemma StepRelated(w: World, f: Func, a: Label, b: Label, c: Config, c': Config)
    requires GoodPair(f, a, b) && PhisMatch(f, a, b) && Related(w, f, a, b, c, c')
    ensures Related(w, f, a, b, Step(w, f, c), Step(w, Redirect(f, a, b), c'))
  {
    if c.At? {
      if c.cur == a {
        MergedBlockStep(w, f, a, b, c.prev, c.env, c.mem, c'.prev, c'.env);
      } else {
        SameBlockStep(w, f, a, b, c.prev, c.cur, c.env, c.mem, c'.prev, c'.env);
      }
    }
  }

  lemma {:induction false} RunRelated(w: World, f: Func, a: Label, b: Label, n: nat)
    requires GoodPair(f, a, b) && PhisMatch(f, a, b)
    ensures Related(w, f, a, b, Run(w, f, n), Run(w, Redirect(f, a, b), n))
  {
    if n > 0 {
      RunRelated(w, f, a, b, n - 1);
      StepRelated(w, f, a, b, Run(w, f, n - 1), Run(w, Redirect(f, a, b), n - 1));
    }
  }
}
