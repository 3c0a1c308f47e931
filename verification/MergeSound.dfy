/** One merge preserves the meaning of the function. */
module MergeSound {
  import opened IR
  import opened Semantics
  import opened MergeSpec

  // ----- Debug intrinsics do not run -----

  function Strip(body: seq<Instr>, n: nat): seq<Instr>
    requires n <= |body|
  {
    if n == 0 then [] else Strip(body, n - 1) + (if body[n - 1].op.dbg then [] else [body[n - 1]])
  }

  lemma {:induction false} StripRuns(w: World, body: seq<Instr>, n: nat, env: Env, mem: Mem)
    requires n <= |body|
    ensures ExecBody(w, Strip(body, n), env, mem) == ExecBody(w, body[..n], env, mem)
  {
    if n > 0 {
      StripRuns(w, body, n - 1, env, mem);
      var i := body[n - 1];
      assert body[..n] == body[..n - 1] + [i];
      ExecBodyAppend(w, body[..n - 1], [i], env, mem);
      if i.op.dbg {
        assert Strip(body, n) == Strip(body, n - 1);
      } else {
        ExecBodyAppend(w, Strip(body, n - 1), [i], env, mem);
      }
    }
  }

  /** The PHIs come first, then the instructions of the body that are not debug intrinsics. */
  lemma {:induction false} StripIs(b: Block, n: nat)
    requires n <= |b.body|
    ensures var ps, m := NonDbgUpTo(b, |b.phis| + n), |b.phis|;
      && |ps| == m + |Strip(b.body, n)|
      && (forall k :: 0 <= k < m ==> ps[k] == k)
      && forall k :: m <= k < |ps| ==> m <= ps[k] < Count(b) && b.body[ps[k] - m] == Strip(b.body, n)[k - m]
  {
    if n > 0 {
      StripIs(b, n - 1);
    } else {
      PhisAreNotDbg(b, |b.phis|);
    }
  }

  lemma {:induction false} PhisAreNotDbg(b: Block, n: nat)
    requires n <= |b.phis|
    ensures |NonDbgUpTo(b, n)| == n && forall k :: 0 <= k < n ==> NonDbgUpTo(b, n)[k] == k
  {
    if n > 0 {
      PhisAreNotDbg(b, n - 1);
    }
  }

  // ----- Two bodies that do the same in environments that differ on D only -----

  ghost predicate SameWork(d: set<Reg>, p: seq<Instr>, q: seq<Instr>) {
    && |p| == |q|
    && (forall k :: 0 <= k < |p| ==>
         && p[k].op == q[k].op && !p[k].op.dbg && p[k].args == q[k].args && Avoids(d, p[k].args)
         && (p[k].dst == q[k].dst || (p[k].dst in d && q[k].dst in d)))
    && (forall j, k :: 0 <= j < k < |p| ==> p[j].dst != p[k].dst && q[j].dst != q[k].dst)
  }

  ghost predicate SameResults(p: seq<Instr>, q: seq<Instr>, e1: Env, e2: Env)
    requires |p| == |q|
  {
    forall k :: 0 <= k < |p| && p[k].op.ty != Void ==> Get(e1, p[k].dst) == Get(e2, q[k].dst)
  }

  lemma {:induction false} SameWorkRuns(w: World, d: set<Reg>, p: seq<Instr>, q: seq<Instr>, e1: Env, e2: Env, mem: Mem)
    requires SameWork(d, p, q) && AgreeOff(d, e1, e2)
    ensures var x, y := ExecBody(w, p, e1, mem), ExecBody(w, q, e2, mem);
      if x.Ran? then
        y.Ran? && x.mem == y.mem && AgreeOff(d, x.env, y.env) && SameResults(p, q, x.env, y.env)
      else x == y
  {
    if p != [] {
      ValsAgree(w, d, p[0].args, e1, e2);
      var x, y := ExecInstr(w, p[0], e1, mem), ExecInstr(w, q[0], e2, mem);
      if x.Ran? {
        SameWorkRuns(w, d, p[1..], q[1..], x.env, y.env, x.mem);
        var x', y' := ExecBody(w, p[1..], x.env, x.mem), ExecBody(w, q[1..], y.env, y.mem);
        if x'.Ran? {
          ExecBodyFrame(w, p[1..], x.env, x.mem, p[0].dst);
          ExecBodyFrame(w, q[1..], y.env, y.mem, q[0].dst);
          forall k | 0 <= k < |p| && p[k].op.ty != Void
            ensures Get(x'.env, p[k].dst) == Get(y'.env, q[k].dst)
          {
            if k > 0 {
              assert p[k] == p[1..][k - 1] && q[k] == q[1..][k - 1];
            }
          }
        }
      }
    }
  }

  // ----- What the one-use rules imply -----

  /** A well-formed function, except that blocks no edge enters may keep PHI entries for blocks
      that were predecessors once. */
  ghost predicate EnteredSound(f: Func) {
    && Shape(f)
    && f.blocks[f.order[0]].phis == []
    && (forall l :: l in f.blocks ==> TermOk(f, f.blocks[l].term))
    && UniqueDefs(f)
    && RefsDefined(f)
    && (forall p, l :: f.Edge(p, l) && l in f.blocks ==> PhisCover(f, l))
  }

  /** a is merged into b. */
  ghost predicate GoodPair(f: Func, a: Label, b: Label) {
    EnteredSound(f) && Mergeable(f, {}, a, b)
  }

  function Succ(f: Func, a: Label): Label
    requires a in f.blocks && EndsInBranch(f, a)
  {
    f.blocks[a].term.targets[0]
  }

  /** The instructions at positions i of a and j of b face each other in the comparison. */
  ghost predicate Facing(f: Func, a: Label, i: nat, b: Label, j: nat)
    requires a in f.blocks && b in f.blocks
  {
    && i < Count(f.blocks[a]) && j < Count(f.blocks[b])
    && CanMergeInstructions(f, a, i, b, j)
    && SameRank(f.blocks[a], i, f.blocks[b], j)
  }

  ghost predicate SameRank(x: Block, i: nat, y: Block, j: nat) {
    exists k :: 0 <= k < |NonDbg(x)| && k < |NonDbg(y)| && NonDbg(x)[k] == i && NonDbg(y)[k] == j
  }

  lemma FacingOf(f: Func, a: Label, b: Label, j: nat) returns (i: nat)
    requires GoodPair(f, a, b) && j < Count(f.blocks[b]) && !DbgAt(f.blocks[b], j)
    ensures Facing(f, a, i, b, j) && !DbgAt(f.blocks[a], i)
  {
    NonDbgUpToIs(f.blocks[b], Count(f.blocks[b]));
    NonDbgUpToIs(f.blocks[a], Count(f.blocks[a]));
    var k :| 0 <= k < |NonDbg(f.blocks[b])| && NonDbg(f.blocks[b])[k] == j;
    i := NonDbg(f.blocks[a])[k];
  }

  /** A position of b has one of a with the same operation on the same operands. */
  lemma FacingOps(f: Func, a: Label, b: Label, j: nat) returns (i: nat)
    requires GoodPair(f, a, b) && j < Count(f.blocks[b]) && !DbgAt(f.blocks[b], j)
    ensures i < Count(f.blocks[a]) && !DbgAt(f.blocks[a], i) && SameOperation(f.blocks[a], i, f.blocks[b], j)
    ensures OperandsAt(f.blocks[a], i) == OperandsAt(f.blocks[b], j)
  {
    i := FacingOf(f, a, b, j);
  }

  lemma FacingOf'(f: Func, a: Label, b: Label, i: nat) returns (j: nat)
    requires GoodPair(f, a, b) && i < Count(f.blocks[a]) && !DbgAt(f.blocks[a], i)
    ensures Facing(f, a, i, b, j) && !DbgAt(f.blocks[b], j)
  {
    NonDbgUpToIs(f.blocks[b], Count(f.blocks[b]));
    NonDbgUpToIs(f.blocks[a], Count(f.blocks[a]));
    var k :| 0 <= k < |NonDbg(f.blocks[a])| && NonDbg(f.blocks[a])[k] == i;
    j := NonDbg(f.blocks[b])[k];
  }

  lemma PhisFirst(x: Block)
    ensures |x.phis| <= |NonDbg(x)|
    ensures forall k :: 0 <= k < |x.phis| ==> NonDbg(x)[k] == k
    ensures forall k :: |x.phis| <= k < |NonDbg(x)| ==> NonDbg(x)[k] >= |x.phis|
  {
    StripIs(x, |x.body|);
  }

  lemma FacingPhi(f: Func, a: Label, b: Label, k: nat)
    requires a in f.blocks && b in f.blocks && BodiesMatch(f, a, b)
    requires k < |f.blocks[a].phis| || k < |f.blocks[b].phis|
    ensures k < |f.blocks[a].phis| && k < |f.blocks[b].phis| && CanMergeInstructions(f, a, k, b, k)
  {
    PhisFirst(f.blocks[a]);
    PhisFirst(f.blocks[b]);
    assert CanMergeInstructions(f, a, NonDbg(f.blocks[a])[k], b, NonDbg(f.blocks[b])[k]);
  }

  /** The two blocks have as many PHIs. */
  lemma PhiCountsAgree(f: Func, a: Label, b: Label)
    requires a in f.blocks && b in f.blocks && BodiesMatch(f, a, b)
    ensures |f.blocks[a].phis| == |f.blocks[b].phis|
  {
    if |f.blocks[a].phis| < |f.blocks[b].phis| {
      FacingPhi(f, a, b, |f.blocks[a].phis|);
    } else if |f.blocks[b].phis| < |f.blocks[a].phis| {
      FacingPhi(f, a, b, |f.blocks[b].phis|);
    }
  }

  /** A use inside one of the blocks is matched by a use inside the other. */
  lemma UseIsDoubled(f: Func, a: Label, b: Label, x: Label, s: Site, r: Reg)
    requires GoodPair(f, a, b) && (x == a || x == b) && s.l == x && UsedAt(f, s, r)
    ensures exists t: Site :: t.l != x && UsedAt(f, t, r)
  {
    assert TermOk(f, f.blocks[x].term);
    assert s.i < Count(f.blocks[x]);
    if x == a {
      var j := FacingOf'(f, a, b, s.i);
      assert UsedAt(f, Site(b, j, s.k), r) && Site(b, j, s.k).l != x;
    } else {
      var i := FacingOf(f, a, b, s.i);
      assert UsedAt(f, Site(a, i, s.k), r) && Site(a, i, s.k).l != x;
    }
  }

  /** The only use a value of a merged block can have is the successor's PHI, for that block's edge. */
  lemma OnlyUseIsPhi(f: Func, a: Label, b: Label, x: Label, i: nat, s: Site)
    requires GoodPair(f, a, b) && (x == a || x == b)
    requires i < Count(f.blocks[x]) && UsedAt(f, s, DstAt(f.blocks[x], i))
    ensures HasOneUse(f, DstAt(f.blocks[x], i))
    ensures s.l == Succ(f, a) && IsPhiAt(f.blocks[s.l], s.i)
    ensures Incoming(f.blocks[s.l].phis[s.i].incoming, x) == Ref(DstAt(f.blocks[x], i))
  {
    var r := DstAt(f.blocks[x], i);
    UsedIsNotDbg(f, x, i, s);
    if x == a {
      var _ := FacingOf'(f, a, b, i);
    } else {
      var _ := FacingOf(f, a, b, i);
    }
    assert s in UseSites(f, r);
    assert HasOneUse(f, r) && CanRemoveInst(f, x, i);
    var only := OneUse(f, r);
    assert only == s;
    if s.l == x {
      UseIsDoubled(f, a, b, x, s, r);
    }
  }

  lemma IncomingIsUse(f: Func, l: Label, i: nat, p: Label) returns (s: Site)
    requires l in f.blocks && i < |f.blocks[l].phis| && PhisCover(f, l) && f.Edge(p, l)
    requires Incoming(f.blocks[l].phis[i].incoming, p).Ref?
    ensures UsedAt(f, s, Incoming(f.blocks[l].phis[i].incoming, p).r)
    ensures s.l == l && s.i == i && s.k < |f.blocks[l].phis[i].incoming| && f.blocks[l].phis[i].incoming[s.k].0 == p
  {
    var k := IncomingAt(f.blocks[l].phis[i].incoming, p);
    s := Site(l, i, k);
  }

  lemma UsedEntersPhi(f: Func, a: Label, b: Label, x: Label, i: nat)
    requires GoodPair(f, a, b) && (x == a || x == b) && i < Count(f.blocks[x]) && !UseEmpty(f, DstAt(f.blocks[x], i))
    ensures f.blocks[Succ(f, a)].phis != []
    ensures Incoming(f.blocks[Succ(f, a)].phis[0].incoming, x) == Ref(DstAt(f.blocks[x], i))
  {
    var s :| s in UseSites(f, DstAt(f.blocks[x], i));
    OnlyUseIsPhi(f, a, b, x, i, s);
    assert s.i == 0;
  }

  /** At most one instruction of a merged block has a use. */
  lemma AtMostOneUsed(f: Func, a: Label, b: Label, x: Label, i: nat, j: nat)
    requires GoodPair(f, a, b) && (x == a || x == b) && i < Count(f.blocks[x]) && j < Count(f.blocks[x])
    requires !UseEmpty(f, DstAt(f.blocks[x], i)) && !UseEmpty(f, DstAt(f.blocks[x], j))
    ensures i == j
  {
    UsedEntersPhi(f, a, b, x, i);
    UsedEntersPhi(f, a, b, x, j);
    OneDef(f, x, i, x, j);
  }

  /** r in x and q in y are defined by instructions of the same rank. */
  ghost predicate FacingDefs(x: Block, y: Block, r: Reg, q: Reg) {
    exists i: nat, j: nat :: FacingAt(x, y, r, q, i, j)
  }

  ghost predicate FacingAt(x: Block, y: Block, r: Reg, q: Reg, i: nat, j: nat) {
    && i < Count(x) && j < Count(y) && SameRank(x, i, y, j)
    && !DbgAt(x, i) && TyAt(x, i) != Void
    && DstAt(x, i) == r && DstAt(y, j) == q
  }

  lemma NotOwn(f: Func, a: Label, b: Label, x: Label, r: Reg, s: Site)
    requires GoodPair(f, a, b) && (x == a || x == b) && UsedAt(f, s, r) && !HasOneUse(f, r)
    ensures !DefinedIn(f, x, Ref(r))
  {
    if DefinedIn(f, x, Ref(r)) {
      var i :| 0 <= i < Count(f.blocks[x]) && DstAt(f.blocks[x], i) == r;
      OnlyUseIsPhi(f, a, b, x, i, s);
    }
  }

  lemma SharedValueIsOutside(f: Func, a: Label, b: Label, x: Operand)
    requires GoodPair(f, a, b) && f.blocks[Succ(f, a)].phis != []
    requires Incoming(f.blocks[Succ(f, a)].phis[0].incoming, a) == x
    requires Incoming(f.blocks[Succ(f, a)].phis[0].incoming, b) == x
    ensures !DefinedIn(f, a, x) && !DefinedIn(f, b, x)
  {
    var s := Succ(f, a);
    assert f.Edge(a, s) && f.Edge(b, s);
    if x.Ref? {
      var sa := IncomingIsUse(f, s, 0, a);
      var sb := IncomingIsUse(f, s, 0, b);
      assert sa in UseSites(f, x.r) && sb in UseSites(f, x.r);
      TwoElements(UseSites(f, x.r), sa, sb);
      NotOwn(f, a, b, a, x.r, sa);
      NotOwn(f, a, b, b, x.r, sa);
    }
  }

  lemma FacedHasUse(f: Func, a: Label, b: Label, i: nat, j: nat)
    requires a in f.blocks && b in f.blocks && Facing(f, a, i, b, j) && !UseEmpty(f, DstAt(f.blocks[a], i))
    ensures !UseEmpty(f, DstAt(f.blocks[b], j))
  {
  }

  lemma UsedIsNotDbg(f: Func, l: Label, i: nat, s: Site)
    requires UniqueDefs(f) && RefsDefined(f) && l in f.blocks && i < Count(f.blocks[l])
    requires UsedAt(f, s, DstAt(f.blocks[l], i))
    ensures !DbgAt(f.blocks[l], i) && TyAt(f.blocks[l], i) != Void
  {
    var m, j :| DefinedAt(f, m, j, DstAt(f.blocks[l], i));
    OneDef(f, l, i, m, j);
  }

  lemma OwnValuesFace(f: Func, a: Label, b: Label, i: nat)
    requires GoodPair(f, a, b) && f.blocks[Succ(f, a)].phis != []
    requires i < Count(f.blocks[a])
    requires Incoming(f.blocks[Succ(f, a)].phis[0].incoming, a) == Ref(DstAt(f.blocks[a], i))
    ensures Incoming(f.blocks[Succ(f, a)].phis[0].incoming, b).Ref?
    ensures FacingDefs(f.blocks[a], f.blocks[b], DstAt(f.blocks[a], i), Incoming(f.blocks[Succ(f, a)].phis[0].incoming, b).r)
  {
    assert f.Edge(a, Succ(f, a));
    var sa := IncomingIsUse(f, Succ(f, a), 0, a);
    UsedIsNotDbg(f, a, i, sa);
    assert sa in UseSites(f, DstAt(f.blocks[a], i));
    var j := FacingOf'(f, a, b, i);
    FacedHasUse(f, a, b, i, j);
    UsedEntersPhi(f, a, b, b, j);
    assert FacingAt(f.blocks[a], f.blocks[b], DstAt(f.blocks[a], i), DstAt(f.blocks[b], j), i, j);
  }

  /** The values the successor's PHI takes from the two blocks are one value from outside, or sit
      at facing positions. */
  lemma PhiValuesFace(f: Func, a: Label, b: Label)
    requires GoodPair(f, a, b) && f.blocks[Succ(f, a)].phis != []
    ensures var x, y := Incoming(f.blocks[Succ(f, a)].phis[0].incoming, a), Incoming(f.blocks[Succ(f, a)].phis[0].incoming, b);
      || (x == y && !DefinedIn(f, a, x) && !DefinedIn(f, b, x))
      || (x.Ref? && y.Ref? && FacingDefs(f.blocks[a], f.blocks[b], x.r, y.r))
  {
    var inc := f.blocks[Succ(f, a)].phis[0].incoming;
    var x, y := Incoming(inc, a), Incoming(inc, b);
    if x == y {
      SharedValueIsOutside(f, a, b, x);
    } else {
      var i :| 0 <= i < Count(f.blocks[a]) && DstAt(f.blocks[a], i) == x.r;
      OwnValuesFace(f, a, b, i);
    }
  }
}
