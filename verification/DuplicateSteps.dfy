/** The function while cloneBB is at work: what it is after the first i instructions of the tail. */
module DuplicateSteps {
  import opened IR
  import opened Renaming
  import opened DuplicateSpec
  import opened DuplicateSound

  /** The instructions without a value among the first i; they stay in the tail until the end. */
  function Kept(body: seq<Instr>, i: nat): seq<Instr>
    requires i <= |body|
  {
    if i == 0 then [] else Kept(body, i - 1) + (if body[i - 1].op.ty == Void then [body[i - 1]] else [])
  }

  function TailAt(f: Func, l: Label, n: nat, k: nat, i: nat): Block
    requires l in f.blocks && i <= |f.blocks[l].body|
  {
    var body, rho := f.blocks[l].body, Arm(f.blocks[l].body, n + 3, i);
    Block(TailPhis(body, n, k, i), SubBody(rho, Kept(body, i) + body[i..]), SubTerm(rho, f.blocks[l].term))
  }

  function ArmAt(f: Func, l: Label, n: nat, k: nat, a: nat, i: nat): Block
    requires l in f.blocks && i <= |f.blocks[l].body|
  {
    Block([], ArmBody(f.blocks[l].body, n + 1 + a, Arm(f.blocks[l].body, n + 3, i), i), JumpTo(k + 2))
  }

  /** The blocks other than the new ones, before any register was replaced. */
  function Plain(f: Func, l: Label, ctx: Operand, n: nat, k: nat, m: Label): Block
    requires l in f.blocks && m in f.blocks
  {
    if m == l then HeadBlock(PhisAfterSplit(f, l, k + 2, l), ctx, n, k) else OtherBlock(f, l, k, m)
  }

  function BlockAt(f: Func, l: Label, ctx: Operand, n: nat, k: nat, i: nat, m: Label): Block
    requires l in f.blocks && i <= |f.blocks[l].body| && (m in f.blocks || k <= m <= k + 2)
  {
    if m == k + 2 then TailAt(f, l, n, k, i)
    else if m == k || m == k + 1 then ArmAt(f, l, n, k, m - k, i)
    else SubBlock(Arm(f.blocks[l].body, n + 3, i), Plain(f, l, ctx, n, k, m))
  }

  function CloneAt(f: Func, l: Label, ctx: Operand, n: nat, k: nat, i: nat): Func
    requires l in f.blocks && i <= |f.blocks[l].body|
  {
    Func(InsertAfter(f.order, l, [k, k + 1, k + 2]),
         map m | m in f.blocks.Keys + {k, k + 1, k + 2} :: BlockAt(f, l, ctx, n, k, i, m))
  }

  /** Register r replaced by p throughout a function. */
  function SubFunc(m: map<Reg, Reg>, f: Func): Func {
    Func(f.order, map l | l in f.blocks :: SubBlock(m, f.blocks[l]))
  }

  // ----- Composing replacements -----

  lemma SubOpThen(m: map<Reg, Reg>, d: Reg, p: Reg, x: Operand)
    requires d !in m && forall r :: r in m ==> m[r] != d
    ensures SubOp(map[d := p], SubOp(m, x)) == SubOp(m[d := p], x)
  {
  }

  lemma SubOpsThen(m: map<Reg, Reg>, d: Reg, p: Reg, xs: seq<Operand>)
    requires d !in m && forall r :: r in m ==> m[r] != d
    ensures SubOps(map[d := p], SubOps(m, xs)) == SubOps(m[d := p], xs)
  {
    forall i | 0 <= i < |xs|
      ensures SubOps(map[d := p], SubOps(m, xs))[i] == SubOps(m[d := p], xs)[i]
    {
      SubOpThen(m, d, p, xs[i]);
    }
  }

  lemma SubBodyThen(m: map<Reg, Reg>, d: Reg, p: Reg, body: seq<Instr>)
    requires d !in m && forall r :: r in m ==> m[r] != d
    ensures SubBody(map[d := p], SubBody(m, body)) == SubBody(m[d := p], body)
  {
    forall i | 0 <= i < |body|
      ensures SubBody(map[d := p], SubBody(m, body))[i] == SubBody(m[d := p], body)[i]
    {
      SubOpsThen(m, d, p, body[i].args);
    }
  }

  lemma SubIncomingThen(m: map<Reg, Reg>, d: Reg, p: Reg, inc: seq<(Label, Operand)>)
    requires d !in m && forall r :: r in m ==> m[r] != d
    ensures SubIncoming(map[d := p], SubIncoming(m, inc)) == SubIncoming(m[d := p], inc)
  {
    forall i | 0 <= i < |inc|
      ensures SubIncoming(map[d := p], SubIncoming(m, inc))[i] == SubIncoming(m[d := p], inc)[i]
    {
      SubOpThen(m, d, p, inc[i].1);
    }
  }

  lemma SubPhisThen(m: map<Reg, Reg>, d: Reg, p: Reg, phis: seq<Phi>)
    requires d !in m && forall r :: r in m ==> m[r] != d
    ensures SubPhis(map[d := p], SubPhis(m, phis)) == SubPhis(m[d := p], phis)
  {
    forall i | 0 <= i < |phis|
      ensures SubPhis(map[d := p], SubPhis(m, phis))[i] == SubPhis(m[d := p], phis)[i]
    {
      SubIncomingThen(m, d, p, phis[i].incoming);
    }
  }

  lemma SubBlockThen(m: map<Reg, Reg>, d: Reg, p: Reg, b: Block)
    requires d !in m && forall r :: r in m ==> m[r] != d
    ensures SubBlock(map[d := p], SubBlock(m, b)) == SubBlock(m[d := p], b)
  {
    SubPhisThen(m, d, p, b.phis);
    SubBodyThen(m, d, p, b.body);
    SubOpsThen(m, d, p, b.term.uses);
  }

  lemma SubNothing(b: Block)
    ensures SubBlock(map[], b) == b
  {
    assert forall xs :: SubOps(map[], xs) == xs;
    forall i | 0 <= i < |b.phis|
      ensures SubPhis(map[], b.phis)[i] == b.phis[i]
    {
      assert SubIncoming(map[], b.phis[i].incoming) == b.phis[i].incoming;
    }
    assert SubBody(map[], b.body) == b.body;
  }

  // ----- One iteration -----

  lemma ArmBounds(body: seq<Instr>, base: nat, i: nat)
    requires i <= |body|
    ensures forall r :: r in Arm(body, base, i) ==> base <= Arm(body, base, i)[r] < base + 3 * i
  {
    forall r | r in Arm(body, base, i)
      ensures base <= Arm(body, base, i)[r] < base + 3 * i
    {
      var j := ArmKey(body, base, i, r);
    }
  }

  lemma OldKey(body: seq<Instr>, base: nat, i: nat, n: nat)
    requires i < |body| && DistinctDsts(body) && BodyBelow(body, n) && base >= n
    ensures body[i].dst !in Arm(body, base, i)
    ensures forall r :: r in Arm(body, base, i) ==> Arm(body, base, i)[r] != body[i].dst
  {
    if body[i].dst in Arm(body, base, i) {
      var j := ArmKey(body, base, i, body[i].dst);
    }
    ArmBounds(body, base, i);
  }

  lemma UpdateLeft(a: map<Reg, Reg>, b: map<Reg, Reg>, d: Reg, p: Reg)
    requires d !in b
    ensures (a + b)[d := p] == a[d := p] + b
  {
  }

  lemma {:induction false} ArmShrinks(body: seq<Instr>, base: nat, j: nat, i: nat)
    requires j <= i <= |body|
    ensures forall r :: r in Arm(body, base, j) ==> r in Arm(body, base, i)
    decreases i
  {
    if j < i {
      ArmShrinks(body, base, j, i - 1);
    }
  }

  /** The clones made so far, when instruction i's value is replaced by its PHI. */
  lemma {:induction false} ArmBodyThen(body: seq<Instr>, n: nat, base: nat, i: nat, j: nat)
    requires j <= i < |body| && DistinctDsts(body) && BodyBelow(body, n) && base >= n && body[i].op.ty != Void
    ensures SubBody(map[body[i].dst := n + 3 + 3 * i], ArmBody(body, base, Arm(body, n + 3, i), j)) ==
      ArmBody(body, base, Arm(body, n + 3, i + 1), j)
  {
    if j > 0 {
      ArmBodyThen(body, n, base, i, j - 1);
      var rho, arm, d := Arm(body, n + 3, i), Arm(body, base, j - 1), body[i].dst;
      var p: Reg := n + 3 + 3 * i;
      OldKey(body, n + 3, i, n);
      OldKey(body, base, i, n);
      ArmShrinks(body, base, j - 1, i);
      ArmBounds(body, base, j - 1);
      SubOpsThen(rho + arm, d, p, body[j - 1].args);
      UpdateLeft(rho, arm, d, p);
    }
  }

  /** What a value map of an arm does to an operand that already reads the joining PHIs: PHIs of this
      block become the arm's own values. */
  ghost predicate ArmMap(vmap: map<Reg, Reg>, body: seq<Instr>, n: nat, base: nat, i: nat)
    requires i <= |body|
  {
    forall r: nat :: r < n && !NoValue(body, r) ==>
      Image(vmap, Image(Arm(body, n + 3, i), r)) == Image(Arm(body, n + 3, i) + Arm(body, base, i), r)
  }

  /** r identifies an instruction that produces no value. */
  ghost predicate NoValue(body: seq<Instr>, r: Reg) {
    exists j :: 0 <= j < |body| && body[j].dst == r && body[j].op.ty == Void
  }

  ghost predicate ReadsValues(body: seq<Instr>) {
    forall i, j :: 0 <= i < |body| && 0 <= j < |body[i].args| && body[i].args[j].Ref? ==> !NoValue(body, body[i].args[j].r)
  }

  lemma MappedArgs(vmap: map<Reg, Reg>, body: seq<Instr>, n: nat, base: nat, i: nat)
    requires i < |body| && ArmMap(vmap, body, n, base, i) && BodyBelow(body, n) && ReadsValues(body)
    ensures SubOps(vmap, SubOps(Arm(body, n + 3, i), body[i].args)) ==
      SubOps(Arm(body, n + 3, i) + Arm(body, base, i), body[i].args)
  {
    var xs := body[i].args;
    var ys, zs := SubOps(vmap, SubOps(Arm(body, n + 3, i), xs)), SubOps(Arm(body, n + 3, i) + Arm(body, base, i), xs);
    forall j | 0 <= j < |xs|
      ensures ys[j] == zs[j]
    {
      if xs[j].Ref? {
        assert !NoValue(body, xs[j].r);
      }
    }
  }

  /** A value map follows the replacement of its keys: after d was replaced by p, the entry for d is
      an entry for p. */
  function Follow(vmap: map<Reg, Reg>, d: Reg, p: Reg): map<Reg, Reg> {
    if d in vmap then (vmap - {d})[p := vmap[d]] else vmap
  }

  lemma ArmMapStarts(body: seq<Instr>, n: nat, base: nat)
    ensures ArmMap(map[], body, n, base, 0)
  {
  }

  lemma FollowImage(vmap: map<Reg, Reg>, d: Reg, v: Reg, p: Reg, y: Reg)
    requires d != p
    ensures y == p ==> Image(Follow(vmap[d := v], d, p), y) == v
    ensures y != p && y != d ==> Image(Follow(vmap[d := v], d, p), y) == Image(vmap, y)
  {
  }

  lemma ArmMapValue(vmap: map<Reg, Reg>, body: seq<Instr>, n: nat, base: nat, i: nat)
    requires i < |body| && ArmMap(vmap, body, n, base, i) && body[i].op.ty != Void
    requires DistinctDsts(body) && BodyBelow(body, n) && base >= n
    ensures ArmMap(Follow(vmap[body[i].dst := base + 3 * i], body[i].dst, n + 3 + 3 * i), body, n, base, i + 1)
  {
    var d, rho, arm := body[i].dst, Arm(body, n + 3, i), Arm(body, base, i);
    var p: Reg, v: Reg := n + 3 + 3 * i, base + 3 * i;
    OldKey(body, n + 3, i, n);
    ArmBounds(body, n + 3, i);
    assert Arm(body, n + 3, i + 1) == rho[d := p] && Arm(body, base, i + 1) == arm[d := v];
    forall r: nat | r < n && !NoValue(body, r)
      ensures Image(Follow(vmap[d := v], d, p), Image(rho[d := p], r)) == Image(rho[d := p] + arm[d := v], r)
    {
      FollowImage(vmap, d, v, p, Image(rho[d := p], r));
      if r != d {
        assert Image(rho, r) != d && Image(rho, r) != p;
        assert Image(rho[d := p] + arm[d := v], r) == Image(rho + arm, r);
      }
    }
  }

  lemma ArmMapVoid(vmap: map<Reg, Reg>, body: seq<Instr>, n: nat, base: nat, i: nat)
    requires i < |body| && ArmMap(vmap, body, n, base, i) && body[i].op.ty == Void
    requires DistinctDsts(body) && BodyBelow(body, n)
    ensures ArmMap(vmap[body[i].dst := base + 3 * i], body, n, base, i + 1)
  {
    var d, rho := body[i].dst, Arm(body, n + 3, i);
    OldKey(body, n + 3, i, n);
    forall r: nat | r < n && !NoValue(body, r)
      ensures Image(vmap[d := base + 3 * i], Image(rho, r)) == Image(rho + Arm(body, base, i), r)
    {
      assert Image(rho, r) != d;
    }
  }

  /** Appending the clone of instruction i to an arm and, if it has a value, replacing it by its PHI. */
  lemma ArmAtNext(f: Func, l: Label, n: nat, k: nat, a: nat, i: nat, x: Instr)
    requires l in f.blocks && i < |f.blocks[l].body| && a < 2
    requires DistinctDsts(f.blocks[l].body) && BodyBelow(f.blocks[l].body, n)
    requires var body := f.blocks[l].body;
      x == Instr(n + 1 + a + 3 * i, body[i].op, SubOps(Arm(body, n + 3, i) + Arm(body, n + 1 + a, i), body[i].args))
    ensures var body, b := f.blocks[l].body, ArmAt(f, l, n, k, a, i).(body := ArmAt(f, l, n, k, a, i).body + [x]);
      if body[i].op.ty == Void then b == ArmAt(f, l, n, k, a, i + 1)
      else SubBlock(map[body[i].dst := n + 3 + 3 * i], b) == ArmAt(f, l, n, k, a, i + 1)
  {
    var body, base, rho := f.blocks[l].body, n + 1 + a, Arm(f.blocks[l].body, n + 3, i);
    if body[i].op.ty != Void {
      var d := body[i].dst;
      var p: Reg := n + 3 + 3 * i;
      ArmBodyThen(body, n, base, i, i);
      OldKey(body, n + 3, i, n);
      OldKey(body, base, i, n);
      SubOpsThen(rho + Arm(body, base, i), d, p, body[i].args);
      UpdateLeft(rho, Arm(body, base, i), d, p);
      SubBodyAppend(map[d := p], ArmBody(body, base, rho, i), x);
      assert SubPhis(map[d := p], []) == [] && SubOps(map[d := p], []) == [];
    }
  }

  lemma SubBodyAppend(m: map<Reg, Reg>, body: seq<Instr>, x: Instr)
    ensures SubBody(m, body + [x]) == SubBody(m, body) + [SubInstr(m, x)]
  {
  }

  /** Where instruction i is in the tail: the kept instructions come first. */
  lemma TailAtHead(f: Func, l: Label, n: nat, k: nat, i: nat)
    requires l in f.blocks && i < |f.blocks[l].body|
    ensures var body := f.blocks[l].body;
      && |Kept(body, i)| < |TailAt(f, l, n, k, i).body|
      && TailAt(f, l, n, k, i).body[|Kept(body, i)|] == SubInstr(Arm(body, n + 3, i), body[i])
  {
  }

  /** A value-producing instruction leaves the tail and its PHI enters. */
  lemma TailAtValue(f: Func, l: Label, n: nat, k: nat, i: nat)
    requires l in f.blocks && i < |f.blocks[l].body| && f.blocks[l].body[i].op.ty != Void
    requires DistinctDsts(f.blocks[l].body) && BodyBelow(f.blocks[l].body, n)
    ensures var body, t, h := f.blocks[l].body, TailAt(f, l, n, k, i), |Kept(f.blocks[l].body, i)|;
      && h < |t.body|
      && SubBlock(map[body[i].dst := n + 3 + 3 * i],
           Block(t.phis + [JoinPhi(body[i].op.ty, n, k, i + 1)], t.body[..h] + t.body[h + 1..], t.term)) == TailAt(f, l, n, k, i + 1)
  {
    var body, t, h := f.blocks[l].body, TailAt(f, l, n, k, i), |Kept(f.blocks[l].body, i)|;
    var d, rho := body[i].dst, Arm(body, n + 3, i);
    var p: Reg := n + 3 + 3 * i;
    OldKey(body, n + 3, i, n);
    var rest := Kept(body, i) + body[i + 1..];
    assert t.body[..h] + t.body[h + 1..] == SubBody(rho, rest);
    SubBodyThen(rho, d, p, rest);
    assert Kept(body, i + 1) == Kept(body, i);
    SubOpsThen(rho, d, p, f.blocks[l].term.uses);
    TailPhisStay(body, n, k, i + 1, d, p);
    assert TailPhis(body, n, k, i + 1) == t.phis + [JoinPhi(body[i].op.ty, n, k, i + 1)];
  }

  /** The joining PHIs read no register of the original function. */
  lemma {:induction false} TailPhisStay(body: seq<Instr>, n: nat, k: nat, i: nat, d: Reg, p: Reg)
    requires i <= |body| && d < n
    ensures SubPhis(map[d := p], TailPhis(body, n, k, i)) == TailPhis(body, n, k, i)
  {
    if i > 0 {
      TailPhisStay(body, n, k, i - 1, d, p);
      var inc := JoinPhi(body[i - 1].op.ty, n, k, i).incoming;
      assert SubIncoming(map[d := p], inc) == inc;
    } else {
      assert SubPhis(map[d := p], []) == [];
    }
  }

  lemma TailAtVoid(f: Func, l: Label, n: nat, k: nat, i: nat)
    requires l in f.blocks && i < |f.blocks[l].body| && f.blocks[l].body[i].op.ty == Void
    ensures TailAt(f, l, n, k, i + 1) == TailAt(f, l, n, k, i)
    ensures |Kept(f.blocks[l].body, i + 1)| == |Kept(f.blocks[l].body, i)| + 1
  {
    var body := f.blocks[l].body;
    assert Kept(body, i + 1) + body[i + 1..] == Kept(body, i) + body[i..];
    assert TailPhis(body, n, k, i + 1) == TailPhis(body, n, k, i);
  }

  // ----- The whole function -----

  lemma AtHas(f: Func, l: Label, ctx: Operand, n: nat, k: nat, i: nat, m: Label)
    requires l in f.blocks && i <= |f.blocks[l].body|
    ensures m in CloneAt(f, l, ctx, n, k, i).blocks <==> m in f.blocks || k <= m <= k + 2
    ensures m in CloneAt(f, l, ctx, n, k, i).blocks ==> CloneAt(f, l, ctx, n, k, i).blocks[m] == BlockAt(f, l, ctx, n, k, i, m)
  {
  }

  /** The function before a value is replaced: clones appended to the arms, the value's PHI in the tail. */
  function WithClones(f: Func, l: Label, ctx: Operand, n: nat, k: nat, i: nat, c0: Instr, c1: Instr, tail: Block): Func
    requires l in f.blocks && i <= |f.blocks[l].body|
  {
    var g, x, y := CloneAt(f, l, ctx, n, k, i), ArmAt(f, l, n, k, 0, i), ArmAt(f, l, n, k, 1, i);
    Func(g.order, g.blocks[k := x.(body := x.body + [c0])][k + 1 := y.(body := y.body + [c1])][k + 2 := tail])
  }

  lemma WithClonesHas(f: Func, l: Label, ctx: Operand, n: nat, k: nat, i: nat, c0: Instr, c1: Instr, tail: Block, m: Label)
    requires l in f.blocks && i <= |f.blocks[l].body| && LabelsBelow(f, k)
    ensures var h := WithClones(f, l, ctx, n, k, i, c0, c1, tail);
      && (m in h.blocks <==> m in f.blocks || k <= m <= k + 2)
      && (m in f.blocks ==> h.blocks[m] == BlockAt(f, l, ctx, n, k, i, m))
      && (m == k ==> h.blocks[m] == ArmAt(f, l, n, k, 0, i).(body := ArmAt(f, l, n, k, 0, i).body + [c0]))
      && (m == k + 1 ==> h.blocks[m] == ArmAt(f, l, n, k, 1, i).(body := ArmAt(f, l, n, k, 1, i).body + [c1]))
      && (m == k + 2 ==> h.blocks[m] == tail)
  {
    AtHas(f, l, ctx, n, k, i, m);
  }

  function CloneOf(f: Func, l: Label, n: nat, a: nat, i: nat): Instr
    requires l in f.blocks && i < |f.blocks[l].body|
  {
    var body := f.blocks[l].body;
    Instr(n + 1 + a + 3 * i, body[i].op, SubOps(Arm(body, n + 3, i) + Arm(body, n + 1 + a, i), body[i].args))
  }

  /** The tail with instruction i taken out and its PHI added. */
  function TailSwapped(f: Func, l: Label, n: nat, k: nat, i: nat): Block
    requires l in f.blocks && i < |f.blocks[l].body|
  {
    var body, t, h := f.blocks[l].body, TailAt(f, l, n, k, i), |Kept(f.blocks[l].body, i)|;
    TailAtHead(f, l, n, k, i);
    Block(t.phis + [JoinPhi(body[i].op.ty, n, k, i + 1)], t.body[..h] + t.body[h + 1..], t.term)
  }

  lemma NextBlock(f: Func, l: Label, ctx: Operand, n: nat, k: nat, i: nat, m: Label)
    requires l in f.blocks && i < |f.blocks[l].body| && LabelsBelow(f, k) && f.blocks[l].body[i].op.ty != Void
    requires DistinctDsts(f.blocks[l].body) && BodyBelow(f.blocks[l].body, n) && (m in f.blocks || k <= m <= k + 2)
    ensures var d, h := f.blocks[l].body[i].dst, WithClones(f, l, ctx, n, k, i, CloneOf(f, l, n, 0, i), CloneOf(f, l, n, 1, i), TailSwapped(f, l, n, k, i));
      m in h.blocks && SubBlock(map[d := n + 3 + 3 * i], h.blocks[m]) == BlockAt(f, l, ctx, n, k, i + 1, m)
  {
    var body := f.blocks[l].body;
    WithClonesHas(f, l, ctx, n, k, i, CloneOf(f, l, n, 0, i), CloneOf(f, l, n, 1, i), TailSwapped(f, l, n, k, i), m);
    if m == k + 2 {
      TailAtValue(f, l, n, k, i);
    } else if m == k || m == k + 1 {
      ArmAtNext(f, l, n, k, m - k, i, CloneOf(f, l, n, m - k, i));
    } else {
      OldKey(body, n + 3, i, n);
      SubBlockThen(Arm(body, n + 3, i), body[i].dst, n + 3 + 3 * i, Plain(f, l, ctx, n, k, m));
    }
  }

  lemma NextValue(f: Func, l: Label, ctx: Operand, n: nat, k: nat, i: nat)
    requires l in f.blocks && i < |f.blocks[l].body| && LabelsBelow(f, k) && f.blocks[l].body[i].op.ty != Void
    requires DistinctDsts(f.blocks[l].body) && BodyBelow(f.blocks[l].body, n)
    ensures SubFunc(map[f.blocks[l].body[i].dst := n + 3 + 3 * i],
                    WithClones(f, l, ctx, n, k, i, CloneOf(f, l, n, 0, i), CloneOf(f, l, n, 1, i), TailSwapped(f, l, n, k, i)))
      == CloneAt(f, l, ctx, n, k, i + 1)
  {
    var h := WithClones(f, l, ctx, n, k, i, CloneOf(f, l, n, 0, i), CloneOf(f, l, n, 1, i), TailSwapped(f, l, n, k, i));
    var g, s := CloneAt(f, l, ctx, n, k, i + 1), SubFunc(map[f.blocks[l].body[i].dst := n + 3 + 3 * i], h);
    forall m
      ensures m in s.blocks <==> m in g.blocks
      ensures m in g.blocks ==> s.blocks[m] == g.blocks[m]
    {
      AtHas(f, l, ctx, n, k, i + 1, m);
      WithClonesHas(f, l, ctx, n, k, i, CloneOf(f, l, n, 0, i), CloneOf(f, l, n, 1, i), TailSwapped(f, l, n, k, i), m);
      if m in g.blocks {
        NextBlock(f, l, ctx, n, k, i, m);
      }
    }
    assert s.blocks == g.blocks;
  }

  lemma NextVoid(f: Func, l: Label, ctx: Operand, n: nat, k: nat, i: nat)
    requires l in f.blocks && i < |f.blocks[l].body| && LabelsBelow(f, k) && f.blocks[l].body[i].op.ty == Void
    requires DistinctDsts(f.blocks[l].body) && BodyBelow(f.blocks[l].body, n)
    ensures WithClones(f, l, ctx, n, k, i, CloneOf(f, l, n, 0, i), CloneOf(f, l, n, 1, i), TailAt(f, l, n, k, i))
      == CloneAt(f, l, ctx, n, k, i + 1)
  {
    var c0, c1, t := CloneOf(f, l, n, 0, i), CloneOf(f, l, n, 1, i), TailAt(f, l, n, k, i);
    var h, g := WithClones(f, l, ctx, n, k, i, c0, c1, t), CloneAt(f, l, ctx, n, k, i + 1);
    TailAtVoid(f, l, n, k, i);
    ArmAtNext(f, l, n, k, 0, i, c0);
    ArmAtNext(f, l, n, k, 1, i, c1);
    forall m
      ensures m in h.blocks <==> m in g.blocks
      ensures m in g.blocks ==> h.blocks[m] == g.blocks[m]
    {
      AtHas(f, l, ctx, n, k, i + 1, m);
      WithClonesHas(f, l, ctx, n, k, i, c0, c1, t, m);
    }
    assert h.blocks == g.blocks;
  }

  /** After the last instruction, once the kept ones are purged, the function is the clone. */
  lemma LastBlock(f: Func, l: Label, ctx: Operand, n: nat, k: nat, m: Label)
    requires l in f.blocks && LabelsBelow(f, k)
    ensures var g, c := CloneAt(f, l, ctx, n, k, |f.blocks[l].body|), Clone(f, l, ctx, n, k);
      && (m in g.blocks <==> m in c.blocks)
      && (m in c.blocks && m != k + 2 ==> g.blocks[m] == c.blocks[m])
      && k + 2 in g.blocks && (m == k + 2 ==> g.blocks[m].(body := []) == c.blocks[m])
  {
    AtHas(f, l, ctx, n, k, |f.blocks[l].body|, k + 2);
    AtHas(f, l, ctx, n, k, |f.blocks[l].body|, m);
    CloneHas(f, l, ctx, n, k, m);
  }

  lemma LastStep(f: Func, l: Label, ctx: Operand, n: nat, k: nat)
    requires l in f.blocks && LabelsBelow(f, k)
    ensures k + 2 in CloneAt(f, l, ctx, n, k, |f.blocks[l].body|).blocks
    ensures var g := CloneAt(f, l, ctx, n, k, |f.blocks[l].body|);
      Func(g.order, g.blocks[k + 2 := g.blocks[k + 2].(body := [])]) == Clone(f, l, ctx, n, k)
  {
    var g, c := CloneAt(f, l, ctx, n, k, |f.blocks[l].body|), Clone(f, l, ctx, n, k);
    LastBlock(f, l, ctx, n, k, k + 2);
    var bs := g.blocks[k + 2 := g.blocks[k + 2].(body := [])];
    forall m
      ensures m in bs <==> m in c.blocks
      ensures m in c.blocks ==> bs[m] == c.blocks[m]
    {
      LastBlock(f, l, ctx, n, k, m);
    }
    assert bs == c.blocks;
  }
}
