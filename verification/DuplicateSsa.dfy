/** Cloning keeps strict SSA form: definitions still come before their uses on every path. */
module DuplicateSsa {
  import opened IR
  import opened Semantics
  import opened Paths
  import opened RIV
  import opened Renaming
  import opened StrictSsa
  import opened DuplicateSpec
  import opened DuplicateSound
  import opened DuplicateShape
  import opened DuplicateRun

  /** The registers that reach the body of l. */
  ghost function Reaching(f: Func, l: Label): iset<Reg>
    requires f.order != [] && l in f.blocks
  {
    Entering(f, l) * Defined(f)
  }

  lemma CloneBase(f: Func, l: Label, ctx: Operand, n: nat, k: nat)
    requires Ready(f, n, k) && l in f.blocks
    ensures Clone(f, l, ctx, n, k).order != [] && Clone(f, l, ctx, n, k).order[0] == f.order[0]
    ensures f.order[0] < k && forall x, t :: x in f.blocks && t in f.blocks[x].term.targets ==> t < k
  {
    CloneOrder(f, l, ctx, n, k);
    TargetsBelow(f, n, k);
  }

  // ----- Values on the paths of the clone -----

  lemma ReadableOnEntry(f: Func, l: Label, ctx: Operand, n: nat, k: nat, r: Reg, m: Label)
    requires Ready(f, n, k) && l in f.blocks && m in f.blocks && Available(f, Ref(r), m)
    ensures Clone(f, l, ctx, n, k).order != []
    ensures Available(Clone(f, l, ctx, n, k), Ref(Image(Rho(f, l, n), r)), m)
  {
    CloneBase(f, l, ctx, n, k);
    AvailableKept(f, l, ctx, n, k, Ref(r), m);
  }

  /** A predecessor of a new block has gone through what leads to it. */
  lemma PathInto(f: Func, l: Label, ctx: Operand, n: nat, k: nat, m: Label, q: seq<Label>)
    requires Ready(f, n, k) && l in f.blocks && k <= m <= k + 2 && Clone(f, l, ctx, n, k).order != []
    requires PathTo(Clone(f, l, ctx, n, k), q, m)
    ensures |q| > 1 && PathTo(Clone(f, l, ctx, n, k), q[..|q| - 1], q[|q| - 2])
    ensures m < k + 2 ==> q[|q| - 2] == l
    ensures m == k + 2 ==> q[|q| - 2] == k || q[|q| - 2] == k + 1
  {
    CloneBase(f, l, ctx, n, k);
    var g := Clone(f, l, ctx, n, k);
    assert g.Edge(q[|q| - 2], q[|q| - 1]);
    CloneEdges(f, l, ctx, n, k, q[|q| - 2], m);
  }

  lemma ShorterPath(g: Func, r: Reg, q: seq<Label>, m: Label)
    requires g.order != [] && |q| > 1 && PathTo(g, q[..|q| - 1], m) && Available(g, Ref(r), m)
    ensures exists i :: 0 <= i < |q| - 1 && DefinesValue(g, q[i], r)
  {
    var q' := q[..|q| - 1];
    var i :| 0 <= i < |q'| - 1 && DefinesValue(g, q'[i], r);
    assert q'[i] == q[i];
  }

  /** What can be read on entry to l can be read on entry to the new blocks. */
  lemma ReadableInNew(f: Func, l: Label, ctx: Operand, n: nat, k: nat, r: Reg, m: Label)
    requires Ready(f, n, k) && l in f.blocks && k <= m <= k + 2 && Clone(f, l, ctx, n, k).order != []
    requires Available(Clone(f, l, ctx, n, k), Ref(r), l)
    ensures Available(Clone(f, l, ctx, n, k), Ref(r), m)
    decreases m == k + 2
  {
    var g := Clone(f, l, ctx, n, k);
    if m == k + 2 {
      ReadableInNew(f, l, ctx, n, k, r, k);
      ReadableInNew(f, l, ctx, n, k, r, k + 1);
    }
    forall q | PathTo(g, q, m)
      ensures exists i :: 0 <= i < |q| - 1 && DefinesValue(g, q[i], r)
    {
      PathInto(f, l, ctx, n, k, m, q);
      ShorterPath(g, r, q, q[|q| - 2]);
    }
  }

  /** So can what l's PHIs define. */
  lemma HeadInNew(f: Func, l: Label, ctx: Operand, n: nat, k: nat, r: Reg, m: Label)
    requires Ready(f, n, k) && l in f.blocks && k <= m <= k + 2 && Clone(f, l, ctx, n, k).order != []
    requires DefinesValue(Clone(f, l, ctx, n, k), l, r)
    ensures Available(Clone(f, l, ctx, n, k), Ref(r), m)
    decreases m == k + 2
  {
    var g := Clone(f, l, ctx, n, k);
    if m == k + 2 {
      HeadInNew(f, l, ctx, n, k, r, k);
      HeadInNew(f, l, ctx, n, k, r, k + 1);
    }
    forall q | PathTo(g, q, m)
      ensures exists i :: 0 <= i < |q| - 1 && DefinesValue(g, q[i], r)
    {
      PathInto(f, l, ctx, n, k, m, q);
      if m == k + 2 {
        ShorterPath(g, r, q, q[|q| - 2]);
      } else {
        assert DefinesValue(g, q[|q| - 2], r);
      }
    }
  }

  /** A register some block defines and l's PHIs write has a value. */
  lemma PhiDefines(f: Func, l: Label, ctx: Operand, n: nat, k: nat, j: nat)
    requires Ready(f, n, k) && l in f.blocks && j < |f.blocks[l].phis| && IsDefined(f, f.blocks[l].phis[j].dst)
    ensures DefinesValue(Clone(f, l, ctx, n, k), l, f.blocks[l].phis[j].dst)
  {
    var r := f.blocks[l].phis[j].dst;
    var m :| DefinesValue(f, m, r);
    var i: nat :| DefinedAt(f, m, i, r);
    OneDef(f, l, j, m, i);
    RhoIs(f, l, n, k);
    CloneDefines(f, l, ctx, n, k, l, r);
  }

  /** What reaches l's body, and has a value at all, reaches the new blocks under its new name. */
  lemma EnteringNew(f: Func, l: Label, ctx: Operand, n: nat, k: nat, r: Reg, m: Label)
    requires Ready(f, n, k) && l in f.blocks && k <= m <= k + 2 && r in Entering(f, l) && IsDefined(f, r)
    ensures Clone(f, l, ctx, n, k).order != [] && Available(Clone(f, l, ctx, n, k), Ref(Image(Rho(f, l, n), r)), m)
  {
    CloneBase(f, l, ctx, n, k);
    if Available(f, Ref(r), l) {
      ReadableOnEntry(f, l, ctx, n, k, r, l);
      ReadableInNew(f, l, ctx, n, k, Image(Rho(f, l, n), r), m);
    } else {
      var j :| 0 <= j < |f.blocks[l].phis| && f.blocks[l].phis[j].dst == r;
      RhoIs(f, l, n, k);
      PhiDefines(f, l, ctx, n, k, j);
      HeadInNew(f, l, ctx, n, k, r, m);
    }
  }

  // ----- The arms -----

  ghost predicate DebugHasNoValue(body: seq<Instr>) {
    forall i :: 0 <= i < |body| && body[i].op.dbg ==> body[i].op.ty == Void
  }

  /** The arm reads its own registers and what enters it. */
  lemma {:induction false} ArmReads(body: seq<Instr>, base: nat, rho: map<Reg, Reg>, i: nat, k: iset<Reg>, k': iset<Reg>)
    requires i <= |body| && DefUse(k, body[..i]) && Covers(rho, k, k') && DebugHasNoValue(body)
    ensures DefUse(k', ArmBody(body, base, rho, i))
    ensures Covers(rho + Arm(body, base, i), After(k, body[..i]), After(k', ArmBody(body, base, rho, i)))
  {
    if i == 0 {
      assert rho + Arm(body, base, 0) == rho;
    } else {
      assert body[..i] == body[..i - 1] + [body[i - 1]];
      DefUseAppend(k, body[..i - 1], [body[i - 1]]);
      ArmReads(body, base, rho, i - 1, k, k');
      ArmReadsMore(body, base, rho, i - 1, k, k');
    }
  }

  lemma ArmReadsMore(body: seq<Instr>, base: nat, rho: map<Reg, Reg>, i: nat, k: iset<Reg>, k': iset<Reg>)
    requires i < |body| && DebugHasNoValue(body) && DefUse(After(k, body[..i]), [body[i]])
    requires DefUse(k', ArmBody(body, base, rho, i))
    requires Covers(rho + Arm(body, base, i), After(k, body[..i]), After(k', ArmBody(body, base, rho, i)))
    ensures DefUse(k', ArmBody(body, base, rho, i + 1))
    ensures Covers(rho + Arm(body, base, i + 1), After(k, body[..i + 1]), After(k', ArmBody(body, base, rho, i + 1)))
  {
    var x, m, done, arm := body[i], rho + Arm(body, base, i), body[..i], ArmBody(body, base, rho, i);
    ArmReadsOne(x, base + 3 * i, m, After(k, done), After(k', arm));
    DefUseAppend(k', arm, [Instr(base + 3 * i, x.op, SubOps(m, x.args))]);
    assert body[..i + 1] == done + [x];
    DefUseAppend(k, done, [x]);
    ArmGrows(body, base, i);
  }

  lemma ArmReadsOne(x: Instr, r: Reg, m: map<Reg, Reg>, k: iset<Reg>, k': iset<Reg>)
    requires DefUse(k, [x]) && Covers(m, k, k') && (x.op.dbg ==> x.op.ty == Void)
    ensures var y := Instr(r, x.op, SubOps(m, x.args));
      DefUse(k', [y]) && Covers(if x.op.ty == Void then m else m[x.dst := r], After(k, [x]), After(k', [y]))
  {
    var y := Instr(r, x.op, SubOps(m, x.args));
    OneInstr(k, x);
    OneInstr(k', y);
    if !x.op.dbg {
      RenamedUses(m, k, k', x.args);
    }
  }

  lemma ArmReadsIn(f: Func, l: Label, n: nat, k: nat, a: nat, k0: iset<Reg>, k': iset<Reg>)
    requires l in f.blocks && BlockReadsIn(k0, f.blocks[l]) && DebugHasNoValue(f.blocks[l].body) && Covers(Rho(f, l, n), k0, k')
    ensures BlockReadsIn(k', NewArm(f, l, n, k, a))
  {
    var body := f.blocks[l].body;
    assert body[..|body|] == body;
    ArmReads(body, n + 1 + a, Rho(f, l, n), |body|, k0, k');
  }

  lemma NewCovers(f: Func, l: Label, ctx: Operand, n: nat, k: nat, m: Label)
    requires Ready(f, n, k) && l in f.blocks && k <= m <= k + 2
    ensures Clone(f, l, ctx, n, k).order != [] && m in Clone(f, l, ctx, n, k).blocks
    ensures Covers(Rho(f, l, n), Reaching(f, l), Entering(Clone(f, l, ctx, n, k), m))
  {
    CloneBase(f, l, ctx, n, k);
    CloneHas(f, l, ctx, n, k, m);
    forall r | r in Reaching(f, l)
      ensures Image(Rho(f, l, n), r) in Entering(Clone(f, l, ctx, n, k), m)
    {
      EnteringNew(f, l, ctx, n, k, r, m);
    }
  }

  // ----- The tail -----

  lemma TailPhiEntering(f: Func, l: Label, ctx: Operand, n: nat, k: nat, r: Reg)
    requires l in f.blocks && Clone(f, l, ctx, n, k).order != [] && r in Rho(f, l, n)
    ensures k + 2 in Clone(f, l, ctx, n, k).blocks && Rho(f, l, n)[r] in Entering(Clone(f, l, ctx, n, k), k + 2)
  {
    var body := f.blocks[l].body;
    CloneHas(f, l, ctx, n, k, k + 2);
    var j := ArmKey(body, n + 3, |body|, r);
    var t := TailPhiOf(body, n, k, |body|, j);
    assert Clone(f, l, ctx, n, k).blocks[k + 2].phis[t].dst == n + 3 * j + 3;
  }

  /** What has a value after l's body has one in the tail, under its new name. */
  lemma TailReadsIn(f: Func, l: Label, n: nat, k: nat, k0: iset<Reg>, k': iset<Reg>)
    requires UniqueDefs(f) && l in f.blocks && BlockReadsIn(k0, f.blocks[l]) && Covers(Rho(f, l, n), k0, k')
    requires forall r :: r in Rho(f, l, n) ==> Rho(f, l, n)[r] in k'
    ensures BlockReadsIn(k', NewTail(f, l, n, k))
  {
    var b := f.blocks[l];
    forall r | r in After(k0, b.body)
      ensures Image(Rho(f, l, n), r) in k'
    {
      AfterIs(k0, b.body, r);
      if r !in Rho(f, l, n) && r !in k0 {
        var j :| 0 <= j < |b.body| && b.body[j].dst == r && Makes(b.body[j]);
        BodyDistinct(f, l);
        ArmIs(b.body, n + 3, |b.body|);
      }
    }
    RenamedUses(Rho(f, l, n), After(k0, b.body), k', b.term.uses);
  }

  /** The arms define what their joining PHIs read. */
  ghost predicate ArmsMake(g: Func, body: seq<Instr>, n: nat, k: nat) {
    forall a, j :: 0 <= a < 2 && 0 <= j < |body| && body[j].op.ty != Void ==> ArmMakesAt(g, n, k, a, j)
  }

  ghost predicate ArmMakesAt(g: Func, n: nat, k: nat, a: nat, j: nat) { DefinesValue(g, k + a, n + 1 + a + 3 * j) }

  lemma ArmMakes(f: Func, l: Label, ctx: Operand, n: nat, k: nat)
    requires l in f.blocks && DebugHasNoValue(f.blocks[l].body)
    ensures ArmsMake(Clone(f, l, ctx, n, k), f.blocks[l].body, n, k)
  {
    var body := f.blocks[l].body;
    forall a, j | 0 <= a < 2 && 0 <= j < |body| && body[j].op.ty != Void
      ensures ArmMakesAt(Clone(f, l, ctx, n, k), n, k, a, j)
    {
      CloneHas(f, l, ctx, n, k, k + a);
      ArmBodyAt(body, n + 1 + a, Rho(f, l, n), |body|, j);
      assert DefinedAt(Clone(f, l, ctx, n, k), k + a, j, n + 1 + a + 3 * j);
    }
  }

  lemma JoinEntriesSsa(g: Func, body: seq<Instr>, n: nat, k: nat, j: nat, h: nat)
    requires g.order != [] && ArmsMake(g, body, n, k) && j < |body| && body[j].op.ty != Void && h < 2
    ensures var inc := JoinPhi(body[j].op.ty, n, k, j + 1).incoming; |inc| == 2 && inc[h].1.Ref? && AtEnd(g, inc[h].0, inc[h].1.r)
  {
    assert ArmMakesAt(g, n, k, h, j);
    DefinedAtEnd(g, k + h, n + 1 + h + 3 * j);
  }

  lemma JoinPhisSsa(g: Func, body: seq<Instr>, n: nat, k: nat, b: Block)
    requires g.order != [] && ArmsMake(g, body, n, k) && b.phis == TailPhis(body, n, k, |body|)
    ensures PhisSsa(g, b)
  {
    forall i, h | 0 <= i < |b.phis| && 0 <= h < |b.phis[i].incoming| && b.phis[i].incoming[h].1.Ref?
      ensures AtEnd(g, b.phis[i].incoming[h].0, b.phis[i].incoming[h].1.r)
    {
      var j := TailPhiAt(body, n, k, |body|, i);
      JoinEntriesSsa(g, body, n, k, j, h);
    }
  }

  // ----- PHIs of other blocks -----

  lemma DefinedOnClone(f: Func, l: Label, ctx: Operand, n: nat, k: nat, r: Reg, q: seq<Label>, p: seq<Label>, i: nat) returns (j: nat)
    requires l in f.blocks && LabelsBelow(f, k) && UniqueDefs(f) && f.order != [] && Projects(f, l, k, q, p)
    requires q[|q| - 1] == p[|p| - 1] != l || (q[|q| - 1] == k + 2 && p[|p| - 1] == l)
    requires i < |p| && DefinesValue(f, p[i], r)
    ensures j < |q| && DefinesValue(Clone(f, l, ctx, n, k), q[j], Image(Rho(f, l, n), r))
  {
    CloneDefines(f, l, ctx, n, k, p[i], r);
    var d := if r in Rho(f, l, n) then k + 2 else p[i];
    if i < |p| - 1 {
      assert p[..|p| - 1][i] == p[i] && p[i] in p[..|p| - 1];
    }
    assert d in q;
    j :| 0 <= j < |q| && q[j] == d;
  }

  /** What has a value at the end of p has one, under its new name, where p now ends. */
  lemma AtEndKept(f: Func, l: Label, ctx: Operand, n: nat, k: nat, p: Label, r: Reg)
    requires Ready(f, n, k) && l in f.blocks && p in f.blocks && AtEnd(f, p, r)
    ensures Clone(f, l, ctx, n, k).order != []
    ensures AtEnd(Clone(f, l, ctx, n, k), if p == l then k + 2 else p, Image(Rho(f, l, n), r))
  {
    CloneBase(f, l, ctx, n, k);
    var g, e := Clone(f, l, ctx, n, k), if p == l then k + 2 else p;
    assert LabelsBelow(f, k);
    forall q | PathTo(g, q, e)
      ensures exists j :: 0 <= j < |q| && DefinesValue(g, q[j], Image(Rho(f, l, n), r))
    {
      var p' := Project(f, l, ctx, n, k, q);
      assert PathTo(f, p', p);
      var i :| 0 <= i < |p'| && DefinesValue(f, p'[i], r);
      var j := DefinedOnClone(f, l, ctx, n, k, r, q, p', i);
    }
  }

  lemma EdgeToTarget(f: Func, m: Label, i: nat, h: nat)
    requires m in f.blocks && PhisCover(f, m) && i < |f.blocks[m].phis| && h < |f.blocks[m].phis[i].incoming|
    ensures f.Edge(f.blocks[m].phis[i].incoming[h].0, m)
  {
    assert Lists(f.blocks[m].phis[i].incoming, f.blocks[m].phis[i].incoming[h].0);
  }

  /** Entry h of PHI i of m, before and after the split. */
  lemma SplitEntry(f: Func, l: Label, ctx: Operand, n: nat, k: nat, m: Label, i: nat, h: nat)
    requires l in f.blocks && m in f.blocks && m < k && PhisCover(f, m)
    requires i < |f.blocks[m].phis| && h < |f.blocks[m].phis[i].incoming|
    ensures var phis, e := CloneBlock(f, l, ctx, n, k, m).phis, f.blocks[m].phis[i].incoming[h];
      && |phis| == |f.blocks[m].phis| && |phis[i].incoming| == |f.blocks[m].phis[i].incoming|
      && phis[i].incoming[h] == (if e.0 == l then k + 2 else e.0, SubOp(Rho(f, l, n), e.1))
  {
    EdgeToTarget(f, m, i, h);
  }

  lemma SplitPhiCounts(f: Func, l: Label, ctx: Operand, n: nat, k: nat, m: Label)
    requires l in f.blocks && m in f.blocks && m < k
    ensures var phis := CloneBlock(f, l, ctx, n, k, m).phis;
      |phis| == |f.blocks[m].phis| && forall i :: 0 <= i < |phis| ==> |phis[i].incoming| == |f.blocks[m].phis[i].incoming|
  {
  }

  lemma EntrySsa(f: Func, l: Label, ctx: Operand, n: nat, k: nat, m: Label, i: nat, h: nat, x: (Label, Operand))
    requires Ready(f, n, k) && l in f.blocks && m in f.blocks && PhisCover(f, m) && PhisSsa(f, f.blocks[m])
    requires i < |f.blocks[m].phis| && h < |f.blocks[m].phis[i].incoming|
    requires x == CloneBlock(f, l, ctx, n, k, m).phis[i].incoming[h] && x.1.Ref?
    ensures Clone(f, l, ctx, n, k).order != [] && AtEnd(Clone(f, l, ctx, n, k), x.0, x.1.r)
  {
    assert LabelsBelow(f, k) && BlockReady(f, f.blocks[m], n);
    SplitEntry(f, l, ctx, n, k, m, i, h);
    var e := f.blocks[m].phis[i].incoming[h];
    AtEndKept(f, l, ctx, n, k, e.0, e.1.r);
  }

  lemma SplitPhisSsa(f: Func, l: Label, ctx: Operand, n: nat, k: nat, m: Label)
    requires Ready(f, n, k) && l in f.blocks && m in f.blocks && PhisCover(f, m) && PhisSsa(f, f.blocks[m])
    ensures Clone(f, l, ctx, n, k).order != [] && PhisSsa(Clone(f, l, ctx, n, k), CloneBlock(f, l, ctx, n, k, m))
  {
    CloneBase(f, l, ctx, n, k);
    assert LabelsBelow(f, k);
    var phis := CloneBlock(f, l, ctx, n, k, m).phis;
    SplitPhiCounts(f, l, ctx, n, k, m);
    forall i, h | 0 <= i < |phis| && 0 <= h < |phis[i].incoming| && phis[i].incoming[h].1.Ref?
      ensures AtEnd(Clone(f, l, ctx, n, k), phis[i].incoming[h].0, phis[i].incoming[h].1.r)
    {
      EntrySsa(f, l, ctx, n, k, m, i, h, phis[i].incoming[h]);
    }
  }

  // ----- The head and the other blocks -----

  lemma PhisEntering(f: Func, l: Label, ctx: Operand, n: nat, k: nat, m: Label, j: nat)
    requires l in f.blocks && m in f.blocks && m < k && j < |f.blocks[m].phis| && Clone(f, l, ctx, n, k).order != []
    ensures m in Clone(f, l, ctx, n, k).blocks && f.blocks[m].phis[j].dst in Entering(Clone(f, l, ctx, n, k), m)
  {
    CloneHas(f, l, ctx, n, k, m);
    assert |PhisAfterSplit(f, l, k + 2, m)| == |f.blocks[m].phis|;
    assert Clone(f, l, ctx, n, k).blocks[m].phis[j].dst == f.blocks[m].phis[j].dst;
  }

  lemma OtherCovers(f: Func, l: Label, ctx: Operand, n: nat, k: nat, m: Label)
    requires Ready(f, n, k) && l in f.blocks && m in f.blocks
    ensures Clone(f, l, ctx, n, k).order != [] && m in Clone(f, l, ctx, n, k).blocks
    ensures Covers(Rho(f, l, n), Entering(f, m), Entering(Clone(f, l, ctx, n, k), m))
  {
    CloneBase(f, l, ctx, n, k);
    CloneHas(f, l, ctx, n, k, m);
    assert LabelsBelow(f, k);
    forall r | r in Entering(f, m)
      ensures Image(Rho(f, l, n), r) in Entering(Clone(f, l, ctx, n, k), m)
    {
      if Available(f, Ref(r), m) {
        ReadableOnEntry(f, l, ctx, n, k, r, m);
      } else {
        var j :| 0 <= j < |f.blocks[m].phis| && f.blocks[m].phis[j].dst == r;
        RhoIs(f, l, n, k);
        PhisEntering(f, l, ctx, n, k, m, j);
      }
    }
  }

  lemma OtherReadsIn(f: Func, l: Label, ctx: Operand, n: nat, k: nat, m: Label, k0: iset<Reg>, k': iset<Reg>)
    requires Ready(f, n, k) && l in f.blocks && m in f.blocks && m != l && BlockReadsIn(k0, f.blocks[m]) && Covers(Rho(f, l, n), k0, k')
    ensures BlockReadsIn(k', CloneBlock(f, l, ctx, n, k, m))
  {
    assert LabelsBelow(f, k);
    RhoIs(f, l, n, k);
    RenamedBlockReads(Rho(f, l, n), k0, k', f.blocks[m], CloneBlock(f, l, ctx, n, k, m));
  }

  lemma HeadReadsIn(f: Func, l: Label, ctx: Operand, n: nat, k: nat, k': iset<Reg>)
    requires Ready(f, n, k) && l in f.blocks && ReadsIn(k', [SubOp(Rho(f, l, n), ctx)])
    ensures BlockReadsIn(k', NewHead(f, l, ctx, n, k))
  {
    assert BlockReady(f, f.blocks[l], n);
    NewHeadBody(f, l, ctx, n, k);
    ArmFresh(f.blocks[l].body, n + 3, |f.blocks[l].body|, n);
    var x := Instr(n, IS_NULL, [SubOp(Rho(f, l, n), ctx)]);
    OneInstr(k', x);
    assert n in After(k', [x]);
    assert SubOps(Rho(f, l, n), [Ref(n)]) == [Ref(n)];
  }

  lemma RhoEntering(f: Func, l: Label, ctx: Operand, n: nat, k: nat)
    requires l in f.blocks && Clone(f, l, ctx, n, k).order != []
    ensures k + 2 in Clone(f, l, ctx, n, k).blocks
    ensures forall r :: r in Rho(f, l, n) ==> Rho(f, l, n)[r] in Entering(Clone(f, l, ctx, n, k), k + 2)
  {
    CloneHas(f, l, ctx, n, k, k + 2);
    forall r | r in Rho(f, l, n)
      ensures Rho(f, l, n)[r] in Entering(Clone(f, l, ctx, n, k), k + 2)
    {
      TailPhiEntering(f, l, ctx, n, k, r);
    }
  }

  lemma TailPhisSsa(f: Func, l: Label, ctx: Operand, n: nat, k: nat)
    requires l in f.blocks && DebugHasNoValue(f.blocks[l].body) && Clone(f, l, ctx, n, k).order != []
    ensures PhisSsa(Clone(f, l, ctx, n, k), NewTail(f, l, n, k))
  {
    ArmMakes(f, l, ctx, n, k);
    JoinPhisSsa(Clone(f, l, ctx, n, k), f.blocks[l].body, n, k, NewTail(f, l, n, k));
  }

  lemma NewBlockReads(f: Func, l: Label, n: nat, k: nat, m: Label, ctx: Operand, k': iset<Reg>)
    requires f.order != [] && UniqueDefs(f) && l in f.blocks && DebugHasNoValue(f.blocks[l].body) && k <= m <= k + 2
    requires BlockReadsIn(Reaching(f, l), f.blocks[l]) && Covers(Rho(f, l, n), Reaching(f, l), k')
    requires m == k + 2 ==> forall r :: r in Rho(f, l, n) ==> Rho(f, l, n)[r] in k'
    ensures BlockReadsIn(k', CloneBlock(f, l, ctx, n, k, m))
  {
    if m == k + 2 {
      TailReadsIn(f, l, n, k, Reaching(f, l), k');
    } else {
      ArmReadsIn(f, l, n, k, m - k, Reaching(f, l), k');
    }
  }

  lemma NewBlockSsa(f: Func, l: Label, ctx: Operand, n: nat, k: nat, m: Label)
    requires Ready(f, n, k) && l in f.blocks && BlockReadsIn(Reaching(f, l), f.blocks[l]) && k <= m <= k + 2
    ensures Clone(f, l, ctx, n, k).order != [] && m in Clone(f, l, ctx, n, k).blocks
    ensures BlockReadsIn(Entering(Clone(f, l, ctx, n, k), m), CloneBlock(f, l, ctx, n, k, m))
    ensures PhisSsa(Clone(f, l, ctx, n, k), CloneBlock(f, l, ctx, n, k, m))
  {
    assert BlockReady(f, f.blocks[l], n);
    NewCovers(f, l, ctx, n, k, m);
    if m == k + 2 {
      RhoEntering(f, l, ctx, n, k);
      TailPhisSsa(f, l, ctx, n, k);
    }
    NewBlockReads(f, l, n, k, m, ctx, Entering(Clone(f, l, ctx, n, k), m));
  }

  lemma OldBlockSsa(f: Func, l: Label, ctx: Operand, n: nat, k: nat, m: Label)
    requires Ready(f, n, k) && l in f.blocks && m in f.blocks && BlockReadsIn(Entering(f, m), f.blocks[m])
    requires m == l ==> Available(f, ctx, l)
    ensures Clone(f, l, ctx, n, k).order != [] && m in Clone(f, l, ctx, n, k).blocks
    ensures BlockReadsIn(Entering(Clone(f, l, ctx, n, k), m), CloneBlock(f, l, ctx, n, k, m))
  {
    assert LabelsBelow(f, k);
    OtherCovers(f, l, ctx, n, k, m);
    if m == l {
      if ctx.Ref? {
        ReadableOnEntry(f, l, ctx, n, k, ctx.r, l);
      }
      HeadReadsIn(f, l, ctx, n, k, Entering(Clone(f, l, ctx, n, k), l));
    } else {
      OtherReadsIn(f, l, ctx, n, k, m, Entering(f, m), Entering(Clone(f, l, ctx, n, k), m));
    }
  }

  lemma OneBlockSsa(f: Func, l: Label, ctx: Operand, n: nat, k: nat, m: Label)
    requires WellFormed(f) && Ready(f, n, k) && Ssa(f) && l in f.blocks && Available(f, ctx, l) && (m in f.blocks || k <= m <= k + 2)
    ensures Clone(f, l, ctx, n, k).order != [] && m in Clone(f, l, ctx, n, k).blocks
    ensures BlockReadsIn(Entering(Clone(f, l, ctx, n, k), m), CloneBlock(f, l, ctx, n, k, m))
    ensures PhisSsa(Clone(f, l, ctx, n, k), CloneBlock(f, l, ctx, n, k, m))
  {
    if m in f.blocks {
      BodySsaIs(f, m);
      OldBlockSsa(f, l, ctx, n, k, m);
      SplitPhisSsa(f, l, ctx, n, k, m);
    } else {
      ReadsEntering(f, l);
      NewBlockSsa(f, l, ctx, n, k, m);
    }
  }

  lemma SsaOf(g: Func)
    requires g.order != []
    requires forall m :: m in g.blocks ==> BlockReadsIn(Entering(g, m), g.blocks[m]) && PhisSsa(g, g.blocks[m])
    ensures Ssa(g)
  {
    forall m | m in g.blocks
      ensures BodySsa(g, m)
    {
      BodySsaIs(g, m);
    }
  }

  /** Cloning a block keeps strict SSA form if its context value is available. */
  lemma CloneSsa(f: Func, l: Label, ctx: Operand, n: nat, k: nat)
    requires WellFormed(f) && Ready(f, n, k) && Ssa(f) && l in f.blocks && Available(f, ctx, l)
    ensures Clone(f, l, ctx, n, k).order != [] && Ssa(Clone(f, l, ctx, n, k))
  {
    CloneBase(f, l, ctx, n, k);
    var g := Clone(f, l, ctx, n, k);
    forall m | m in g.blocks
      ensures BlockReadsIn(Entering(g, m), g.blocks[m]) && PhisSsa(g, g.blocks[m])
    {
      CloneHas(f, l, ctx, n, k, m);
      OneBlockSsa(f, l, ctx, n, k, m);
    }
    SsaOf(g);
  }

  // ----- The whole run -----

  lemma NextSsa(s: State, n0: nat, ts: Targets, heads: set<Label>) returns (s': State)
    requires RunPoint(s, n0, ts, heads) && ts != [] && TargetsOk(s, ts) && ts[0].0 !in heads && Ssa(s.f)
    ensures TargetsOk(s', ts[1..]) && CloneAll(s, ts) == CloneAll(s', ts[1..])
    ensures RunPoint(s', n0, ts[1..], heads + {ts[0].0}) && Ssa(s'.f)
  {
    s' := CloneOne(s, ts[0].0, ts[0].1);
    TargetsOkTail(s, ts);
    RunAdvances(s, n0, ts, heads);
    assert PendingOk(s, n0, ts[0].0, ts[0].1);
    CloneSsa(s.f, ts[0].0, SubOp(s.remap, ts[0].1), s.n, s.k);
  }

  lemma {:induction false} CloneAllSsa(s: State, n0: nat, ts: Targets, heads: set<Label>)
    requires RunPoint(s, n0, ts, heads) && TargetsOk(s, ts) && TargetLabels(ts) !! heads && Ssa(s.f)
    ensures CloneAll(s, ts).f.order != [] && Ssa(CloneAll(s, ts).f)
    decreases ts
  {
    if ts != [] {
      TailFacts(ts, heads);
      var s' := NextSsa(s, n0, ts, heads);
      CloneAllSsa(s', n0, ts[1..], heads + {ts[0].0});
    }
  }

  /** After DuplicateBB the IR verifier accepts the function, definitions before uses included. */
  lemma DuplicateRunVerified(f: Func, n: nat, k: nat, t: Tree, init: Values, ts: Targets)
    requires Verified(f) && Ready(f, n, k) && DominatorTree(f, t) && NoRefs(init) && Chosen(Below(f, t, init), ts)
    ensures TargetsOk(State(f, map[], n, k), ts) && Verified(CloneAll(State(f, map[], n, k), ts).f)
  {
    var s := State(f, map[], n, k);
    RunStarts(f, n, k, t, init, ts);
    var w := World((o, vs, m) => Ok(0, m), a => 0, g => 0, []);
    CloneAllPoint(w, s, n, ts, {});
    CloneAllSsa(s, n, ts, {});
  }
}
