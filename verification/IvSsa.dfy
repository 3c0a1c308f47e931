/** DerivedInductionVar keeps a function verified, whatever scalar evolution says. */
module IvSsa {
  import opened IR
  import opened Paths
  import opened Renaming
  import opened StrictSsa
  import opened BlockRewrite
  import opened IvSpec
  import opened IvRuns
  import opened IvLoops

  /** r is an integer PHI of the block. */
  ghost predicate HasPhi(b: Block, r: Reg) { exists j :: 0 <= j < |b.phis| && b.phis[j].dst == r && b.phis[j].ty.IntTy? }

  lemma PhiGives(b: Block, r: Reg)
    requires HasPhi(b, r)
    ensures Gives(b, r)
  {
    var j :| 0 <= j < |b.phis| && b.phis[j].dst == r && b.phis[j].ty.IntTy?;
    assert DstAt(b, j) == r;
  }

  lemma PhiEnters(f: Func, l: Label, r: Reg)
    requires f.order != [] && l in f.blocks && HasPhi(f.blocks[l], r)
    ensures r in Entering(f, l) && r in Defined(f)
  {
    PhiGives(f.blocks[l], r);
    DefinesIsGives(f, l, r);
  }

  // ----- The new instructions -----

  lemma NewReads(prim: Rec, a: Rec, n: nat, k: iset<Reg>)
    requires prim.phi in k
    ensures DefUse(k, NewInstrs(prim, a, n)) && k <= After(k, NewInstrs(prim, a, n)) && n + 2 in After(k, NewInstrs(prim, a, n))
  {
    var x := Instr(n + 1, Arith(Mul, a.width), [PrimaryValue(prim, a.width, n), Const(a.step)]);
    var y := Instr(n + 2, Arith(Add, a.width), [Const(a.start), Ref(n + 1)]);
    var c := CastInstrs(prim, a.width, n);
    if prim.width != a.width {
      OneInstr(k, c[0]);
      assert c == [c[0]];
    }
    assert DefUse(k, c) && k <= After(k, c) && ReadsIn(After(k, c), x.args);
    OneInstr(After(k, c), x);
    OneInstr(After(k, c) + MadeBy(x), y);
    DefUseAppend(After(k, c), [x], [y]);
    DefUseAppend(k, c, [x, y]);
    assert [x] + [y] == [x, y] && NewInstrs(prim, a, n) == c + [x, y];
  }

  function NewHeader(b: Block, prim: Rec, a: Rec, n: nat): Block { b.(body := NewInstrs(prim, a, n) + b.body) }

  lemma NewDsts(f: Func, h: Label, prim: Rec, a: Rec, n: nat)
    requires UniqueDefs(f) && RegsBelow(f, n) && h in f.blocks
    ensures DstsFrom(f.blocks[h], NewHeader(f.blocks[h], prim, a, n), n)
  {
    var b, b', c := f.blocks[h], NewHeader(f.blocks[h], prim, a, n), |NewInstrs(prim, a, n)|;
    var m := |b.phis|;
    assert BlockBelow(b, n);
    forall i | 0 <= i < Count(b')
      ensures m <= i < m + c ==> DstAt(b', i) >= n
      ensures i < m ==> DstAt(b', i) == DstAt(b, i)
      ensures i >= m + c ==> DstAt(b', i) == DstAt(b, i - c)
    {
    }
    forall i | 0 <= i < Count(b')
      ensures DstAt(b', i) >= n || HasDst(b, DstAt(b', i))
    {
      if !(m <= i < m + c) {
        var i' := if i < m then i else i - c;
        assert DstAt(b, i') == DstAt(b', i);
      }
    }
    forall i, j | 0 <= i < j < Count(b')
      ensures DstAt(b', i) != DstAt(b', j)
    {
      var i', j' := if i < m then i else i - c, if j < m then j else j - c;
      if !(m <= i < m + c) && !(m <= j < m + c) && DstAt(b, i') == DstAt(b, j') {
        OneDef(f, h, i', h, j');
      }
    }
  }

  lemma NewKeeps(b: Block, prim: Rec, a: Rec, n: nat)
    ensures Keeps(b, NewHeader(b, prim, a, n))
  {
    var b', c := NewHeader(b, prim, a, n), |NewInstrs(prim, a, n)|;
    forall r | Gives(b, r)
      ensures Gives(b', r)
    {
      var j :| 0 <= j < Count(b) && DstAt(b, j) == r && TyAt(b, j) != Void && !DbgAt(b, j);
      var j' := if j < |b.phis| then j else j + c;
      assert DstAt(b', j') == r && TyAt(b', j') == TyAt(b, j) && DbgAt(b', j') == DbgAt(b, j);
    }
  }

  lemma WithNewIs(f: Func, h: Label, prim: Rec, a: Rec, n: nat)
    requires h in f.blocks
    ensures WithNew(f, h, NewInstrs(prim, a, n)) == Replaced(f, h, NewHeader(f.blocks[h], prim, a, n))
  {
  }

  lemma NewDefUse(f: Func, h: Label, prim: Rec, a: Rec, n: nat)
    requires f.order != [] && RefsDefined(f) && h in f.blocks && BodySsa(f, h) && HasPhi(f.blocks[h], prim.phi)
    ensures var b' := NewHeader(f.blocks[h], prim, a, n);
      BlockReadsIn(Entering(Replaced(f, h, b'), h), b') && DefUse(Defined(Replaced(f, h, b')), b'.body)
  {
    var b, new' := f.blocks[h], NewInstrs(prim, a, n);
    var b' := NewHeader(b, prim, a, n);
    var g := Replaced(f, h, b');
    NewKeeps(b, prim, a, n);
    PhiEnters(g, h, prim.phi);
    BodySsaIs(f, h);
    ReplacedEntering(f, h, b', h);
    NewReads(prim, a, n, Entering(g, h));
    DefUseMono(Entering(f, h), After(Entering(g, h), new'), b.body);
    DefUseAppend(Entering(g, h), new', b.body);
    UsesAreDefined(f, h);
    forall r | r in Defined(f)
      ensures r in Defined(g)
    {
      ReplacedCarries(f, h, b', r);
    }
    ReadsOnlyDefUse(Defined(f), b.body);
    NewReads(prim, a, n, Defined(g));
    DefUseMono(Defined(f), After(Defined(g), new'), b.body);
    DefUseAppend(Defined(g), new', b.body);
  }

  lemma WithNewVerified(f: Func, h: Label, prim: Rec, a: Rec, n: nat)
    requires Verified(f) && RegsBelow(f, n) && h in f.blocks && HasPhi(f.blocks[h], prim.phi)
    ensures Verified(WithNew(f, h, NewInstrs(prim, a, n)))
  {
    WithNewIs(f, h, prim, a, n);
    NewDsts(f, h, prim, a, n);
    NewKeeps(f.blocks[h], prim, a, n);
    NewDefUse(f, h, prim, a, n);
    ReplacedVerified(f, h, NewHeader(f.blocks[h], prim, a, n), n);
  }

  // ----- Replacing uses of d by nv -----

  /** Blocks with uses replaced, or as they were. */
  ghost predicate Variants(f: Func, g: Func, m: map<Reg, Reg>) {
    && g.order == f.order && g.blocks.Keys == f.blocks.Keys
    && forall l :: l in f.blocks ==> g.blocks[l] == f.blocks[l] || g.blocks[l] == ReplaceBlock(m, f.blocks[l])
  }

  lemma VariantPositions(f: Func, g: Func, m: map<Reg, Reg>, l: Label)
    requires Variants(f, g, m) && l in f.blocks
    ensures var b, b' := f.blocks[l], g.blocks[l];
      && |b'.phis| == |b.phis| && |b'.body| == |b.body|
      && forall i :: 0 <= i < Count(b) ==> DstAt(b', i) == DstAt(b, i) && TyAt(b', i) == TyAt(b, i) && DbgAt(b', i) == DbgAt(b, i)
  {
  }

  lemma VariantDefines(f: Func, g: Func, m: map<Reg, Reg>, l: Label, r: Reg)
    requires Variants(f, g, m)
    ensures DefinesValue(g, l, r) <==> DefinesValue(f, l, r)
  {
    if l in f.blocks {
      VariantPositions(f, g, m, l);
      if DefinesValue(f, l, r) {
        var i: nat :| DefinedAt(f, l, i, r);
        assert DefinedAt(g, l, i, r);
      }
      if DefinesValue(g, l, r) {
        var i: nat :| DefinedAt(g, l, i, r);
        assert DefinedAt(f, l, i, r);
      }
    }
  }

  lemma VariantUnique(f: Func, g: Func, m: map<Reg, Reg>)
    requires Variants(f, g, m) && UniqueDefs(f)
    ensures UniqueDefs(g)
  {
    forall p, i, q, j | Pos(g, p, i) && Pos(g, q, j) && DstAt(g.blocks[p], i) == DstAt(g.blocks[q], j)
      ensures p == q && i == j
    {
      VariantPositions(f, g, m, p);
      VariantPositions(f, g, m, q);
      OneDef(f, p, i, q, j);
    }
  }

  lemma VariantEdges(f: Func, g: Func, m: map<Reg, Reg>)
    requires f.order != [] && Variants(f, g, m)
    ensures SameEdges(f, g)
  {
  }

  lemma VariantDefined(f: Func, g: Func, m: map<Reg, Reg>, r: Reg)
    requires Variants(f, g, m)
    ensures r in Defined(g) <==> r in Defined(f)
    ensures Carries(f, g, r, r)
  {
    forall l
      ensures DefinesValue(g, l, r) <==> DefinesValue(f, l, r)
    {
      VariantDefines(f, g, m, l, r);
    }
  }

  lemma VariantEntering(f: Func, g: Func, m: map<Reg, Reg>, l: Label)
    requires f.order != [] && Variants(f, g, m) && l in f.blocks
    ensures Entering(f, l) <= Entering(g, l)
  {
    VariantEdges(f, g, m);
    VariantPositions(f, g, m, l);
    forall r | r in Entering(f, l)
      ensures r in Entering(g, l)
    {
      VariantDefined(f, g, m, r);
      AvailableCarries(f, g, r, r, l);
      if exists j :: 0 <= j < |f.blocks[l].phis| && f.blocks[l].phis[j].dst == r {
        var j :| 0 <= j < |f.blocks[l].phis| && f.blocks[l].phis[j].dst == r;
        assert DstAt(g.blocks[l], j) == DstAt(f.blocks[l], j) && g.blocks[l].phis[j].dst == r;
      }
    }
  }

  /** h defines both d, by a PHI, and nv. */
  ghost predicate Twins(f: Func, h: Label, d: Reg, nv: Reg) {
    UniqueDefs(f) && h in f.blocks && HasPhi(f.blocks[h], d) && DefinesValue(f, h, nv)
  }

  lemma OnlyHeaderDefines(f: Func, h: Label, d: Reg, l: Label)
    requires UniqueDefs(f) && h in f.blocks && HasPhi(f.blocks[h], d) && l in f.blocks && HasDst(f.blocks[l], d)
    ensures l == h
  {
    var j :| 0 <= j < |f.blocks[h].phis| && f.blocks[h].phis[j].dst == d && f.blocks[h].phis[j].ty.IntTy?;
    var i :| 0 <= i < Count(f.blocks[l]) && DstAt(f.blocks[l], i) == d;
    OneDef(f, l, i, h, j);
  }

  lemma TwinCarries(f: Func, g: Func, h: Label, d: Reg, nv: Reg)
    requires Twins(f, h, d, nv) && Variants(f, g, map[d := nv])
    ensures Carries(f, g, d, nv) && nv in Defined(g)
  {
    forall l | DefinesValue(f, l, d)
      ensures DefinesValue(g, l, nv)
    {
      var i: nat :| DefinedAt(f, l, i, d);
      assert HasDst(f.blocks[l], d);
      OnlyHeaderDefines(f, h, d, l);
      VariantDefines(f, g, map[d := nv], h, nv);
    }
    VariantDefines(f, g, map[d := nv], h, nv);
  }

  /** Outside the header, what entered a block enters it under its new name. */
  lemma TwinCovers(f: Func, g: Func, h: Label, d: Reg, nv: Reg, l: Label)
    requires f.order != [] && Twins(f, h, d, nv) && Variants(f, g, map[d := nv]) && l in f.blocks && l != h
    ensures Covers(map[d := nv], Entering(f, l), Entering(g, l))
  {
    VariantEntering(f, g, map[d := nv], l);
    VariantEdges(f, g, map[d := nv]);
    TwinCarries(f, g, h, d, nv);
    AvailableCarries(f, g, d, nv, l);
    if exists j :: 0 <= j < |f.blocks[l].phis| && f.blocks[l].phis[j].dst == d {
      var j :| 0 <= j < |f.blocks[l].phis| && f.blocks[l].phis[j].dst == d;
      assert DstAt(f.blocks[l], j) == d && HasDst(f.blocks[l], d);
      OnlyHeaderDefines(f, h, d, l);
    }
  }

  lemma ReplaceRenames(m: map<Reg, Reg>, body: seq<Instr>)
    ensures Renames(m, body, ReplaceBody(m, body))
  {
    forall i | 0 <= i < |body|
      ensures RenamesInstr(m, body[i], ReplaceBody(m, body)[i])
    {
    }
  }

  lemma BodyWritesNot(f: Func, h: Label, d: Reg, l: Label)
    requires UniqueDefs(f) && h in f.blocks && HasPhi(f.blocks[h], d) && l in f.blocks
    ensures forall i :: 0 <= i < |f.blocks[l].body| ==> f.blocks[l].body[i].dst != d
  {
    forall i | 0 <= i < |f.blocks[l].body|
      ensures f.blocks[l].body[i].dst != d
    {
      var j :| 0 <= j < |f.blocks[h].phis| && f.blocks[h].phis[j].dst == d && f.blocks[h].phis[j].ty.IntTy?;
      if f.blocks[l].body[i].dst == d {
        OneDef(f, l, |f.blocks[l].phis| + i, h, j);
      }
    }
  }

  lemma OtherReads(f: Func, g: Func, h: Label, d: Reg, nv: Reg, l: Label)
    requires f.order != [] && Twins(f, h, d, nv) && Variants(f, g, map[d := nv]) && l in f.blocks && l != h
    requires BlockReadsIn(Entering(f, l), f.blocks[l])
    ensures BlockReadsIn(Entering(g, l), g.blocks[l])
  {
    var m, b := map[d := nv], f.blocks[l];
    VariantEntering(f, g, m, l);
    DefUseMono(Entering(f, l), Entering(g, l), b.body);
    if g.blocks[l] != b {
      TwinCovers(f, g, h, d, nv, l);
      ReplaceRenames(m, b.body);
      BodyWritesNot(f, h, d, l);
      RenamedBlockReads(m, Entering(f, l), Entering(g, l), b, g.blocks[l]);
    }
  }

  /** In the header nv is made before the rest of the body. */
  lemma HeaderReads(f: Func, g: Func, h: Label, d: Reg, nv: Reg, new': seq<Instr>, rest: seq<Instr>)
    requires f.order != [] && Twins(f, h, d, nv) && Variants(f, g, map[d := nv]) && f.blocks[h].body == new' + rest
    requires BlockReadsIn(Entering(f, h), f.blocks[h]) && g.blocks[h] == ReplaceBlock(map[d := nv], f.blocks[h])
    requires ReplaceBody(map[d := nv], new') == new' && nv in After(Entering(f, h), new')
    ensures BlockReadsIn(Entering(g, h), g.blocks[h])
  {
    var m := map[d := nv];
    VariantEntering(f, g, m, h);
    DefUseAppend(Entering(f, h), new', rest);
    DefUseMono(Entering(f, h), Entering(g, h), new');
    ReplaceAppend(m, new', rest);
    ReplaceRenames(m, rest);
    BodyWritesNot(f, h, d, h);
    forall i | 0 <= i < |rest|
      ensures rest[i].dst != d
    {
      assert f.blocks[h].body[|new'| + i] == rest[i];
    }
    RenamedReads(m, After(Entering(f, h), new'), After(Entering(g, h), new'), rest, ReplaceBody(m, rest));
    RenamedUses(m, After(Entering(f, h), f.blocks[h].body), After(After(Entering(g, h), new'), ReplaceBody(m, rest)), f.blocks[h].term.uses);
    DefUseAppend(Entering(g, h), new', ReplaceBody(m, rest));
  }

  lemma VariantPhisSsa(f: Func, g: Func, h: Label, d: Reg, nv: Reg, l: Label)
    requires f.order != [] && Twins(f, h, d, nv) && Variants(f, g, map[d := nv]) && l in f.blocks && PhisSsa(f, f.blocks[l])
    ensures PhisSsa(g, g.blocks[l])
  {
    VariantEdges(f, g, map[d := nv]);
    TwinCarries(f, g, h, d, nv);
    var phis, phis' := f.blocks[l].phis, g.blocks[l].phis;
    forall i, j | 0 <= i < |phis'| && 0 <= j < |phis'[i].incoming| && phis'[i].incoming[j].1.Ref?
      ensures AtEnd(g, phis'[i].incoming[j].0, phis'[i].incoming[j].1.r)
    {
      var e := phis[i].incoming[j];
      VariantDefined(f, g, map[d := nv], e.1.r);
      AvailableCarries(f, g, e.1.r, e.1.r, e.0);
      AvailableCarries(f, g, d, nv, e.0);
    }
  }

  lemma VariantUses(f: Func, g: Func, h: Label, d: Reg, nv: Reg, l: Label)
    requires RefsDefined(f) && Twins(f, h, d, nv) && Variants(f, g, map[d := nv]) && l in f.blocks
    ensures UsesIn(Defined(g), g.blocks[l])
  {
    UsesAreDefined(f, l);
    TwinCarries(f, g, h, d, nv);
    forall r | r in Defined(f)
      ensures r in Defined(g)
    {
      VariantDefined(f, g, map[d := nv], r);
    }
    var b, b' := f.blocks[l], g.blocks[l];
    forall i | 0 <= i < |b'.body| && !b'.body[i].op.dbg
      ensures ReadsIn(Defined(g), b'.body[i].args)
    {
      assert ReadsIn(Defined(f), b.body[i].args);
    }
  }

  lemma VariantCovers(f: Func, g: Func, m: map<Reg, Reg>, l: Label)
    requires Variants(f, g, m) && l in f.blocks && PhisCover(f, l)
    ensures PhisCover(g, l)
  {
    var phis, phis' := f.blocks[l].phis, g.blocks[l].phis;
    forall i, p | 0 <= i < |phis'|
      ensures Lists(phis'[i].incoming, p) <==> g.Edge(p, l)
    {
      assert f.Edge(p, l) <==> g.Edge(p, l);
      assert Lists(phis[i].incoming, p) <==> f.Edge(p, l);
      var inc, inc' := phis[i].incoming, phis'[i].incoming;
      assert |inc'| == |inc| && forall j :: 0 <= j < |inc| ==> inc'[j].0 == inc[j].0;
      if Lists(inc, p) {
        var j :| 0 <= j < |inc| && inc[j].0 == p;
        assert inc'[j].0 == p;
      }
    }
  }

  lemma VariantFrame(f: Func, g: Func, m: map<Reg, Reg>)
    requires WellFormed(f) && Variants(f, g, m) && UniqueDefs(g) && RefsDefined(g)
    ensures WellFormed(g)
  {
    forall l | l in g.blocks
      ensures TermOk(g, g.blocks[l].term) && PhisCover(g, l)
    {
      assert TermOk(f, f.blocks[l].term) && PhisCover(f, l);
      VariantCovers(f, g, m, l);
    }
    VariantPositions(f, g, m, f.order[0]);
  }

  lemma VariantsVerified(f: Func, g: Func, h: Label, d: Reg, nv: Reg, new': seq<Instr>, rest: seq<Instr>)
    requires Verified(f) && Twins(f, h, d, nv) && Variants(f, g, map[d := nv]) && f.blocks[h].body == new' + rest
    requires g.blocks[h] == ReplaceBlock(map[d := nv], f.blocks[h])
    requires ReplaceBody(map[d := nv], new') == new' && nv in After(Entering(f, h), new')
    ensures Verified(g)
  {
    VariantUnique(f, g, map[d := nv]);
    forall l | l in g.blocks
      ensures UsesIn(Defined(g), g.blocks[l])
    {
      VariantUses(f, g, h, d, nv, l);
    }
    UsesInAll(g);
    VariantFrame(f, g, map[d := nv]);
    forall l | l in g.blocks
      ensures BodySsa(g, l) && PhisSsa(g, g.blocks[l])
    {
      BodySsaIs(f, l);
      if l == h {
        HeaderReads(f, g, h, d, nv, new', rest);
      } else {
        OtherReads(f, g, h, d, nv, l);
      }
      BodySsaIs(g, l);
      VariantPhisSsa(f, g, h, d, nv, l);
    }
  }

  // ----- Rewriting one PHI -----

  lemma RewriteVariants(f: Func, loop: Loop, prim: Rec, a: Rec, n: nat)
    requires loop.header in f.blocks && loop.header in loop.blocks
    ensures var f1, g := WithNew(f, loop.header, NewInstrs(prim, a, n)), Rewrite(f, loop, prim, a, n);
      Variants(f1, g, map[a.phi := n + 2]) && g.blocks[loop.header] == ReplaceBlock(map[a.phi := n + 2], f1.blocks[loop.header])
  {
  }

  lemma NewTwins(f: Func, h: Label, prim: Rec, a: Rec, n: nat)
    requires f.order != [] && h in f.blocks && HasPhi(f.blocks[h], prim.phi) && HasPhi(f.blocks[h], a.phi)
    requires UniqueDefs(WithNew(f, h, NewInstrs(prim, a, n)))
    ensures var f1 := WithNew(f, h, NewInstrs(prim, a, n));
      Twins(f1, h, a.phi, n + 2) && n + 2 in After(Entering(f1, h), NewInstrs(prim, a, n))
  {
    var f1, new' := WithNew(f, h, NewInstrs(prim, a, n)), NewInstrs(prim, a, n);
    assert f1.blocks[h].phis == f.blocks[h].phis;
    PhiEnters(f1, h, prim.phi);
    NewReads(prim, a, n, Entering(f1, h));
    var c := |new'| - 1;
    assert DefinedAt(f1, h, |f.blocks[h].phis| + c, n + 2);
  }

  /** f1 has the new instructions in its header, and nv can stand for d there. */
  ghost predicate Prepared(f1: Func, h: Label, d: Reg, nv: Reg, new': seq<Instr>, rest: seq<Instr>) {
    && f1.order != [] && Twins(f1, h, d, nv) && f1.blocks[h].body == new' + rest
    && ReplaceBody(map[d := nv], new') == new' && nv in After(Entering(f1, h), new')
  }

  lemma PreparedIs(f: Func, h: Label, prim: Rec, a: Rec, n: nat)
    requires f.order != [] && h in f.blocks && a.phi != prim.phi && a.phi < n && UniqueDefs(WithNew(f, h, NewInstrs(prim, a, n)))
    requires HasPhi(f.blocks[h], prim.phi) && HasPhi(f.blocks[h], a.phi)
    ensures Prepared(WithNew(f, h, NewInstrs(prim, a, n)), h, a.phi, n + 2, NewInstrs(prim, a, n), f.blocks[h].body)
  {
    NewTwins(f, h, prim, a, n);
    NewStays(prim, a, n, a.phi, n + 2);
  }

  lemma PreparedVerified(f1: Func, g: Func, h: Label, d: Reg, nv: Reg, new': seq<Instr>, rest: seq<Instr>)
    requires Verified(f1) && Prepared(f1, h, d, nv, new', rest)
    requires Variants(f1, g, map[d := nv]) && g.blocks[h] == ReplaceBlock(map[d := nv], f1.blocks[h])
    ensures Verified(g)
  {
    VariantsVerified(f1, g, h, d, nv, new', rest);
  }

  lemma VerifiedIsUnique(f: Func)
    requires Verified(f)
    ensures f.order != [] && UniqueDefs(f)
  {
  }

  lemma NewPrepared(f: Func, h: Label, prim: Rec, a: Rec, n: nat)
    requires Verified(f) && RegsBelow(f, n) && h in f.blocks && a.phi != prim.phi && a.phi < n
    requires HasPhi(f.blocks[h], prim.phi) && HasPhi(f.blocks[h], a.phi)
    ensures Verified(WithNew(f, h, NewInstrs(prim, a, n)))
    ensures Prepared(WithNew(f, h, NewInstrs(prim, a, n)), h, a.phi, n + 2, NewInstrs(prim, a, n), f.blocks[h].body)
  {
    WithNewVerified(f, h, prim, a, n);
    VerifiedIsUnique(WithNew(f, h, NewInstrs(prim, a, n)));
    PreparedIs(f, h, prim, a, n);
  }

  lemma UsesReplaced(f: Func, loop: Loop, prim: Rec, a: Rec, n: nat)
    requires loop.header in f.blocks && loop.header in loop.blocks && Verified(WithNew(f, loop.header, NewInstrs(prim, a, n)))
    requires Prepared(WithNew(f, loop.header, NewInstrs(prim, a, n)), loop.header, a.phi, n + 2, NewInstrs(prim, a, n),
                      f.blocks[loop.header].body)
    ensures Verified(Rewrite(f, loop, prim, a, n))
  {
    RewriteVariants(f, loop, prim, a, n);
    PreparedVerified(WithNew(f, loop.header, NewInstrs(prim, a, n)), Rewrite(f, loop, prim, a, n),
                     loop.header, a.phi, n + 2, NewInstrs(prim, a, n), f.blocks[loop.header].body);
  }

  /** Rewriting the uses of one derived PHI. */
  lemma RewriteVerified(f: Func, loop: Loop, prim: Rec, a: Rec, n: nat)
    requires Verified(f) && RegsBelow(f, n) && HeaderIn(f, loop) && a.phi != prim.phi && a.phi < n
    requires HasPhi(f.blocks[loop.header], prim.phi) && HasPhi(f.blocks[loop.header], a.phi)
    ensures Verified(Rewrite(f, loop, prim, a, n))
  {
    NewPrepared(f, loop.header, prim, a, n);
    UsesReplaced(f, loop, prim, a, n);
  }

  // ----- Erasing PHIs without uses -----

  function WithoutBlock(b: Block, dead: set<Reg>): Block { b.(phis := WithoutPhis(b.phis, dead)) }

  lemma {:induction false} WithoutAt(phis: seq<Phi>, dead: set<Reg>, i: nat, j: nat) returns (a: nat, b: nat)
    requires i <= j < |WithoutPhis(phis, dead)|
    ensures a <= b < |phis| && (i < j ==> a < b) && (i == j ==> a == b)
    ensures WithoutPhis(phis, dead)[i] == phis[a] && WithoutPhis(phis, dead)[j] == phis[b] && phis[a].dst !in dead
    decreases phis
  {
    var c := if phis[0].dst in dead then 0 else 1;
    if j < c {
      a, b := 0, 0;
    } else if i < c {
      a, b := WithoutAt(phis[1..], dead, j - c, j - c);
      a, b := 0, b + 1;
    } else {
      a, b := WithoutAt(phis[1..], dead, i - c, j - c);
      a, b := a + 1, b + 1;
    }
  }

  lemma {:induction false} WithoutKeeps(phis: seq<Phi>, dead: set<Reg>, i: nat) returns (a: nat)
    requires i < |phis| && phis[i].dst !in dead
    ensures a < |WithoutPhis(phis, dead)| && WithoutPhis(phis, dead)[a] == phis[i]
    decreases phis
  {
    var c := if phis[0].dst in dead then 0 else 1;
    if i == 0 {
      a := 0;
    } else {
      a := WithoutKeeps(phis[1..], dead, i - 1);
      a := a + c;
    }
  }

  lemma WithoutDsts(f: Func, h: Label, dead: set<Reg>, n: nat)
    requires UniqueDefs(f) && h in f.blocks
    ensures DstsFrom(f.blocks[h], WithoutBlock(f.blocks[h], dead), n)
  {
    var b, b' := f.blocks[h], WithoutBlock(f.blocks[h], dead);
    forall i, j | 0 <= i <= j < Count(b')
      ensures HasDst(b, DstAt(b', i))
      ensures i < j ==> DstAt(b', i) != DstAt(b', j)
    {
      var i', j' := OldPair(b, dead, i, j);
      if i < j && DstAt(b, i') == DstAt(b, j') {
        OneDef(f, h, i', h, j');
      }
    }
    assert forall i :: 0 <= i < Count(b') ==> 0 <= i <= i < Count(b') && HasDst(b, DstAt(b', i));
  }

  lemma OldPair(b: Block, dead: set<Reg>, i: nat, j: nat) returns (i': nat, j': nat)
    requires i <= j < Count(WithoutBlock(b, dead))
    ensures i' <= j' < Count(b) && (i < j ==> i' < j')
    ensures DstAt(b, i') == DstAt(WithoutBlock(b, dead), i) && DstAt(b, j') == DstAt(WithoutBlock(b, dead), j)
  {
    var p, m := |WithoutPhis(b.phis, dead)|, |b.phis|;
    if j < p {
      i', j' := WithoutAt(b.phis, dead, i, j);
    } else {
      j' := j - p + m;
      if i < p {
        var a, _ := WithoutAt(b.phis, dead, i, i);
        i' := a;
      } else {
        i' := i - p + m;
      }
    }
  }

  /** Every register but the erased ones. */
  ghost function Others(dead: set<Reg>): iset<Reg> { iset r: Reg | r !in dead }

  lemma ErasedCarries(f: Func, h: Label, dead: set<Reg>, r: Reg)
    requires h in f.blocks && r !in dead
    ensures Carries(f, ErasePhis(f, h, dead), r, r)
    ensures r in Defined(f) ==> r in Defined(ErasePhis(f, h, dead))
  {
    var g := ErasePhis(f, h, dead);
    forall l | DefinesValue(f, l, r)
      ensures DefinesValue(g, l, r)
    {
      var i: nat :| DefinedAt(f, l, i, r);
      if l == h {
        var b, b' := f.blocks[h], g.blocks[h];
        if i < |b.phis| {
          var a := WithoutKeeps(b.phis, dead, i);
          assert DefinedAt(g, h, a, r);
        } else {
          assert DefinedAt(g, h, i - |b.phis| + |b'.phis|, r);
        }
      } else {
        assert DefinedAt(g, l, i, r);
      }
    }
  }

  lemma ErasedEdges(f: Func, h: Label, dead: set<Reg>)
    requires f.order != [] && h in f.blocks
    ensures SameEdges(f, ErasePhis(f, h, dead))
  {
  }

  lemma ErasedEntering(f: Func, h: Label, dead: set<Reg>, l: Label)
    requires f.order != [] && h in f.blocks && l in f.blocks
    ensures Entering(f, l) * Others(dead) <= Entering(ErasePhis(f, h, dead), l)
  {
    ErasedEdges(f, h, dead);
    forall r | r in Entering(f, l) && r !in dead
      ensures r in Entering(ErasePhis(f, h, dead), l)
    {
      ErasedCarries(f, h, dead, r);
      AvailableCarries(f, ErasePhis(f, h, dead), r, r, l);
      if l == h && exists j :: 0 <= j < |f.blocks[l].phis| && f.blocks[l].phis[j].dst == r {
        var j :| 0 <= j < |f.blocks[l].phis| && f.blocks[l].phis[j].dst == r;
        var a := WithoutKeeps(f.blocks[l].phis, dead, j);
      }
    }
  }

  lemma UnreadOthers(f: Func, dead: set<Reg>, l: Label)
    requires l in f.blocks && forall r :: r in dead ==> UseEmpty(f, r)
    ensures UsesIn(Others(dead), f.blocks[l])
  {
    var b := f.blocks[l];
    forall r | r in dead
      ensures Unread(b, r)
    {
      EmptyIsUnread(f, r, l);
    }
    forall i, k | 0 <= i < |b.body| && !b.body[i].op.dbg && 0 <= k < |b.body[i].args| && b.body[i].args[k].Ref?
      ensures b.body[i].args[k].r !in dead
    {
      assert b.body[i].args[k] in b.body[i].args;
    }
    forall k | 0 <= k < |b.term.uses| && b.term.uses[k].Ref?
      ensures b.term.uses[k].r !in dead
    {
      assert b.term.uses[k] in b.term.uses;
    }
  }

  lemma ErasedReads(f: Func, h: Label, dead: set<Reg>, l: Label)
    requires f.order != [] && h in f.blocks && l in f.blocks && BodySsa(f, l) && forall r :: r in dead ==> UseEmpty(f, r)
    ensures BodySsa(ErasePhis(f, h, dead), l)
  {
    var g, b := ErasePhis(f, h, dead), f.blocks[l];
    BodySsaIs(f, l);
    BodySsaIs(g, l);
    UnreadOthers(f, dead, l);
    ErasedEntering(f, h, dead, l);
    DefUseWithin(Entering(f, l), Others(dead), b.body);
    DefUseMono(Entering(f, l) * Others(dead), Entering(g, l), b.body);
  }

  lemma ErasedPhi(f: Func, h: Label, dead: set<Reg>, l: Label, i: nat) returns (a: nat)
    requires h in f.blocks && l in f.blocks && i < |ErasePhis(f, h, dead).blocks[l].phis|
    ensures a < |f.blocks[l].phis| && ErasePhis(f, h, dead).blocks[l].phis[i] == f.blocks[l].phis[a]
  {
    a := i;
    if l == h {
      var c, _ := WithoutAt(f.blocks[h].phis, dead, i, i);
      a := c;
    }
  }

  lemma ErasedPhisSsa(f: Func, h: Label, dead: set<Reg>, l: Label)
    requires f.order != [] && h in f.blocks && l in f.blocks && PhisSsa(f, f.blocks[l]) && forall r :: r in dead ==> UseEmpty(f, r)
    ensures PhisSsa(ErasePhis(f, h, dead), ErasePhis(f, h, dead).blocks[l])
  {
    var g := ErasePhis(f, h, dead);
    ErasedEdges(f, h, dead);
    UnreadOthers(f, dead, l);
    forall i, k | 0 <= i < |g.blocks[l].phis| && 0 <= k < |g.blocks[l].phis[i].incoming| && g.blocks[l].phis[i].incoming[k].1.Ref?
      ensures AtEnd(g, g.blocks[l].phis[i].incoming[k].0, g.blocks[l].phis[i].incoming[k].1.r)
    {
      var a := ErasedPhi(f, h, dead, l, i);
      var e := f.blocks[l].phis[a].incoming[k];
      ErasedCarries(f, h, dead, e.1.r);
      AvailableCarries(f, g, e.1.r, e.1.r, e.0);
    }
  }

  lemma ErasedUses(f: Func, h: Label, dead: set<Reg>, l: Label)
    requires RefsDefined(f) && h in f.blocks && l in f.blocks && forall r :: r in dead ==> UseEmpty(f, r)
    ensures UsesIn(Defined(ErasePhis(f, h, dead)), ErasePhis(f, h, dead).blocks[l])
  {
    var g := ErasePhis(f, h, dead);
    UsesAreDefined(f, l);
    UnreadOthers(f, dead, l);
    forall r | r in Defined(f) && r !in dead
      ensures r in Defined(g)
    {
      ErasedCarries(f, h, dead, r);
    }
    forall i, k | 0 <= i < |g.blocks[l].phis| && 0 <= k < |g.blocks[l].phis[i].incoming| && g.blocks[l].phis[i].incoming[k].1.Ref?
      ensures g.blocks[l].phis[i].incoming[k].1.r in Defined(g)
    {
      var a := ErasedPhi(f, h, dead, l, i);
    }
    forall i | 0 <= i < |g.blocks[l].body| && !g.blocks[l].body[i].op.dbg
      ensures ReadsIn(Defined(g), g.blocks[l].body[i].args)
    {
      assert ReadsIn(Defined(f), f.blocks[l].body[i].args) && ReadsIn(Others(dead), f.blocks[l].body[i].args);
    }
  }

  lemma ErasedFrame(f: Func, h: Label, dead: set<Reg>)
    requires WellFormed(f) && h in f.blocks && UniqueDefs(ErasePhis(f, h, dead)) && RefsDefined(ErasePhis(f, h, dead))
    ensures WellFormed(ErasePhis(f, h, dead))
  {
    var g := ErasePhis(f, h, dead);
    forall l | l in g.blocks
      ensures TermOk(g, g.blocks[l].term) && PhisCover(g, l)
    {
      assert TermOk(f, f.blocks[l].term) && PhisCover(f, l);
      forall i, p | 0 <= i < |g.blocks[l].phis|
        ensures Lists(g.blocks[l].phis[i].incoming, p) <==> g.Edge(p, l)
      {
        var a := ErasedPhi(f, h, dead, l, i);
        assert f.Edge(p, l) <==> g.Edge(p, l);
      }
    }
  }

  lemma EraseVerified(f: Func, h: Label, dead: set<Reg>, n: nat)
    requires Verified(f) && RegsBelow(f, n) && h in f.blocks && forall r :: r in dead ==> UseEmpty(f, r)
    ensures Verified(ErasePhis(f, h, dead))
  {
    var g := ErasePhis(f, h, dead);
    WithoutDsts(f, h, dead, n);
    ReplacedUnique(f, h, WithoutBlock(f.blocks[h], dead), n);
    assert g == Replaced(f, h, WithoutBlock(f.blocks[h], dead));
    forall l | l in g.blocks
      ensures UsesIn(Defined(g), g.blocks[l])
    {
      ErasedUses(f, h, dead, l);
    }
    UsesInAll(g);
    ErasedFrame(f, h, dead);
    forall l | l in g.blocks
      ensures BodySsa(g, l) && PhisSsa(g, g.blocks[l])
    {
      ErasedReads(f, h, dead, l);
      ErasedPhisSsa(f, h, dead, l);
    }
  }

  // ----- One loop, and all -----

  /** What holds, besides, after some PHIs of the loop were rewritten. */
  ghost predicate RegPoint(t: Progress, prim: Rec) {
    RegsBelow(t.f, t.n) && forall r :: r in t.dead ==> r != prim.phi && r < t.n && UseEmpty(t.f, r)
  }

  lemma RegAdvances(t: Progress, loop: Loop, prim: Rec, scevs: Scevs, phi: Phi)
    requires RegPoint(t, prim) && HeaderIn(t.f, loop) && phi.dst != prim.phi && phi.dst < t.n && prim.phi < t.n
    ensures RegPoint(RewriteOne(t, loop, prim, scevs, phi), prim)
  {
    if IsConstRec(scevs, phi) {
      var a := RecOf(scevs, phi);
      RewriteBelow(t.f, loop, prim, a, t.n);
      DeadKept(t.f, loop, prim, a, t.n, t.dead);
    }
  }

  lemma OneRewritten(t: Progress, loop: Loop, prim: Rec, scevs: Scevs, phi: Phi)
    requires Verified(t.f) && RegPoint(t, prim) && HeaderIn(t.f, loop) && HasPhi(t.f.blocks[loop.header], prim.phi)
    requires HasPhi(t.f.blocks[loop.header], phi.dst) && phi.dst != prim.phi && phi.dst < t.n
    ensures Verified(RewriteOne(t, loop, prim, scevs, phi).f)
  {
    if IsConstRec(scevs, phi) {
      RewriteVerified(t.f, loop, prim, RecOf(scevs, phi), t.n);
    }
  }

  lemma HeadsHave(phis: seq<Phi>, b: Block, x: Phi)
    requires SameHeads(phis, b.phis) && x in phis && x.ty.IntTy?
    ensures HasPhi(b, x.dst)
  {
    var j :| 0 <= j < |phis| && phis[j] == x;
    assert b.phis[j].dst == x.dst && b.phis[j].ty == x.ty;
  }

  /** The PHIs to rewrite are integer PHIs of the header, and not the primary. */
  ghost predicate PhisOf(f: Func, h: Label, prim: Phi, n: nat, phis: seq<Phi>)
    requires h in f.blocks
  {
    forall phi :: phi in phis ==> phi in f.blocks[h].phis && phi.ty.IntTy? && phi.dst != prim.dst && phi.dst < n
  }

  lemma {:induction false} AllRegs(f: Func, n: nat, loop: Loop, prim: Phi, scevs: Scevs, phis: seq<Phi>)
    requires RegsBelow(f, n) && HeaderIn(f, loop) && IsConstRec(scevs, prim) && prim.dst < n && PhisOf(f, loop.header, prim, n, phis)
    ensures var t := RewriteAll(Progress(f, n, {}), loop, RecOf(scevs, prim), scevs, phis);
      RegPoint(t, RecOf(scevs, prim)) && HeaderIn(t.f, loop) && n <= t.n && t.f.order == f.order
      && SameHeads(f.blocks[loop.header].phis, t.f.blocks[loop.header].phis)
    decreases phis
  {
    var rec := RecOf(scevs, prim);
    AllHeads(f, loop, rec, scevs, n, phis, loop.header);
    if phis != [] {
      var k := |phis| - 1;
      AllRegs(f, n, loop, prim, scevs, phis[..k]);
      assert phis[k] in phis;
      RegAdvances(RewriteAll(Progress(f, n, {}), loop, rec, scevs, phis[..k]), loop, rec, scevs, phis[k]);
    }
  }

  lemma {:induction false} AllRewritten(f: Func, n: nat, loop: Loop, prim: Phi, scevs: Scevs, phis: seq<Phi>)
    requires Verified(f) && RegsBelow(f, n) && HeaderIn(f, loop) && IsConstRec(scevs, prim) && prim in f.blocks[loop.header].phis
    requires prim.dst < n && PhisOf(f, loop.header, prim, n, phis)
    ensures Verified(RewriteAll(Progress(f, n, {}), loop, RecOf(scevs, prim), scevs, phis).f)
    decreases phis
  {
    if phis != [] {
      var k, rec := |phis| - 1, RecOf(scevs, prim);
      AllRewritten(f, n, loop, prim, scevs, phis[..k]);
      AllRegs(f, n, loop, prim, scevs, phis[..k]);
      var t := RewriteAll(Progress(f, n, {}), loop, rec, scevs, phis[..k]);
      assert phis[k] in phis;
      HeadsHave(f.blocks[loop.header].phis, t.f.blocks[loop.header], prim);
      HeadsHave(f.blocks[loop.header].phis, t.f.blocks[loop.header], phis[k]);
      OneRewritten(t, loop, rec, scevs, phis[k]);
    }
  }

  lemma {:induction false} DerivedAreInts(scevs: Scevs, primary: Reg, phis: seq<Phi>, x: Phi)
    requires x in DerivedOf(scevs, primary, phis)
    ensures x.ty.IntTy?
    decreases phis
  {
    var n := |phis| - 1;
    if x in DerivedOf(scevs, primary, phis[..n]) {
      DerivedAreInts(scevs, primary, phis[..n], x);
    }
  }

  lemma LoopPhis(f: Func, loop: Loop, scevs: Scevs, n: nat, p: Phi)
    requires RegsBelow(f, n) && HeaderIn(f, loop) && PrimaryOf(scevs, f.blocks[loop.header].phis) == Some(p)
    ensures IsConstRec(scevs, p) && p in f.blocks[loop.header].phis && p.dst < n
    ensures PhisOf(f, loop.header, p, n, DerivedOf(scevs, p.dst, f.blocks[loop.header].phis))
  {
    var phis := f.blocks[loop.header].phis;
    var i := PrimaryIs(scevs, phis);
    assert BlockBelow(f.blocks[loop.header], n);
    forall phi | phi in DerivedOf(scevs, p.dst, phis)
      ensures phi in phis && phi.ty.IntTy? && phi.dst != p.dst && phi.dst < n
    {
      DerivedIs(scevs, p.dst, phis, phi);
      DerivedAreInts(scevs, p.dst, phis, phi);
    }
  }

  /** The rewritings of a loop, before the PHIs are erased. */
  lemma LoopRewritten(f: Func, loop: Loop, scevs: Scevs, n: nat, p: Phi) returns (t: Progress)
    requires Verified(f) && RegsBelow(f, n) && HeaderIn(f, loop) && PrimaryOf(scevs, f.blocks[loop.header].phis) == Some(p)
    ensures Verified(t.f) && RegsBelow(t.f, t.n) && t.f.order == f.order && loop.header in t.f.blocks
    ensures forall r :: r in t.dead ==> UseEmpty(t.f, r)
    ensures ProcessLoop(f, loop, scevs, n) == (ErasePhis(t.f, loop.header, t.dead), t.n)
  {
    LoopPhis(f, loop, scevs, n, p);
    var ds := DerivedOf(scevs, p.dst, f.blocks[loop.header].phis);
    AllRewritten(f, n, loop, p, scevs, ds);
    AllRegs(f, n, loop, p, scevs, ds);
    t := RewriteAll(Progress(f, n, {}), loop, RecOf(scevs, p), scevs, ds);
  }

  /** One loop. */
  lemma LoopVerified(f: Func, loop: Loop, scevs: Scevs, n: nat) returns (g: Func, k: nat)
    requires Verified(f) && RegsBelow(f, n) && HeaderIn(f, loop)
    ensures ProcessLoop(f, loop, scevs, n) == (g, k) && Verified(g) && RegsBelow(g, k) && g.order == f.order
  {
    var p := PrimaryOf(scevs, f.blocks[loop.header].phis);
    if p.Some? {
      var t := LoopRewritten(f, loop, scevs, n, p.value);
      EraseVerified(t.f, loop.header, t.dead, t.n);
      EraseKeeps(t.f, loop.header, t.dead, t.n);
      g, k := ErasePhis(t.f, loop.header, t.dead), t.n;
    } else {
      g, k := f, n;
    }
  }

  /** The IR verifier accepts what DerivedInductionVar makes of a function it accepts, whatever the
      recurrences it is told of. */
  lemma {:induction false} IvVerified(f: Func, loops: seq<Loop>, scevs: Scevs, n: nat)
    requires Verified(f) && RegsBelow(f, n) && forall loop :: loop in loops ==> loop.header in f.blocks && loop.header in loop.blocks
    ensures Verified(ProcessAll(f, loops, scevs, n).0)
    decreases loops
  {
    if loops != [] {
      var g, k := LoopVerified(f, loops[0], scevs, n);
      assert g.blocks.Keys == f.blocks.Keys;
      IvVerified(g, loops[1..], scevs, k);
    }
  }
}
