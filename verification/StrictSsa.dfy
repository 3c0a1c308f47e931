/** Strict SSA form: every use of a value is preceded by its definition on every path. */
module StrictSsa {
  import opened IR
  import opened Paths
  import opened Renaming

  predicate Makes(x: Instr) { x.op.ty != Void && !x.op.dbg }

  ghost predicate MadeBefore(body: seq<Instr>, i: int, r: Reg) {
    exists j :: 0 <= j < i && j < |body| && body[j].dst == r && Makes(body[j])
  }

  ghost function Made(body: seq<Instr>): set<Reg> { set j | 0 <= j < |body| && Makes(body[j]) :: body[j].dst }

  /** r has a value when position i of the body of l is reached. */
  ghost predicate Reaches(f: Func, l: Label, i: int, r: Reg)
    requires f.order != [] && l in f.blocks
  {
    || (exists j :: 0 <= j < |f.blocks[l].phis| && f.blocks[l].phis[j].dst == r)
    || MadeBefore(f.blocks[l].body, i, r)
    || Available(f, Ref(r), l)
  }

  ghost predicate BodySsa(f: Func, l: Label)
    requires f.order != [] && l in f.blocks
  {
    var b := f.blocks[l];
    && (forall i, k :: 0 <= i < |b.body| && !b.body[i].op.dbg && 0 <= k < |b.body[i].args| && b.body[i].args[k].Ref? ==>
         Reaches(f, l, i, b.body[i].args[k].r))
    && (forall k :: 0 <= k < |b.term.uses| && b.term.uses[k].Ref? ==> Reaches(f, l, |b.body|, b.term.uses[k].r))
  }

  ghost predicate PhisSsa(f: Func, b: Block)
    requires f.order != []
  {
    forall i, k :: 0 <= i < |b.phis| && 0 <= k < |b.phis[i].incoming| && b.phis[i].incoming[k].1.Ref? ==>
      AtEnd(f, b.phis[i].incoming[k].0, b.phis[i].incoming[k].1.r)
  }

  /** Every use of a value is preceded by its definition on every path. */
  ghost predicate Ssa(f: Func)
    requires f.order != []
  {
    forall l :: l in f.blocks ==> BodySsa(f, l) && PhisSsa(f, f.blocks[l])
  }

  /** What the IR verifier accepts. */
  ghost predicate Verified(f: Func) { WellFormed(f) && Ssa(f) }

  lemma DefinedAtEnd(g: Func, m: Label, r: Reg)
    requires g.order != [] && DefinesValue(g, m, r)
    ensures AtEnd(g, m, r)
  {
    forall q | PathTo(g, q, m)
      ensures exists i :: 0 <= i < |q| && DefinesValue(g, q[i], r)
    {
      assert DefinesValue(g, q[|q| - 1], r);
    }
  }

  // ----- Bodies in def-use order -----

  ghost function MadeBy(x: Instr): iset<Reg> { if Makes(x) then iset{x.dst} else iset{} }

  ghost predicate ReadsIn(k: iset<Reg>, xs: seq<Operand>) {
    forall i :: 0 <= i < |xs| && xs[i].Ref? ==> xs[i].r in k
  }

  /** The registers with a value after a body that is entered with values in k. */
  ghost function After(k: iset<Reg>, body: seq<Instr>): iset<Reg> {
    if body == [] then k else After(k + MadeBy(body[0]), body[1..])
  }

  /** Entered with values in k, the body reads registers with a value only. */
  ghost predicate DefUse(k: iset<Reg>, body: seq<Instr>) {
    body == [] || ((body[0].op.dbg || ReadsIn(k, body[0].args)) && DefUse(k + MadeBy(body[0]), body[1..]))
  }

  lemma {:induction false} AfterIs(k: iset<Reg>, body: seq<Instr>, r: Reg)
    ensures r in After(k, body) <==> r in k || MadeBefore(body, |body|, r)
  {
    if body != [] {
      AfterIs(k + MadeBy(body[0]), body[1..], r);
      MadeFirst(body, |body|, r);
    }
  }

  lemma MadeFirst(body: seq<Instr>, i: nat, r: Reg)
    requires 0 < i <= |body|
    ensures MadeBefore(body, i, r) <==> r in MadeBy(body[0]) || MadeBefore(body[1..], i - 1, r)
  {
    if MadeBefore(body, i, r) && r !in MadeBy(body[0]) {
      var j :| 0 <= j < i && body[j].dst == r && Makes(body[j]);
      assert body[1..][j - 1] == body[j];
    }
    if MadeBefore(body[1..], i - 1, r) {
      var j :| 0 <= j < i - 1 && body[1..][j].dst == r && Makes(body[1..][j]);
      assert body[j + 1] == body[1..][j];
    }
  }

  /** Instruction i reads what entered or what was made before it. */
  ghost predicate ReadsMade(k: iset<Reg>, body: seq<Instr>, i: nat)
    requires i < |body|
  {
    body[i].op.dbg || forall h :: 0 <= h < |body[i].args| && body[i].args[h].Ref? ==>
      body[i].args[h].r in k || MadeBefore(body, i, body[i].args[h].r)
  }

  lemma ReadsMadeRest(k: iset<Reg>, body: seq<Instr>, i: nat)
    requires i + 1 < |body|
    ensures ReadsMade(k, body, i + 1) <==> ReadsMade(k + MadeBy(body[0]), body[1..], i)
  {
    var x := body[i + 1];
    assert body[1..][i] == x;
    forall h | 0 <= h < |x.args| && x.args[h].Ref?
      ensures MadeBefore(body, i + 1, x.args[h].r) <==> x.args[h].r in MadeBy(body[0]) || MadeBefore(body[1..], i, x.args[h].r)
    {
      MadeFirst(body, i + 1, x.args[h].r);
    }
  }

  lemma {:induction false} DefUseIs(k: iset<Reg>, body: seq<Instr>)
    ensures DefUse(k, body) <==> forall i :: 0 <= i < |body| ==> ReadsMade(k, body, i)
  {
    if body != [] {
      var k1 := k + MadeBy(body[0]);
      DefUseIs(k1, body[1..]);
      assert ReadsMade(k, body, 0) <==> body[0].op.dbg || ReadsIn(k, body[0].args);
      if forall i :: 0 <= i < |body| ==> ReadsMade(k, body, i) {
        forall i | 0 <= i < |body[1..]|
          ensures ReadsMade(k1, body[1..], i)
        {
          ReadsMadeRest(k, body, i);
        }
      }
      if DefUse(k, body) {
        forall i | 0 <= i < |body|
          ensures ReadsMade(k, body, i)
        {
          if i > 0 {
            ReadsMadeRest(k, body, i - 1);
          }
        }
      }
    }
  }

  lemma {:induction false} DefUseMono(k: iset<Reg>, k': iset<Reg>, body: seq<Instr>)
    requires k <= k'
    ensures After(k, body) <= After(k', body)
    ensures DefUse(k, body) ==> DefUse(k', body)
  {
    if body != [] {
      DefUseMono(k + MadeBy(body[0]), k' + MadeBy(body[0]), body[1..]);
    }
  }

  lemma {:induction false} DefUseAppend(k: iset<Reg>, s: seq<Instr>, t: seq<Instr>)
    ensures After(k, s + t) == After(After(k, s), t)
    ensures DefUse(k, s + t) <==> DefUse(k, s) && DefUse(After(k, s), t)
    decreases s
  {
    if s == [] {
      assert s + t == t;
    } else {
      assert (s + t)[0] == s[0] && (s + t)[1..] == s[1..] + t;
      DefUseAppend(k + MadeBy(s[0]), s[1..], t);
    }
  }

  lemma OneInstr(k: iset<Reg>, x: Instr)
    ensures After(k, [x]) == k + MadeBy(x)
    ensures DefUse(k, [x]) <==> x.op.dbg || ReadsIn(k, x.args)
  {
    assert [x][1..] == [];
  }

  lemma {:induction false} AfterGrows(k: iset<Reg>, body: seq<Instr>)
    ensures k <= After(k, body)
  {
    if body != [] {
      AfterGrows(k + MadeBy(body[0]), body[1..]);
    }
  }

  // ----- Blocks -----

  /** The registers with a value before the body of l, on every path. */
  ghost function Entering(f: Func, l: Label): iset<Reg>
    requires f.order != [] && l in f.blocks
  {
    iset r: Reg | (exists j :: 0 <= j < |f.blocks[l].phis| && f.blocks[l].phis[j].dst == r) || Available(f, Ref(r), l)
  }

  /** Every register that some instruction gives a value. */
  ghost function Defined(f: Func): iset<Reg> { iset r: Reg | IsDefined(f, r) }

  ghost predicate IsDefined(f: Func, r: Reg) { exists l :: DefinesValue(f, l, r) }

  ghost predicate BlockReadsIn(k: iset<Reg>, b: Block) {
    DefUse(k, b.body) && ReadsIn(After(k, b.body), b.term.uses)
  }

  lemma BodySsaIs(f: Func, l: Label)
    requires f.order != [] && l in f.blocks
    ensures BodySsa(f, l) <==> BlockReadsIn(Entering(f, l), f.blocks[l])
  {
    var b, k := f.blocks[l], Entering(f, l);
    DefUseIs(k, b.body);
    forall r: Reg
      ensures r in After(k, b.body) <==> Reaches(f, l, |b.body|, r)
    {
      AfterIs(k, b.body, r);
    }
    if BodySsa(f, l) {
      forall i | 0 <= i < |b.body|
        ensures ReadsMade(k, b.body, i)
      {
      }
    }
    if BlockReadsIn(k, b) {
      forall i, h | 0 <= i < |b.body| && !b.body[i].op.dbg && 0 <= h < |b.body[i].args| && b.body[i].args[h].Ref?
        ensures Reaches(f, l, i, b.body[i].args[h].r)
      {
        assert ReadsMade(k, b.body, i);
      }
    }
  }

  /** Every read is of a register in d. */
  ghost predicate ReadsOnly(d: iset<Reg>, body: seq<Instr>) {
    forall i :: 0 <= i < |body| && !body[i].op.dbg ==> ReadsIn(d, body[i].args)
  }

  lemma {:induction false} ReadsOnlyDefUse(d: iset<Reg>, body: seq<Instr>)
    requires ReadsOnly(d, body)
    ensures DefUse(d, body)
  {
    if body != [] {
      assert ReadsOnly(d, body[1..]);
      ReadsOnlyDefUse(d, body[1..]);
      DefUseMono(d, d + MadeBy(body[0]), body[1..]);
    }
  }

  lemma {:induction false} DefUseWithin(k: iset<Reg>, d: iset<Reg>, body: seq<Instr>)
    requires DefUse(k, body) && ReadsOnly(d, body)
    ensures DefUse(k * d, body) && After(k, body) * d <= After(k * d, body)
  {
    if body != [] {
      assert ReadsOnly(d, body[1..]);
      DefUseWithin(k + MadeBy(body[0]), d, body[1..]);
      DefUseMono((k + MadeBy(body[0])) * d, k * d + MadeBy(body[0]), body[1..]);
    }
  }

  lemma UsesAreDefined(f: Func, l: Label)
    requires RefsDefined(f) && l in f.blocks
    ensures ReadsOnly(Defined(f), f.blocks[l].body) && ReadsIn(Defined(f), f.blocks[l].term.uses)
    ensures forall i, h :: 0 <= i < |f.blocks[l].phis| && 0 <= h < |f.blocks[l].phis[i].incoming| && f.blocks[l].phis[i].incoming[h].1.Ref? ==>
      f.blocks[l].phis[i].incoming[h].1.r in Defined(f)
  {
    var b := f.blocks[l];
    forall s, r | UsedAt(f, s, r)
      ensures r in Defined(f)
    {
      var m, i: nat :| DefinedAt(f, m, i, r);
      assert DefinesValue(f, m, r);
    }
    forall i, h | 0 <= i < |b.body| && !b.body[i].op.dbg && 0 <= h < |b.body[i].args| && b.body[i].args[h].Ref?
      ensures b.body[i].args[h].r in Defined(f)
    {
      assert UsedAt(f, Site(l, |b.phis| + i, h), b.body[i].args[h].r);
    }
    forall h | 0 <= h < |b.term.uses| && b.term.uses[h].Ref?
      ensures b.term.uses[h].r in Defined(f)
    {
      assert UsedAt(f, Site(l, Count(b), h), b.term.uses[h].r);
    }
    forall i, h | 0 <= i < |b.phis| && 0 <= h < |b.phis[i].incoming| && b.phis[i].incoming[h].1.Ref?
      ensures b.phis[i].incoming[h].1.r in Defined(f)
    {
      assert UsedAt(f, Site(l, i, h), b.phis[i].incoming[h].1.r);
    }
  }

  /** A block reads what entered it and has a value. */
  lemma ReadsEntering(f: Func, l: Label)
    requires f.order != [] && RefsDefined(f) && l in f.blocks && BodySsa(f, l)
    ensures BlockReadsIn(Entering(f, l) * Defined(f), f.blocks[l])
  {
    BodySsaIs(f, l);
    UsesAreDefined(f, l);
    DefUseWithin(Entering(f, l), Defined(f), f.blocks[l].body);
  }

  // ----- Functions with the same edges -----

  ghost predicate SameEdges(f: Func, g: Func) {
    f.order != [] && g.order != [] && g.order[0] == f.order[0] && forall a, b :: g.Edge(a, b) <==> f.Edge(a, b)
  }

  /** Whatever defines r in f defines r' in g. */
  ghost predicate Carries(f: Func, g: Func, r: Reg, r': Reg) {
    forall m :: DefinesValue(f, m, r) ==> DefinesValue(g, m, r')
  }

  lemma AvailableCarries(f: Func, g: Func, r: Reg, r': Reg, l: Label)
    requires SameEdges(f, g) && Carries(f, g, r, r')
    ensures Available(f, Ref(r), l) ==> Available(g, Ref(r'), l)
    ensures AtEnd(f, l, r) ==> AtEnd(g, l, r')
  {
    forall q | PathTo(g, q, l)
      ensures PathTo(f, q, l)
    {
    }
    if Available(f, Ref(r), l) {
      forall q | PathTo(g, q, l)
        ensures exists i :: 0 <= i < |q| - 1 && DefinesValue(g, q[i], r')
      {
        var i :| 0 <= i < |q| - 1 && DefinesValue(f, q[i], r);
        assert DefinesValue(g, q[i], r');
      }
    }
    if AtEnd(f, l, r) {
      forall q | PathTo(g, q, l)
        ensures exists i :: 0 <= i < |q| && DefinesValue(g, q[i], r')
      {
        var i :| 0 <= i < |q| && DefinesValue(f, q[i], r);
        assert DefinesValue(g, q[i], r');
      }
    }
  }

  // ----- Renamed bodies -----

  /** The same instructions with renamed operands. */
  ghost predicate Renames(m: map<Reg, Reg>, body: seq<Instr>, body': seq<Instr>) {
    |body'| == |body| && forall i :: 0 <= i < |body| ==> RenamesInstr(m, body[i], body'[i])
  }

  ghost predicate RenamesInstr(m: map<Reg, Reg>, x: Instr, y: Instr) {
    y.dst == x.dst && y.op == x.op && (x.op.dbg || y.args == SubOps(m, x.args))
  }

  /** Under its new name, everything in k is in k'. */
  ghost predicate Covers(m: map<Reg, Reg>, k: iset<Reg>, k': iset<Reg>) {
    forall r :: r in k ==> Image(m, r) in k'
  }

  lemma RenamedUses(m: map<Reg, Reg>, k: iset<Reg>, k': iset<Reg>, xs: seq<Operand>)
    requires Covers(m, k, k') && ReadsIn(k, xs)
    ensures ReadsIn(k', SubOps(m, xs))
  {
  }

  lemma {:induction false} RenamedReads(m: map<Reg, Reg>, k: iset<Reg>, k': iset<Reg>, body: seq<Instr>, body': seq<Instr>)
    requires Renames(m, body, body') && Covers(m, k, k') && DefUse(k, body)
    requires forall i :: 0 <= i < |body| && Makes(body[i]) ==> body[i].dst !in m
    ensures DefUse(k', body') && Covers(m, After(k, body), After(k', body'))
    decreases body
  {
    if body != [] {
      assert RenamesInstr(m, body[0], body'[0]);
      if !body[0].op.dbg {
        RenamedUses(m, k, k', body[0].args);
      }
      RenamedReads(m, k + MadeBy(body[0]), k' + MadeBy(body'[0]), body[1..], body'[1..]);
    }
  }

  /** A block whose PHIs are checked elsewhere. */
  lemma RenamedBlockReads(m: map<Reg, Reg>, k: iset<Reg>, k': iset<Reg>, b: Block, b': Block)
    requires Renames(m, b.body, b'.body) && b'.term.uses == SubOps(m, b.term.uses) && Covers(m, k, k') && BlockReadsIn(k, b)
    requires forall i :: 0 <= i < |b.body| && Makes(b.body[i]) ==> b.body[i].dst !in m
    ensures BlockReadsIn(k', b')
  {
    RenamedReads(m, k, k', b.body, b'.body);
    RenamedUses(m, After(k, b.body), After(k', b'.body), b.term.uses);
  }
}
