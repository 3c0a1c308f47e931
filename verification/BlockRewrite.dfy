/** Rewriting a body in place keeps a function verified if the new body defines what the old one did,
    adds new registers only, and reads what has a value. */
module BlockRewrite {
  import opened IR
  import opened Paths
  import opened Renaming
  import opened StrictSsa

  ghost predicate HasDst(b: Block, r: Reg) { exists j :: 0 <= j < Count(b) && DstAt(b, j) == r }

  /** The block gives r a value. */
  ghost predicate Gives(b: Block, r: Reg) {
    exists j :: 0 <= j < Count(b) && DstAt(b, j) == r && TyAt(b, j) != Void && !DbgAt(b, j)
  }

  lemma DefinesIsGives(f: Func, l: Label, r: Reg)
    ensures DefinesValue(f, l, r) <==> l in f.blocks && Gives(f.blocks[l], r)
  {
    if DefinesValue(f, l, r) {
      var i: nat :| DefinedAt(f, l, i, r);
      assert DstAt(f.blocks[l], i) == r;
    }
    if l in f.blocks && Gives(f.blocks[l], r) {
      var i: nat :| i < Count(f.blocks[l]) && DstAt(f.blocks[l], i) == r && TyAt(f.blocks[l], i) != Void && !DbgAt(f.blocks[l], i);
      assert DefinedAt(f, l, i, r);
    }
  }

  /** Distinct registers, each of b or not below n. */
  ghost predicate DstsFrom(b: Block, b': Block, n: nat) {
    DistinctDefs(b') && forall i :: 0 <= i < Count(b') ==> DstAt(b', i) >= n || HasDst(b, DstAt(b', i))
  }

  ghost predicate Keeps(b: Block, b': Block) { forall r :: Gives(b, r) ==> Gives(b', r) }

  lemma BelowDst(b: Block, n: nat, i: nat)
    requires BlockBelow(b, n) && i < Count(b)
    ensures DstAt(b, i) < n
  {
  }

  /** f with another body for l. */
  function Replaced(f: Func, l: Label, b': Block): Func { Func(f.order, f.blocks[l := b']) }

  lemma ReplacedUnique(f: Func, l: Label, b': Block, n: nat)
    requires UniqueDefs(f) && RegsBelow(f, n) && l in f.blocks && DstsFrom(f.blocks[l], b', n)
    ensures UniqueDefs(Replaced(f, l, b'))
  {
    var g := Replaced(f, l, b');
    forall p, i, q, j | Pos(g, p, i) && Pos(g, q, j) && DstAt(g.blocks[p], i) == DstAt(g.blocks[q], j)
      ensures p == q && i == j
    {
      if p != l {
        BelowDst(f.blocks[p], n, i);
      }
      if q != l {
        BelowDst(f.blocks[q], n, j);
      }
      var i' := OldPosition(f, l, b', n, p, i);
      var j' := OldPosition(f, l, b', n, q, j);
      if DstAt(g.blocks[p], i) < n {
        OneDef(f, p, i', q, j');
      }
    }
  }

  lemma OldPosition(f: Func, l: Label, b': Block, n: nat, p: Label, i: nat) returns (i': nat)
    requires l in f.blocks && DstsFrom(f.blocks[l], b', n)
    requires p in Replaced(f, l, b').blocks && i < Count(Replaced(f, l, b').blocks[p])
    ensures DstAt(Replaced(f, l, b').blocks[p], i) < n ==>
      p in f.blocks && i' < Count(f.blocks[p]) && DstAt(f.blocks[p], i') == DstAt(Replaced(f, l, b').blocks[p], i)
    ensures p != l ==> i' == i
  {
    i' := i;
    if p == l && DstAt(b', i) < n {
      i' :| i' < Count(f.blocks[l]) && DstAt(f.blocks[l], i') == DstAt(b', i);
    }
  }

  lemma ReplacedCarries(f: Func, l: Label, b': Block, r: Reg)
    requires l in f.blocks && Keeps(f.blocks[l], b')
    ensures Carries(f, Replaced(f, l, b'), r, r)
    ensures r in Defined(f) ==> r in Defined(Replaced(f, l, b'))
  {
    var g := Replaced(f, l, b');
    forall m | DefinesValue(f, m, r)
      ensures DefinesValue(g, m, r)
    {
      DefinesIsGives(f, m, r);
      DefinesIsGives(g, m, r);
    }
  }

  lemma ReplacedEdges(f: Func, l: Label, b': Block)
    requires f.order != [] && l in f.blocks && b'.term == f.blocks[l].term
    ensures SameEdges(f, Replaced(f, l, b'))
  {
  }

  /** What entered a block enters it. */
  lemma ReplacedEntering(f: Func, l: Label, b': Block, m: Label)
    requires f.order != [] && l in f.blocks && m in f.blocks && Keeps(f.blocks[l], b')
    requires b'.term == f.blocks[l].term && b'.phis == f.blocks[l].phis
    ensures Entering(f, m) <= Entering(Replaced(f, l, b'), m)
  {
    ReplacedEdges(f, l, b');
    forall r | r in Entering(f, m)
      ensures r in Entering(Replaced(f, l, b'), m)
    {
      ReplacedCarries(f, l, b', r);
      AvailableCarries(f, Replaced(f, l, b'), r, r, m);
    }
  }

  lemma ReplacedPhisSsa(f: Func, l: Label, b': Block, m: Label)
    requires f.order != [] && l in f.blocks && m in f.blocks && Keeps(f.blocks[l], b') && PhisSsa(f, f.blocks[m])
    requires b'.term == f.blocks[l].term && b'.phis == f.blocks[l].phis
    ensures PhisSsa(Replaced(f, l, b'), Replaced(f, l, b').blocks[m])
  {
    ReplacedEdges(f, l, b');
    var phis := f.blocks[m].phis;
    forall i, h | 0 <= i < |phis| && 0 <= h < |phis[i].incoming| && phis[i].incoming[h].1.Ref?
      ensures AtEnd(Replaced(f, l, b'), phis[i].incoming[h].0, phis[i].incoming[h].1.r)
    {
      var r := phis[i].incoming[h].1.r;
      ReplacedCarries(f, l, b', r);
      AvailableCarries(f, Replaced(f, l, b'), r, r, phis[i].incoming[h].0);
    }
  }

  lemma ReplacedSsa(f: Func, l: Label, b': Block)
    requires f.order != [] && Ssa(f) && l in f.blocks && Keeps(f.blocks[l], b')
    requires b'.term == f.blocks[l].term && b'.phis == f.blocks[l].phis
    requires BlockReadsIn(Entering(Replaced(f, l, b'), l), b')
    ensures Ssa(Replaced(f, l, b'))
  {
    var g := Replaced(f, l, b');
    forall m | m in g.blocks
      ensures BodySsa(g, m) && PhisSsa(g, g.blocks[m])
    {
      ReplacedPhisSsa(f, l, b', m);
      if m != l {
        ReplacedEntering(f, l, b', m);
        BodySsaIs(f, m);
        DefUseMono(Entering(f, m), Entering(g, m), f.blocks[m].body);
      }
      BodySsaIs(g, m);
    }
  }

  // ----- Every use has a definition -----

  ghost predicate PhisReadIn(d: iset<Reg>, b: Block) {
    forall i, h :: 0 <= i < |b.phis| && 0 <= h < |b.phis[i].incoming| && b.phis[i].incoming[h].1.Ref? ==>
      b.phis[i].incoming[h].1.r in d
  }

  ghost predicate UsesIn(d: iset<Reg>, b: Block) { ReadsOnly(d, b.body) && ReadsIn(d, b.term.uses) && PhisReadIn(d, b) }

  lemma UsesInAll(g: Func)
    requires forall m :: m in g.blocks ==> UsesIn(Defined(g), g.blocks[m])
    ensures RefsDefined(g)
  {
    forall s, r | UsedAt(g, s, r)
      ensures exists m, i: nat :: DefinedAt(g, m, i, r)
    {
      var b := g.blocks[s.l];
      if s.i == Count(b) {
        assert OperandsAt(b, s.i) == b.term.uses;
      } else if s.i >= |b.phis| {
        assert OperandsAt(b, s.i) == b.body[s.i - |b.phis|].args;
      }
      assert IsDefined(g, r);
      var m :| DefinesValue(g, m, r);
      var i: nat :| DefinedAt(g, m, i, r);
    }
  }

  lemma MadeIsDefined(g: Func, l: Label, r: Reg)
    requires l in g.blocks && MadeBefore(g.blocks[l].body, |g.blocks[l].body|, r)
    ensures r in Defined(g)
  {
    var b := g.blocks[l];
    var j :| 0 <= j < |b.body| && b.body[j].dst == r && Makes(b.body[j]);
    assert DefinedAt(g, l, |b.phis| + j, r);
    assert DefinesValue(g, l, r);
  }

  /** A body that reads defined registers or its own reads defined registers. */
  lemma DefUseReadsDefined(g: Func, l: Label)
    requires l in g.blocks && DefUse(Defined(g), g.blocks[l].body)
    ensures ReadsOnly(Defined(g), g.blocks[l].body)
  {
    var body := g.blocks[l].body;
    DefUseIs(Defined(g), body);
    forall i, h | 0 <= i < |body| && !body[i].op.dbg && 0 <= h < |body[i].args| && body[i].args[h].Ref?
      ensures body[i].args[h].r in Defined(g)
    {
      assert ReadsMade(Defined(g), body, i);
      if MadeBefore(body, i, body[i].args[h].r) {
        MadeIsDefined(g, l, body[i].args[h].r);
      }
    }
  }

  lemma UsesInMore(d: iset<Reg>, d': iset<Reg>, b: Block)
    requires UsesIn(d, b) && d <= d'
    ensures UsesIn(d', b)
  {
  }

  lemma ReplacedRefs(f: Func, l: Label, b': Block)
    requires RefsDefined(f) && l in f.blocks && Keeps(f.blocks[l], b')
    requires b'.term == f.blocks[l].term && b'.phis == f.blocks[l].phis
    requires DefUse(Defined(Replaced(f, l, b')), b'.body)
    ensures RefsDefined(Replaced(f, l, b'))
  {
    var g := Replaced(f, l, b');
    forall r | r in Defined(f)
      ensures r in Defined(g)
    {
      ReplacedCarries(f, l, b', r);
    }
    forall m | m in g.blocks
      ensures UsesIn(Defined(g), g.blocks[m])
    {
      UsesAreDefined(f, m);
      UsesInMore(Defined(f), Defined(g), f.blocks[m]);
      if m == l {
        DefUseReadsDefined(g, l);
      }
    }
    UsesInAll(g);
  }

  lemma ReplacedFrame(f: Func, l: Label, b': Block)
    requires WellFormed(f) && l in f.blocks && b'.term == f.blocks[l].term && b'.phis == f.blocks[l].phis
    requires UniqueDefs(Replaced(f, l, b')) && RefsDefined(Replaced(f, l, b'))
    ensures WellFormed(Replaced(f, l, b'))
  {
    var g := Replaced(f, l, b');
    ReplacedEdges(f, l, b');
    forall m | m in g.blocks
      ensures PhisCover(g, m)
    {
      assert PhisCover(f, m);
    }
  }

  /** The new body keeps the function verified. */
  lemma ReplacedVerified(f: Func, l: Label, b': Block, n: nat)
    requires Verified(f) && RegsBelow(f, n) && l in f.blocks && DstsFrom(f.blocks[l], b', n) && Keeps(f.blocks[l], b')
    requires b'.term == f.blocks[l].term && b'.phis == f.blocks[l].phis
    requires BlockReadsIn(Entering(Replaced(f, l, b'), l), b') && DefUse(Defined(Replaced(f, l, b')), b'.body)
    ensures Verified(Replaced(f, l, b'))
  {
    ReplacedUnique(f, l, b', n);
    ReplacedRefs(f, l, b');
    ReplacedFrame(f, l, b');
    ReplacedSsa(f, l, b');
  }
}
