/** Cloning one block keeps the function well formed. */
module DuplicateShape {
  import opened IR
  import opened Renaming
  import opened DuplicateSpec
  import opened DuplicateSound

  /** The first register above all those of the clone. */
  function NextReg(f: Func, l: Label, n: nat): nat
    requires l in f.blocks
  {
    n + 3 * |f.blocks[l].body| + 1
  }

  // ----- Layout -----

  lemma {:induction false} InsertAfterMembers(s: seq<Label>, l: Label, new': seq<Label>)
    requires forall i, j :: 0 <= i < j < |s| ==> s[i] != s[j]
    ensures forall x :: x in InsertAfter(s, l, new') <==> x in s || (l in s && x in new')
    ensures |InsertAfter(s, l, new')| == |s| + if l in s then |new'| else 0
  {
    if s != [] {
      assert s == [s[0]] + s[1..];
      if s[0] != l {
        InsertAfterMembers(s[1..], l, new');
      }
    }
  }

  lemma {:induction false} InsertAfterDistinct(s: seq<Label>, l: Label, new': seq<Label>)
    requires forall i, j :: 0 <= i < j < |s| ==> s[i] != s[j]
    requires forall i, j :: 0 <= i < j < |new'| ==> new'[i] != new'[j]
    requires forall x :: x in new' ==> x !in s
    ensures forall i, j :: 0 <= i < j < |InsertAfter(s, l, new')| ==> InsertAfter(s, l, new')[i] != InsertAfter(s, l, new')[j]
  {
    if s != [] {
      assert s == [s[0]] + s[1..];
      if s[0] != l {
        InsertAfterDistinct(s[1..], l, new');
        InsertAfterMembers(s[1..], l, new');
        var r := InsertAfter(s[1..], l, new');
        assert forall i :: 0 <= i < |r| ==> r[i] in r;
      } else {
        var t := s[1..];
        assert forall i :: 0 <= i < |t| ==> t[i] in t;
        assert forall i :: 0 <= i < |new'| ==> new'[i] in new';
        forall i, j | 0 <= i < j < |[l] + new' + t|
          ensures ([l] + new' + t)[i] != ([l] + new' + t)[j]
        {
        }
      }
    }
  }

  lemma CloneLayout(f: Func, l: Label, ctx: Operand, n: nat, k: nat)
    requires Shape(f) && l in f.blocks && LabelsBelow(f, k)
    ensures Shape(Clone(f, l, ctx, n, k)) && Clone(f, l, ctx, n, k).order[0] == f.order[0]
    ensures |Clone(f, l, ctx, n, k).order| == |f.order| + 3
  {
    InsertAfterMembers(f.order, l, [k, k + 1, k + 2]);
    InsertAfterDistinct(f.order, l, [k, k + 1, k + 2]);
    InsertAfterIs(f.order, l, [k, k + 1, k + 2]);
  }

  lemma {:induction false} InsertAfterAt(s: seq<Label>, l: Label, new': seq<Label>, i: nat)
    requires i < |s| && s[i] == l && forall j :: 0 <= j < i ==> s[j] != l
    ensures InsertAfter(s, l, new') == s[..i + 1] + new' + s[i + 1..]
    decreases i
  {
    if i > 0 {
      assert s[1..][..i] == s[1..i + 1];
      InsertAfterAt(s[1..], l, new', i - 1);
    }
  }

  /** The arms and the tail follow their head in the layout. */
  lemma CloneOrderIs(f: Func, l: Label, ctx: Operand, n: nat, k: nat, i: nat)
    requires Shape(f) && l in f.blocks && i < |f.order| && f.order[i] == l
    ensures Clone(f, l, ctx, n, k).order == f.order[..i + 1] + [k, k + 1, k + 2] + f.order[i + 1..]
  {
    InsertAfterAt(f.order, l, [k, k + 1, k + 2], i);
  }

  // ----- Edges -----

  lemma CloneEdges(f: Func, l: Label, ctx: Operand, n: nat, k: nat, p: Label, m: Label)
    requires l in f.blocks && LabelsBelow(f, k)
    ensures Clone(f, l, ctx, n, k).Edge(p, m) <==>
      || (p < k && p != l && f.Edge(p, m))
      || (p == l && (m == k || m == k + 1))
      || (p == k && m == k + 2) || (p == k + 1 && m == k + 2)
      || (p == k + 2 && f.Edge(l, m))
  {
  }

  lemma RelabelLists(inc: seq<(Label, Operand)>, l: Label, t: Label, p: Label)
    requires forall i :: 0 <= i < |inc| ==> inc[i].0 != t
    ensures l != t ==> (Lists(Relabel(inc, l, t), p) <==> (p != l && Lists(inc, p)) || (p == t && Lists(inc, l)))
  {
    var r := Relabel(inc, l, t);
    if Lists(inc, p) && p != l {
      var i :| 0 <= i < |inc| && inc[i].0 == p;
      assert r[i].0 == p;
    }
    if Lists(inc, l) {
      var i :| 0 <= i < |inc| && inc[i].0 == l;
      assert r[i].0 == t;
    }
    if Lists(r, p) {
      var i :| 0 <= i < |r| && r[i].0 == p;
      assert inc[i].0 == p || inc[i].0 == l;
    }
  }

  lemma SubIncomingLists(m: map<Reg, Reg>, inc: seq<(Label, Operand)>, p: Label)
    ensures Lists(SubIncoming(m, inc), p) <==> Lists(inc, p)
  {
    var r := SubIncoming(m, inc);
    assert forall i :: 0 <= i < |inc| ==> r[i].0 == inc[i].0;
    if Lists(inc, p) {
      var i :| 0 <= i < |inc| && inc[i].0 == p;
      assert r[i].0 == p;
    }
  }

  lemma SplitLists(f: Func, l: Label, n: nat, k: nat, m: Label, i: nat, p: Label)
    requires l in f.blocks && m in f.blocks && l < k && BlockReady(f, f.blocks[m], n) && LabelsBelow(f, k)
    requires PhisCover(f, m) && i < |f.blocks[m].phis|
    ensures Lists(PhisAfterSplit(f, l, k + 2, m)[i].incoming, p) <==>
      (p != l && f.Edge(p, m)) || (p == k + 2 && f.Edge(l, m))
  {
    var inc := f.blocks[m].phis[i].incoming;
    assert Lists(inc, l) <==> f.Edge(l, m);
    assert Lists(inc, p) <==> f.Edge(p, m);
    if f.Edge(l, m) {
      RelabelLists(inc, l, k + 2, p);
    }
  }

  lemma CloneCoversOld(f: Func, l: Label, ctx: Operand, n: nat, k: nat, m: Label)
    requires l in f.blocks && m in f.blocks && BlockReady(f, f.blocks[m], n) && LabelsBelow(f, k) && PhisCover(f, m)
    ensures m in Clone(f, l, ctx, n, k).blocks && PhisCover(Clone(f, l, ctx, n, k), m)
  {
    var g, split := Clone(f, l, ctx, n, k), PhisAfterSplit(f, l, k + 2, m);
    assert g.blocks[m] == CloneBlock(f, l, ctx, n, k, m);
    forall i, p | 0 <= i < |g.blocks[m].phis|
      ensures Lists(g.blocks[m].phis[i].incoming, p) <==> g.Edge(p, m)
    {
      CloneEdges(f, l, ctx, n, k, p, m);
      SubIncomingLists(Rho(f, l, n), split[i].incoming, p);
      SplitLists(f, l, n, k, m, i, p);
    }
  }

  /** The t-th joining PHI is that of some value-producing instruction. */
  lemma {:induction false} TailPhiAt(body: seq<Instr>, n: nat, k: nat, i: nat, t: nat) returns (j: nat)
    requires i <= |body| && t < |TailPhis(body, n, k, i)|
    ensures j < i && body[j].op.ty != Void && TailPhis(body, n, k, i)[t] == JoinPhi(body[j].op.ty, n, k, j + 1)
  {
    if t < |TailPhis(body, n, k, i - 1)| {
      j := TailPhiAt(body, n, k, i - 1, t);
    } else {
      j := i - 1;
    }
  }

  lemma {:induction false} TailPhiOf(body: seq<Instr>, n: nat, k: nat, i: nat, j: nat) returns (t: nat)
    requires j < i <= |body| && body[j].op.ty != Void
    ensures t < |TailPhis(body, n, k, i)| && TailPhis(body, n, k, i)[t] == JoinPhi(body[j].op.ty, n, k, j + 1)
  {
    if j < i - 1 {
      t := TailPhiOf(body, n, k, i - 1, j);
    } else {
      t := |TailPhis(body, n, k, i - 1)|;
    }
  }

  lemma {:induction false} TailPhisGrow(body: seq<Instr>, n: nat, k: nat, i: nat)
    requires i <= |body|
    ensures forall t :: 0 <= t < |TailPhis(body, n, k, i)| ==> TailPhis(body, n, k, i)[t].dst <= n + 3 * i
    ensures forall s, t :: 0 <= s < t < |TailPhis(body, n, k, i)| ==> TailPhis(body, n, k, i)[s].dst < TailPhis(body, n, k, i)[t].dst
  {
    if i > 0 {
      TailPhisGrow(body, n, k, i - 1);
    }
  }

  lemma CloneCoversNew(f: Func, l: Label, ctx: Operand, n: nat, k: nat, m: Label)
    requires l in f.blocks && LabelsBelow(f, k) && (forall t :: t in f.blocks[l].term.targets ==> t < k)
    requires forall x, t :: x in f.blocks && t in f.blocks[x].term.targets ==> t < k
    requires k <= m <= k + 2
    ensures m in Clone(f, l, ctx, n, k).blocks && PhisCover(Clone(f, l, ctx, n, k), m)
  {
    var g, body := Clone(f, l, ctx, n, k), f.blocks[l].body;
    if m == k + 2 {
      forall i, p | 0 <= i < |g.blocks[m].phis|
        ensures Lists(g.blocks[m].phis[i].incoming, p) <==> g.Edge(p, m)
      {
        CloneEdges(f, l, ctx, n, k, p, m);
        var j := TailPhiAt(body, n, k, |body|, i);
        var inc := g.blocks[m].phis[i].incoming;
        assert inc[0].0 == k && inc[1].0 == k + 1;
      }
    }
  }

  // ----- Definitions -----

  /** Where the registers of the clone come from. */
  ghost predicate OldOrCond(f: Func, l: Label, n: nat, m: Label, i: nat, r: Reg)
    requires l in f.blocks
  {
    || (m == l && i == |f.blocks[l].phis| && r == n)
    || ((m == l ==> i < |f.blocks[l].phis|) && Pos(f, m, i) && DstAt(f.blocks[m], i) == r && r < n)
  }

  lemma OldDst(f: Func, l: Label, ctx: Operand, n: nat, k: nat, m: Label, i: nat)
    requires l in f.blocks && m in f.blocks && m < k && BlockReady(f, f.blocks[m], n)
    requires i < Count(CloneBlock(f, l, ctx, n, k, m))
    ensures OldOrCond(f, l, n, m, i, DstAt(CloneBlock(f, l, ctx, n, k, m), i))
  {
    assert |PhisAfterSplit(f, l, k + 2, m)| == |f.blocks[m].phis|;
  }

  lemma ArmDst(f: Func, l: Label, n: nat, k: nat, a: nat, i: nat)
    requires l in f.blocks && i < Count(NewArm(f, l, n, k, a))
    ensures i < |f.blocks[l].body| && DstAt(NewArm(f, l, n, k, a), i) == n + 1 + a + 3 * i
  {
    ArmBodyAt(f.blocks[l].body, n + 1 + a, Rho(f, l, n), |f.blocks[l].body|, i);
  }

  lemma TailDst(f: Func, l: Label, n: nat, k: nat, i: nat) returns (j: nat)
    requires l in f.blocks && i < Count(NewTail(f, l, n, k))
    ensures j < |f.blocks[l].body| && DstAt(NewTail(f, l, n, k), i) == n + 3 * j + 3
  {
    j := TailPhiAt(f.blocks[l].body, n, k, |f.blocks[l].body|, i);
  }

  ghost predicate DstClass(f: Func, l: Label, n: nat, k: nat, m: Label, i: nat, r: Reg)
    requires l in f.blocks
  {
    if m < k then OldOrCond(f, l, n, m, i, r)
    else if m < k + 2 then r == n + 1 + (m - k) + 3 * i
    else m == k + 2 && r > n && (r - n) % 3 == 0
  }

  lemma BlockDst(f: Func, l: Label, ctx: Operand, n: nat, k: nat, m: Label, i: nat)
    requires l in f.blocks && LabelsBelow(f, k) && (m in f.blocks ==> BlockReady(f, f.blocks[m], n))
    requires (m in f.blocks || k <= m <= k + 2) && i < Count(CloneBlock(f, l, ctx, n, k, m))
    ensures DstClass(f, l, n, k, m, i, DstAt(CloneBlock(f, l, ctx, n, k, m), i))
    ensures DstAt(CloneBlock(f, l, ctx, n, k, m), i) < NextReg(f, l, n)
  {
    if m < k {
      OldDst(f, l, ctx, n, k, m, i);
    } else if m < k + 2 {
      ArmDst(f, l, n, k, m - k, i);
    } else {
      var j := TailDst(f, l, n, k, i);
    }
  }

  lemma NewDst(f: Func, l: Label, ctx: Operand, n: nat, k: nat, m: Label, i: nat)
    requires Ready(f, n, k) && l in f.blocks && Pos(Clone(f, l, ctx, n, k), m, i)
    ensures DstClass(f, l, n, k, m, i, DstAt(Clone(f, l, ctx, n, k).blocks[m], i))
    ensures DstAt(Clone(f, l, ctx, n, k).blocks[m], i) < NextReg(f, l, n)
  {
    CloneHas(f, l, ctx, n, k, m);
    BlockDst(f, l, ctx, n, k, m, i);
  }

  lemma DstClassUnique(f: Func, l: Label, n: nat, k: nat, m: Label, i: nat, q: Label, j: nat, r: Reg)
    requires l in f.blocks && UniqueDefs(f) && DstClass(f, l, n, k, m, i, r) && DstClass(f, l, n, k, q, j, r)
    ensures m == q && (m != k + 2 ==> i == j)
  {
    if m < k && q < k && r != n {
      OneDef(f, m, i, q, j);
    }
  }

  lemma CloneUnique(f: Func, l: Label, ctx: Operand, n: nat, k: nat)
    requires Ready(f, n, k) && l in f.blocks
    ensures UniqueDefs(Clone(f, l, ctx, n, k))
  {
    var g, body := Clone(f, l, ctx, n, k), f.blocks[l].body;
    TailPhisGrow(body, n, k, |body|);
    forall m, i, q, j | Pos(g, m, i) && Pos(g, q, j) && DstAt(g.blocks[m], i) == DstAt(g.blocks[q], j)
      ensures m == q && i == j
    {
      NewDst(f, l, ctx, n, k, m, i);
      NewDst(f, l, ctx, n, k, q, j);
      DstClassUnique(f, l, n, k, m, i, q, j, DstAt(g.blocks[m], i));
    }
  }

  // ----- Uses -----

  ghost predicate Known(g: Func, x: Operand) {
    x.Ref? ==> exists l, i: nat :: DefinedAt(g, l, i, x.r)
  }

  lemma ArmDefines(f: Func, l: Label, ctx: Operand, n: nat, k: nat, a: nat, j: nat)
    requires l in f.blocks && a < 2 && j < |f.blocks[l].body| && f.blocks[l].body[j].op.ty != Void && !f.blocks[l].body[j].op.dbg
    ensures Known(Clone(f, l, ctx, n, k), Ref(n + 1 + a + 3 * j))
  {
    var g, body := Clone(f, l, ctx, n, k), f.blocks[l].body;
    ArmBodyAt(body, n + 1 + a, Rho(f, l, n), |body|, j);
    assert g.blocks[k + a] == NewArm(f, l, n, k, a);
    assert DefinedAt(g, k + a, j, n + 1 + a + 3 * j);
  }

  lemma TailDefines(f: Func, l: Label, ctx: Operand, n: nat, k: nat, r: Reg)
    requires l in f.blocks && r in Rho(f, l, n)
    ensures Known(Clone(f, l, ctx, n, k), Ref(Rho(f, l, n)[r]))
  {
    var g, body := Clone(f, l, ctx, n, k), f.blocks[l].body;
    var j := ArmKey(body, n + 3, |body|, r);
    var t := TailPhiOf(body, n, k, |body|, j);
    assert g.blocks[k + 2] == NewTail(f, l, n, k);
    assert DefinedAt(g, k + 2, t, n + 3 * j + 3);
  }

  lemma OldDefines(f: Func, l: Label, ctx: Operand, n: nat, k: nat, m: Label, i: nat, r: Reg)
    requires l in f.blocks && m < k && DefinedAt(f, m, i, r) && (m == l ==> i < |f.blocks[l].phis|)
    ensures Known(Clone(f, l, ctx, n, k), Ref(r))
  {
    var g := Clone(f, l, ctx, n, k);
    assert g.blocks[m] == CloneBlock(f, l, ctx, n, k, m);
    assert |PhisAfterSplit(f, l, k + 2, m)| == |f.blocks[m].phis|;
    assert DefinedAt(g, m, i, r);
  }

  lemma OutsideRho(f: Func, l: Label, n: nat, i: nat, r: Reg)
    requires l in f.blocks && UniqueDefs(f) && DefinedAt(f, l, i, r) && r !in Rho(f, l, n)
    ensures i < |f.blocks[l].phis|
  {
    BodyDistinct(f, l);
    ArmIs(f.blocks[l].body, n + 3, |f.blocks[l].body|);
  }

  lemma KnownImage(f: Func, l: Label, ctx: Operand, n: nat, k: nat, x: Operand)
    requires l in f.blocks && LabelsBelow(f, k) && UniqueDefs(f) && Known(f, x)
    ensures Known(Clone(f, l, ctx, n, k), SubOp(Rho(f, l, n), x))
  {
    if x.Ref? {
      if x.r in Rho(f, l, n) {
        TailDefines(f, l, ctx, n, k, x.r);
      } else {
        var m, i: nat :| DefinedAt(f, m, i, x.r);
        if m == l {
          OutsideRho(f, l, n, i, x.r);
        }
        OldDefines(f, l, ctx, n, k, m, i, x.r);
      }
    }
  }

  lemma KnownMixed(f: Func, l: Label, ctx: Operand, n: nat, k: nat, a: nat, j: nat, x: Operand)
    requires l in f.blocks && LabelsBelow(f, k) && UniqueDefs(f) && Known(f, x) && a < 2 && j <= |f.blocks[l].body|
    requires forall i :: 0 <= i < |f.blocks[l].body| && f.blocks[l].body[i].op.dbg ==> f.blocks[l].body[i].op.ty == Void
    ensures Known(Clone(f, l, ctx, n, k), SubOp(Rho(f, l, n) + Arm(f.blocks[l].body, n + 1 + a, j), x))
  {
    var body := f.blocks[l].body;
    if x.Ref? && x.r in Arm(body, n + 1 + a, j) {
      var h := ArmKey(body, n + 1 + a, j, x.r);
      ArmDefines(f, l, ctx, n, k, a, h);
    } else {
      KnownImage(f, l, ctx, n, k, x);
    }
  }

  lemma OperandKnown(f: Func, s: Site)
    requires RefsDefined(f) && s.l in f.blocks && s.i <= Count(f.blocks[s.l]) && s.k < |OperandsAt(f.blocks[s.l], s.i)|
    ensures Known(f, OperandsAt(f.blocks[s.l], s.i)[s.k])
  {
    var x := OperandsAt(f.blocks[s.l], s.i)[s.k];
    if x.Ref? {
      assert UsedAt(f, s, x.r);
    }
  }

  lemma OldUse(f: Func, l: Label, ctx: Operand, n: nat, k: nat, m: Label, i: nat, j: nat)
    requires Ready(f, n, k) && l in f.blocks && m in f.blocks && m != l && RefsDefined(f)
    requires i <= Count(NewOther(f, l, n, k, m)) && j < |OperandsAt(NewOther(f, l, n, k, m), i)|
    ensures Known(Clone(f, l, ctx, n, k), OperandsAt(NewOther(f, l, n, k, m), i)[j])
  {
    OtherOperand(f, l, n, k, m, i, j);
    OperandKnown(f, Site(m, i, j));
    KnownImage(f, l, ctx, n, k, OperandsAt(f.blocks[m], i)[j]);
  }

  lemma OtherOperand(f: Func, l: Label, n: nat, k: nat, m: Label, i: nat, j: nat)
    requires l in f.blocks && m in f.blocks
    requires i <= Count(NewOther(f, l, n, k, m)) && j < |OperandsAt(NewOther(f, l, n, k, m), i)|
    ensures i <= Count(f.blocks[m]) && j < |OperandsAt(f.blocks[m], i)|
    ensures OperandsAt(NewOther(f, l, n, k, m), i)[j] == SubOp(Rho(f, l, n), OperandsAt(f.blocks[m], i)[j])
  {
    assert |PhisAfterSplit(f, l, k + 2, m)| == |f.blocks[m].phis|;
  }

  lemma HeadOperand(f: Func, l: Label, ctx: Operand, n: nat, k: nat, i: nat, j: nat)
    requires l in f.blocks
    requires i <= Count(NewHead(f, l, ctx, n, k)) && j < |OperandsAt(NewHead(f, l, ctx, n, k), i)|
    ensures i < |f.blocks[l].phis| ==>
      j < |OperandsAt(f.blocks[l], i)| && OperandsAt(NewHead(f, l, ctx, n, k), i)[j] == SubOp(Rho(f, l, n), OperandsAt(f.blocks[l], i)[j])
    ensures i == |f.blocks[l].phis| ==> OperandsAt(NewHead(f, l, ctx, n, k), i)[j] == SubOp(Rho(f, l, n), ctx)
    ensures i == |f.blocks[l].phis| + 1 ==> OperandsAt(NewHead(f, l, ctx, n, k), i)[j] == SubOp(Rho(f, l, n), Ref(n))
  {
    assert |PhisAfterSplit(f, l, k + 2, l)| == |f.blocks[l].phis|;
  }

  lemma HeadUse(f: Func, l: Label, ctx: Operand, n: nat, k: nat, i: nat, j: nat)
    requires Ready(f, n, k) && l in f.blocks && RefsDefined(f) && Known(f, ctx)
    requires i <= Count(NewHead(f, l, ctx, n, k)) && j < |OperandsAt(NewHead(f, l, ctx, n, k), i)|
    ensures Known(Clone(f, l, ctx, n, k), OperandsAt(NewHead(f, l, ctx, n, k), i)[j])
  {
    HeadOperand(f, l, ctx, n, k, i, j);
    if i < |f.blocks[l].phis| {
      OperandKnown(f, Site(l, i, j));
      KnownImage(f, l, ctx, n, k, OperandsAt(f.blocks[l], i)[j]);
    } else if i == |f.blocks[l].phis| {
      KnownImage(f, l, ctx, n, k, ctx);
    } else {
      CondKnown(f, l, ctx, n, k);
    }
  }

  lemma CondKnown(f: Func, l: Label, ctx: Operand, n: nat, k: nat)
    requires Ready(f, n, k) && l in f.blocks
    ensures SubOp(Rho(f, l, n), Ref(n)) == Ref(n) && Known(Clone(f, l, ctx, n, k), Ref(n))
  {
    assert BlockReady(f, f.blocks[l], n);
    ArmFresh(f.blocks[l].body, n + 3, |f.blocks[l].body|, n);
    assert |PhisAfterSplit(f, l, k + 2, l)| == |f.blocks[l].phis|;
    var g := Clone(f, l, ctx, n, k);
    assert g.blocks[l] == NewHead(f, l, ctx, n, k);
    assert DefinedAt(g, l, |f.blocks[l].phis|, n);
  }

  lemma ArmUse(f: Func, l: Label, ctx: Operand, n: nat, k: nat, a: nat, i: nat, j: nat)
    requires Ready(f, n, k) && l in f.blocks && RefsDefined(f) && a < 2
    requires i <= Count(NewArm(f, l, n, k, a)) && j < |OperandsAt(NewArm(f, l, n, k, a), i)|
    ensures Known(Clone(f, l, ctx, n, k), OperandsAt(NewArm(f, l, n, k, a), i)[j])
  {
    var b := f.blocks[l];
    assert BlockReady(f, b, n);
    ArmBodyAt(b.body, n + 1 + a, Rho(f, l, n), |b.body|, i);
    assert OperandsAt(b, |b.phis| + i) == b.body[i].args;
    OperandKnown(f, Site(l, |b.phis| + i, j));
    KnownMixed(f, l, ctx, n, k, a, i, b.body[i].args[j]);
  }

  lemma JoinUse(f: Func, l: Label, ctx: Operand, n: nat, k: nat, i: nat, j: nat)
    requires l in f.blocks && BlockReady(f, f.blocks[l], n)
    requires i < Count(NewTail(f, l, n, k)) && j < |OperandsAt(NewTail(f, l, n, k), i)|
    ensures Known(Clone(f, l, ctx, n, k), OperandsAt(NewTail(f, l, n, k), i)[j])
  {
    var b := f.blocks[l];
    var h := TailPhiAt(b.body, n, k, |b.body|, i);
    ArmDefines(f, l, ctx, n, k, j, h);
  }

  lemma TailUse(f: Func, l: Label, ctx: Operand, n: nat, k: nat, i: nat, j: nat)
    requires Ready(f, n, k) && l in f.blocks && RefsDefined(f)
    requires i <= Count(NewTail(f, l, n, k)) && j < |OperandsAt(NewTail(f, l, n, k), i)|
    ensures Known(Clone(f, l, ctx, n, k), OperandsAt(NewTail(f, l, n, k), i)[j])
  {
    var b := f.blocks[l];
    if i == Count(NewTail(f, l, n, k)) {
      assert OperandsAt(b, Count(b)) == b.term.uses;
      OperandKnown(f, Site(l, Count(b), j));
      KnownImage(f, l, ctx, n, k, b.term.uses[j]);
    } else {
      assert BlockReady(f, b, n);
      JoinUse(f, l, ctx, n, k, i, j);
    }
  }

  lemma NewUse(f: Func, l: Label, ctx: Operand, n: nat, k: nat, m: Label, i: nat, j: nat)
    requires Ready(f, n, k) && l in f.blocks && RefsDefined(f) && Known(f, ctx) && (m in f.blocks || k <= m <= k + 2)
    requires i <= Count(CloneBlock(f, l, ctx, n, k, m)) && j < |OperandsAt(CloneBlock(f, l, ctx, n, k, m), i)|
    ensures Known(Clone(f, l, ctx, n, k), OperandsAt(CloneBlock(f, l, ctx, n, k, m), i)[j])
  {
    if m == k + 2 {
      TailUse(f, l, ctx, n, k, i, j);
    } else if m == k || m == k + 1 {
      ArmUse(f, l, ctx, n, k, m - k, i, j);
    } else if m == l {
      HeadUse(f, l, ctx, n, k, i, j);
    } else {
      OldUse(f, l, ctx, n, k, m, i, j);
    }
  }

  lemma SiteKnown(f: Func, l: Label, ctx: Operand, n: nat, k: nat, s: Site, r: Reg)
    requires Ready(f, n, k) && l in f.blocks && RefsDefined(f) && Known(f, ctx)
    requires UsedAt(Clone(f, l, ctx, n, k), s, r)
    ensures exists m, i: nat :: DefinedAt(Clone(f, l, ctx, n, k), m, i, r)
  {
    CloneHas(f, l, ctx, n, k, s.l);
    NewUse(f, l, ctx, n, k, s.l, s.i, s.k);
  }

  lemma CloneRefsDefined(f: Func, l: Label, ctx: Operand, n: nat, k: nat)
    requires Ready(f, n, k) && l in f.blocks && RefsDefined(f) && Known(f, ctx)
    ensures RefsDefined(Clone(f, l, ctx, n, k))
  {
    forall s, r | UsedAt(Clone(f, l, ctx, n, k), s, r)
      ensures exists m, i: nat :: DefinedAt(Clone(f, l, ctx, n, k), m, i, r)
    {
      SiteKnown(f, l, ctx, n, k, s, r);
    }
  }

  // ----- The clone is well formed and ready for the next block -----

  lemma SubOpsBelow(rho: map<Reg, Reg>, xs: seq<Operand>, n: nat, n': nat)
    requires OperandsBelow(xs, n) && n <= n' && forall r :: r in rho ==> rho[r] < n'
    ensures OperandsBelow(SubOps(rho, xs), n')
  {
  }

  lemma SubBodyBelow(rho: map<Reg, Reg>, body: seq<Instr>, n: nat, n': nat)
    requires BodyBelow(body, n) && n <= n' && forall r :: r in rho ==> rho[r] < n'
    ensures BodyBelow(SubBody(rho, body), n')
  {
    forall i | 0 <= i < |body|
      ensures OperandsBelow(SubOps(rho, body[i].args), n')
    {
      SubOpsBelow(rho, body[i].args, n, n');
    }
  }

  lemma RhoBelow(f: Func, l: Label, n: nat, base: nat, i: nat)
    requires l in f.blocks && BodyBelow(f.blocks[l].body, n) && n <= base <= n + 3 && i <= |f.blocks[l].body|
    ensures forall r :: r in Arm(f.blocks[l].body, base, i) ==> Arm(f.blocks[l].body, base, i)[r] < NextReg(f, l, n)
  {
    forall r | r in Arm(f.blocks[l].body, base, i)
      ensures Arm(f.blocks[l].body, base, i)[r] < NextReg(f, l, n)
    {
      var j := ArmKey(f.blocks[l].body, base, i, r);
    }
  }

  ghost predicate PhisReady(f: Func, phis: seq<Phi>, n: nat) {
    && (forall i :: 0 <= i < |phis| ==> phis[i].dst < n && IncomingBelow(phis[i].incoming, n))
    && (forall i, j :: 0 <= i < |phis| && 0 <= j < |phis[i].incoming| ==> phis[i].incoming[j].0 in f.blocks)
  }

  lemma SplitPhisReady(f: Func, l: Label, ctx: Operand, n: nat, k: nat, m: Label)
    requires l in f.blocks && m in f.blocks && BlockReady(f, f.blocks[m], n) && BodyBelow(f.blocks[l].body, n)
    ensures PhisReady(Clone(f, l, ctx, n, k), SubPhis(Rho(f, l, n), PhisAfterSplit(f, l, k + 2, m)), NextReg(f, l, n))
  {
    RhoBelow(f, l, n, n + 3, |f.blocks[l].body|);
  }

  lemma OtherReady(f: Func, l: Label, ctx: Operand, n: nat, k: nat, m: Label)
    requires l in f.blocks && m in f.blocks && BlockReady(f, f.blocks[m], n) && BodyBelow(f.blocks[l].body, n)
    ensures BlockReady(Clone(f, l, ctx, n, k), NewOther(f, l, n, k, m), NextReg(f, l, n))
  {
    SplitPhisReady(f, l, ctx, n, k, m);
    RhoBelow(f, l, n, n + 3, |f.blocks[l].body|);
    SubBodyBelow(Rho(f, l, n), f.blocks[m].body, n, NextReg(f, l, n));
    SubOpsBelow(Rho(f, l, n), f.blocks[m].term.uses, n, NextReg(f, l, n));
  }

  lemma HeadReady(f: Func, l: Label, ctx: Operand, n: nat, k: nat)
    requires l in f.blocks && BlockReady(f, f.blocks[l], n) && (ctx.Ref? ==> ctx.r < n)
    ensures BlockReady(Clone(f, l, ctx, n, k), NewHead(f, l, ctx, n, k), NextReg(f, l, n))
  {
    SplitPhisReady(f, l, ctx, n, k, l);
    RhoBelow(f, l, n, n + 3, |f.blocks[l].body|);
    SubOpsBelow(Rho(f, l, n), [ctx], n, NextReg(f, l, n));
    ArmFresh(f.blocks[l].body, n + 3, |f.blocks[l].body|, n);
    assert SubOps(Rho(f, l, n), [Ref(n)]) == [Ref(n)];
  }

  lemma ArmBelow(f: Func, l: Label, n: nat, k: nat, a: nat, i: nat)
    requires l in f.blocks && BodyBelow(f.blocks[l].body, n) && a < 2 && i < |f.blocks[l].body|
    ensures var x := NewArm(f, l, n, k, a).body[i];
      x.dst < NextReg(f, l, n) && OperandsBelow(x.args, NextReg(f, l, n)) && x.op == f.blocks[l].body[i].op && |x.args| == |f.blocks[l].body[i].args|
  {
    var body := f.blocks[l].body;
    ArmBodyAt(body, n + 1 + a, Rho(f, l, n), |body|, i);
    RhoBelow(f, l, n, n + 3, |body|);
    RhoBelow(f, l, n, n + 1 + a, i);
    SubOpsBelow(Rho(f, l, n) + Arm(body, n + 1 + a, i), body[i].args, n, NextReg(f, l, n));
  }

  lemma NewArmReady(f: Func, l: Label, ctx: Operand, n: nat, k: nat, a: nat)
    requires l in f.blocks && BlockReady(f, f.blocks[l], n) && a < 2
    ensures BlockReady(Clone(f, l, ctx, n, k), NewArm(f, l, n, k, a), NextReg(f, l, n))
  {
    forall i | 0 <= i < |f.blocks[l].body|
      ensures var x := NewArm(f, l, n, k, a).body[i];
        x.dst < NextReg(f, l, n) && OperandsBelow(x.args, NextReg(f, l, n)) && x.op == f.blocks[l].body[i].op && |x.args| == |f.blocks[l].body[i].args|
    {
      ArmBelow(f, l, n, k, a, i);
    }
  }

  lemma TailReady(f: Func, l: Label, ctx: Operand, n: nat, k: nat)
    requires l in f.blocks && BlockReady(f, f.blocks[l], n)
    ensures BlockReady(Clone(f, l, ctx, n, k), NewTail(f, l, n, k), NextReg(f, l, n))
  {
    var phis := NewTail(f, l, n, k).phis;
    forall i | 0 <= i < |phis|
      ensures phis[i].dst < NextReg(f, l, n) && IncomingBelow(phis[i].incoming, NextReg(f, l, n))
      ensures forall j :: 0 <= j < |phis[i].incoming| ==> phis[i].incoming[j].0 == k || phis[i].incoming[j].0 == k + 1
    {
      var j := TailPhiAt(f.blocks[l].body, n, k, |f.blocks[l].body|, i);
    }
    RhoBelow(f, l, n, n + 3, |f.blocks[l].body|);
    SubOpsBelow(Rho(f, l, n), f.blocks[l].term.uses, n, NextReg(f, l, n));
  }

  lemma CloneBlockReady(f: Func, l: Label, ctx: Operand, n: nat, k: nat, m: Label)
    requires l in f.blocks && BlockReady(f, f.blocks[l], n) && (ctx.Ref? ==> ctx.r < n)
    requires (m in f.blocks && BlockReady(f, f.blocks[m], n)) || k <= m <= k + 2
    ensures BlockReady(Clone(f, l, ctx, n, k), CloneBlock(f, l, ctx, n, k, m), NextReg(f, l, n))
  {
    if m == k + 2 {
      TailReady(f, l, ctx, n, k);
    } else if m == k || m == k + 1 {
      NewArmReady(f, l, ctx, n, k, m - k);
    } else if m == l {
      HeadReady(f, l, ctx, n, k);
    } else {
      OtherReady(f, l, ctx, n, k, m);
    }
  }

  lemma CloneAllReady(f: Func, l: Label, ctx: Operand, n: nat, k: nat)
    requires l in f.blocks && (forall m :: m in f.blocks ==> BlockReady(f, f.blocks[m], n)) && (ctx.Ref? ==> ctx.r < n)
    ensures var g := Clone(f, l, ctx, n, k); forall m :: m in g.blocks ==> BlockReady(g, g.blocks[m], NextReg(f, l, n))
  {
    var g := Clone(f, l, ctx, n, k);
    forall m | m in g.blocks
      ensures BlockReady(g, g.blocks[m], NextReg(f, l, n))
    {
      CloneHas(f, l, ctx, n, k, m);
      CloneBlockReady(f, l, ctx, n, k, m);
    }
  }

  /** The clone is ready to have another block cloned. */
  lemma CloneReady(f: Func, l: Label, ctx: Operand, n: nat, k: nat)
    requires Ready(f, n, k) && l in f.blocks && (ctx.Ref? ==> ctx.r < n)
    ensures Ready(Clone(f, l, ctx, n, k), NextReg(f, l, n), k + 3)
  {
    CloneLayout(f, l, ctx, n, k);
    CloneUnique(f, l, ctx, n, k);
    CloneAllReady(f, l, ctx, n, k);
    CloneLabels(f, l, ctx, n, k);
    CloneEntry(f, l, ctx, n, k);
  }

  lemma CloneLabels(f: Func, l: Label, ctx: Operand, n: nat, k: nat)
    requires l in f.blocks && LabelsBelow(f, k)
    ensures LabelsBelow(Clone(f, l, ctx, n, k), k + 3)
  {
    forall m | m in Clone(f, l, ctx, n, k).blocks
      ensures m < k + 3
    {
      CloneHas(f, l, ctx, n, k, m);
    }
  }

  lemma CloneEntry(f: Func, l: Label, ctx: Operand, n: nat, k: nat)
    requires Shape(f) && LabelsBelow(f, k) && l in f.blocks && f.blocks[f.order[0]].phis == []
    ensures f.order[0] in Clone(f, l, ctx, n, k).blocks && Clone(f, l, ctx, n, k).blocks[f.order[0]].phis == []
  {
    var e := f.order[0];
    assert Clone(f, l, ctx, n, k).blocks[e] == CloneBlock(f, l, ctx, n, k, e);
  }

  lemma TermTransfers(f: Func, g: Func, rho: map<Reg, Reg>, t: Term)
    requires f.order != [] && g.order != [] && g.order[0] == f.order[0] && TermOk(f, t) && f.blocks.Keys <= g.blocks.Keys
    ensures TermOk(g, SubTerm(rho, t))
  {
  }

  lemma CloneTerm(f: Func, l: Label, ctx: Operand, n: nat, k: nat, g: Func, m: Label)
    requires f.order != [] && g.order != [] && g.order[0] == f.order[0] && f.order[0] < k
    requires g.blocks.Keys == f.blocks.Keys + {k, k + 1, k + 2}
    requires l in f.blocks && TermOk(f, f.blocks[l].term)
    requires k <= m <= k + 2 || (m in f.blocks && TermOk(f, f.blocks[m].term))
    ensures TermOk(g, CloneBlock(f, l, ctx, n, k, m).term)
  {
    if m == k + 2 {
      TermTransfers(f, g, Rho(f, l, n), f.blocks[l].term);
    } else if m != l && m != k && m != k + 1 {
      TermTransfers(f, g, Rho(f, l, n), f.blocks[m].term);
    }
  }

  lemma CloneTermAt(f: Func, l: Label, ctx: Operand, n: nat, k: nat, m: Label)
    requires f.order != [] && LabelsBelow(f, k) && l in f.blocks && (forall q :: q in f.blocks ==> TermOk(f, f.blocks[q].term))
    requires Clone(f, l, ctx, n, k).order != [] && Clone(f, l, ctx, n, k).order[0] == f.order[0] && f.order[0] < k
    requires m in f.blocks || k <= m <= k + 2
    ensures m in Clone(f, l, ctx, n, k).blocks && TermOk(Clone(f, l, ctx, n, k), Clone(f, l, ctx, n, k).blocks[m].term)
  {
    CloneHas(f, l, ctx, n, k, m);
    CloneTerm(f, l, ctx, n, k, Clone(f, l, ctx, n, k), m);
  }

  lemma CloneTerms(f: Func, l: Label, ctx: Operand, n: nat, k: nat)
    requires Shape(f) && LabelsBelow(f, k) && l in f.blocks && (forall q :: q in f.blocks ==> TermOk(f, f.blocks[q].term))
    requires Clone(f, l, ctx, n, k).order != [] && Clone(f, l, ctx, n, k).order[0] == f.order[0]
    ensures var g := Clone(f, l, ctx, n, k); forall m :: m in g.blocks ==> TermOk(g, g.blocks[m].term)
  {
    var g := Clone(f, l, ctx, n, k);
    assert f.order[0] in f.order;
    forall m | m in g.blocks
      ensures TermOk(g, g.blocks[m].term)
    {
      CloneTermAt(f, l, ctx, n, k, m);
    }
  }

  lemma CloneCovers(f: Func, l: Label, ctx: Operand, n: nat, k: nat)
    requires l in f.blocks && LabelsBelow(f, k)
    requires forall m :: m in f.blocks ==> BlockReady(f, f.blocks[m], n) && PhisCover(f, m)
    ensures var g := Clone(f, l, ctx, n, k); forall m :: m in g.blocks ==> PhisCover(g, m)
  {
    var g := Clone(f, l, ctx, n, k);
    forall m | m in g.blocks
      ensures PhisCover(g, m)
    {
      if m < k {
        CloneCoversOld(f, l, ctx, n, k, m);
      } else {
        CloneCoversNew(f, l, ctx, n, k, m);
      }
    }
  }

  /** Cloning keeps the function well formed: one definition per register, every use defined, every
      PHI with an entry for each predecessor. */
  lemma CloneWellFormed(f: Func, l: Label, ctx: Operand, n: nat, k: nat)
    requires WellFormed(f) && Ready(f, n, k) && l in f.blocks && Known(f, ctx)
    ensures WellFormed(Clone(f, l, ctx, n, k))
  {
    CloneLayout(f, l, ctx, n, k);
    CloneUnique(f, l, ctx, n, k);
    CloneRefsDefined(f, l, ctx, n, k);
    CloneEntry(f, l, ctx, n, k);
    CloneTerms(f, l, ctx, n, k);
    CloneCovers(f, l, ctx, n, k);
  }
}
