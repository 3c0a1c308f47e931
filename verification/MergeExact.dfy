/** Which blocks MergeBB merges, in terms of the function alone: no iterator, no positions, no
    one-use tests.  Blocks that should be merged are. */
module MergeExact {
  import opened IR
  import opened Semantics
  import opened MergeSpec
  import opened MergeSound
  import opened MergeRuns
  import opened MergeWhole

  // ----- Blocks with the same code -----

  /** A PHI with its values, or an instruction. */
  datatype Line = PhiLine(dst: Reg, ty: Ty, vals: seq<Operand>) | CodeLine(dst: Reg, op: Op, args: seq<Operand>)

  function PhiLines(phis: seq<Phi>): (ls: seq<Line>)
    ensures |ls| == |phis|
  {
    seq(|phis|, i requires 0 <= i < |phis| => PhiLine(phis[i].dst, phis[i].ty, IncomingValues(phis[i].incoming)))
  }

  /** The instructions of a body, without debug intrinsics. */
  function CodeLines(body: seq<Instr>): seq<Line> {
    if body == [] then []
    else
      var x := body[|body| - 1];
      CodeLines(body[..|body| - 1]) + if x.op.dbg then [] else [CodeLine(x.dst, x.op, x.args)]
  }

  /** What a block does before it ends. */
  function Lines(b: Block): seq<Line> { PhiLines(b.phis) + CodeLines(b.body) }

  /** The same but for the register that is written. */
  ghost predicate SameLine(x: Line, y: Line) {
    match x
    case PhiLine(_, ty, vals) => y.PhiLine? && y.ty == ty && y.vals == vals
    case CodeLine(_, op, args) => y.CodeLine? && y.op == op && y.args == args
  }

  // ----- Blocks that can be merged -----

  /** r has one use, and the PHI of s takes r from x. */
  ghost predicate OnlyFrom(f: Func, s: Label, x: Label, r: Reg)
    requires s in f.blocks
  {
    && f.blocks[s].phis != [] && Incoming(f.blocks[s].phis[0].incoming, x) == Ref(r)
    && exists t :: OnlyUse(f, r, t)
  }

  ghost predicate OnlyUse(f: Func, r: Reg, t: Site) { forall u :: UsedAt(f, u, r) <==> u == t }

  ghost predicate Unused(f: Func, r: Reg) { forall u :: !UsedAt(f, u, r) }

  /** What two lines write is not used at all, or by the PHI of s only. */
  ghost predicate UsedAlike(f: Func, s: Label, a: Label, x: Line, b: Label, y: Line)
    requires s in f.blocks
  {
    (Unused(f, x.dst) && Unused(f, y.dst)) || (OnlyFrom(f, s, a, x.dst) && OnlyFrom(f, s, b, y.dst))
  }

  ghost predicate LinesMatch(f: Func, s: Label, a: Label, b: Label)
    requires s in f.blocks && a in f.blocks && b in f.blocks
  {
    var x, y := Lines(f.blocks[a]), Lines(f.blocks[b]);
    |x| == |y| && forall k :: 0 <= k < |x| ==> SameLine(x[k], y[k]) && UsedAlike(f, s, a, x[k], b, y[k])
  }

  /** The PHI of s, if it has one, takes one value from both, or what two lines write. */
  ghost predicate PhiFits(f: Func, s: Label, a: Label, b: Label)
    requires s in f.blocks && a in f.blocks && b in f.blocks
  {
    f.blocks[s].phis == [] ||
    var inc, x, y := f.blocks[s].phis[0].incoming, Lines(f.blocks[a]), Lines(f.blocks[b]);
    || Incoming(inc, a) == Incoming(inc, b)
    || exists k :: 0 <= k < |x| && k < |y| && Incoming(inc, a) == Ref(x[k].dst) && Incoming(inc, b) == Ref(y[k].dst)
  }

  /** Both blocks do nothing but go on to s, which has at most one PHI. */
  ghost predicate BothJumpTo(f: Func, a: Label, b: Label, s: Label) {
    && a in f.blocks && f.blocks[a].term.kind == Uncond && f.blocks[a].term.targets == [s]
    && b in f.blocks && f.blocks[b].term.kind == Uncond && f.blocks[b].term.targets == [s]
    && s in f.blocks && |f.blocks[s].phis| <= 1
  }

  /** a, entered by branches and switches only, does the same as b, which is not erased. */
  ghost predicate Twins(f: Func, dead: set<Label>, a: Label, b: Label)
    requires f.order != []
  {
    && a != b && a != f.order[0] && b != f.order[0] && b !in dead
    && (forall p :: f.Edge(p, a) ==> f.blocks[p].term.kind == Uncond || f.blocks[p].term.kind == Cond || f.blocks[p].term.kind.Switch?)
    && exists s :: BothJumpTo(f, a, b, s) && LinesMatch(f, s, a, b) && PhiFits(f, s, a, b)
  }

  // ----- Lines and positions -----

  lemma {:induction false} CodeLinesAre(body: seq<Instr>)
    ensures |CodeLines(body)| == |Strip(body, |body|)|
    ensures forall k :: 0 <= k < |CodeLines(body)| ==>
      var x := Strip(body, |body|)[k]; CodeLines(body)[k] == CodeLine(x.dst, x.op, x.args) && !x.op.dbg
    decreases |body|
  {
    if body != [] {
      var n := |body| - 1;
      CodeLinesAre(body[..n]);
      StripPrefix(body, body[..n], n);
    }
  }

  lemma {:induction false} StripPrefix(p: seq<Instr>, q: seq<Instr>, n: nat)
    requires n <= |p| && n <= |q| && p[..n] == q[..n]
    ensures Strip(p, n) == Strip(q, n)
  {
    if n > 0 {
      assert p[..n][..n - 1] == p[..n - 1] && q[..n][..n - 1] == q[..n - 1];
      assert p[n - 1] == p[..n][n - 1] && q[n - 1] == q[..n][n - 1];
      StripPrefix(p, q, n - 1);
    }
  }

  /** Line k stands at position i of the block. */
  ghost predicate LineAt(b: Block, k: nat, i: nat)
    requires k < |Lines(b)| && i < Count(b)
  {
    && !DbgAt(b, i) && Lines(b)[k].dst == DstAt(b, i)
    && if i < |b.phis| then Lines(b)[k] == PhiLine(b.phis[i].dst, b.phis[i].ty, IncomingValues(b.phis[i].incoming))
       else var x := b.body[i - |b.phis|]; Lines(b)[k] == CodeLine(x.dst, x.op, x.args)
  }

  lemma LinesAt(b: Block)
    ensures |Lines(b)| == |NonDbg(b)|
    ensures forall k :: 0 <= k < |NonDbg(b)| ==> LineAt(b, k, NonDbg(b)[k])
  {
    var m := |b.phis|;
    StripIs(b, |b.body|);
    CodeLinesAre(b.body);
    forall k | 0 <= k < |NonDbg(b)|
      ensures LineAt(b, k, NonDbg(b)[k])
    {
      if k >= m {
        assert Lines(b)[k] == CodeLines(b.body)[k - m];
      }
    }
  }

  lemma SameLineIs(x: Block, k: nat, i: nat, y: Block, j: nat)
    requires k < |Lines(x)| && k < |Lines(y)| && i < Count(x) && j < Count(y) && LineAt(x, k, i) && LineAt(y, k, j)
    ensures SameLine(Lines(x)[k], Lines(y)[k]) <==> SameOperation(x, i, y, j) && OperandsAt(x, i) == OperandsAt(y, j)
  {
  }

  // ----- What is merged are twins -----

  lemma UseSitesAre(f: Func, r: Reg)
    ensures UseEmpty(f, r) <==> Unused(f, r)
  {
    if !UseEmpty(f, r) {
      var s :| s in UseSites(f, r);
    }
  }

  lemma OneUseIs(f: Func, r: Reg, t: Site)
    requires OnlyUse(f, r, t)
    ensures HasOneUse(f, r) && !UseEmpty(f, r)
  {
    assert UseSites(f, r) == {t};
  }

  lemma OneUseOf(f: Func, r: Reg)
    requires HasOneUse(f, r)
    ensures exists t :: OnlyUse(f, r, t)
  {
    var t := OneUse(f, r);
    assert OnlyUse(f, r, t);
  }

  lemma UsedHasOneUse(f: Func, a: Label, b: Label, x: Label, i: nat)
    requires GoodPair(f, a, b) && (x == a || x == b) && i < Count(f.blocks[x]) && !UseEmpty(f, DstAt(f.blocks[x], i))
    ensures HasOneUse(f, DstAt(f.blocks[x], i))
  {
    var s :| s in UseSites(f, DstAt(f.blocks[x], i));
    OnlyUseIsPhi(f, a, b, x, i, s);
  }

  lemma UsedIsOnlyFrom(f: Func, a: Label, b: Label, x: Label, i: nat)
    requires GoodPair(f, a, b) && (x == a || x == b) && i < Count(f.blocks[x]) && !UseEmpty(f, DstAt(f.blocks[x], i))
    ensures OnlyFrom(f, Succ(f, a), x, DstAt(f.blocks[x], i))
  {
    UsedEntersPhi(f, a, b, x, i);
    UsedHasOneUse(f, a, b, x, i);
    OneUseOf(f, DstAt(f.blocks[x], i));
  }

  lemma FacingUsedAlike(f: Func, a: Label, b: Label, i: nat, j: nat, x: Line, y: Line)
    requires GoodPair(f, a, b) && i < Count(f.blocks[a]) && j < Count(f.blocks[b]) && CanMergeInstructions(f, a, i, b, j)
    requires x.dst == DstAt(f.blocks[a], i) && y.dst == DstAt(f.blocks[b], j)
    ensures UsedAlike(f, Succ(f, a), a, x, b, y)
  {
    UseSitesAre(f, x.dst);
    UseSitesAre(f, y.dst);
    if !UseEmpty(f, x.dst) {
      var _ := OneUse(f, y.dst);
      UsedIsOnlyFrom(f, a, b, a, i);
      UsedIsOnlyFrom(f, a, b, b, j);
    }
  }

  lemma MergedLinesMatch(f: Func, a: Label, b: Label)
    requires GoodPair(f, a, b)
    ensures LinesMatch(f, Succ(f, a), a, b)
  {
    var x, y, p, q := f.blocks[a], f.blocks[b], NonDbg(f.blocks[a]), NonDbg(f.blocks[b]);
    LinesAt(x);
    LinesAt(y);
    forall k | 0 <= k < |p|
      ensures SameLine(Lines(x)[k], Lines(y)[k]) && UsedAlike(f, Succ(f, a), a, Lines(x)[k], b, Lines(y)[k])
    {
      assert CanMergeInstructions(f, a, p[k], b, q[k]);
      SameLineIs(x, k, p[k], y, q[k]);
      FacingUsedAlike(f, a, b, p[k], q[k], Lines(x)[k], Lines(y)[k]);
    }
  }

  lemma FacingLines(x: Block, y: Block, r: Reg, q: Reg)
    requires FacingDefs(x, y, r, q)
    ensures exists k :: 0 <= k < |Lines(x)| && k < |Lines(y)| && Lines(x)[k].dst == r && Lines(y)[k].dst == q
  {
    var i: nat, j: nat :| FacingAt(x, y, r, q, i, j);
    var k :| 0 <= k < |NonDbg(x)| && k < |NonDbg(y)| && NonDbg(x)[k] == i && NonDbg(y)[k] == j;
    LinesAt(x);
    LinesAt(y);
    assert LineAt(x, k, NonDbg(x)[k]) && LineAt(y, k, NonDbg(y)[k]);
    assert Lines(x)[k].dst == r && Lines(y)[k].dst == q;
  }

  lemma MergedPhiFits(f: Func, a: Label, b: Label)
    requires GoodPair(f, a, b)
    ensures PhiFits(f, Succ(f, a), a, b)
  {
    var s := Succ(f, a);
    if f.blocks[s].phis != [] {
      var inc := f.blocks[s].phis[0].incoming;
      PhiValuesFace(f, a, b);
      if Incoming(inc, a) != Incoming(inc, b) {
        FacingLines(f.blocks[a], f.blocks[b], Incoming(inc, a).r, Incoming(inc, b).r);
      }
    }
  }

  lemma MergedAreTwins(f: Func, dead: set<Label>, a: Label, b: Label)
    requires EnteredSound(f) && Mergeable(f, dead, a, b)
    ensures Twins(f, dead, a, b)
  {
    assert GoodPair(f, a, b);
    MergedLinesMatch(f, a, b);
    MergedPhiFits(f, a, b);
    assert f.blocks[a].term.targets == [Succ(f, a)] && f.blocks[b].term.targets == [Succ(f, a)];
    assert BothJumpTo(f, a, b, Succ(f, a));
  }

  // ----- Twins are merged -----

  /** The entry of the PHI is a use, so it is the only one. */
  lemma EntryRemovable(f: Func, s: Label, x: Label, i: nat)
    requires x in f.blocks && i < Count(f.blocks[x]) && f.blocks[x].term.targets == [s] && s in f.blocks && PhisCover(f, s)
    requires f.blocks[s].phis != [] && Incoming(f.blocks[s].phis[0].incoming, x) == Ref(DstAt(f.blocks[x], i))
    ensures CanRemoveInst(f, x, i)
  {
    var r := DstAt(f.blocks[x], i);
    assert f.Edge(x, s);
    var u := IncomingIsUse(f, s, 0, x);
    assert u in UseSites(f, r) && UsedInPhi(f, x, r, u);
  }

  lemma OnlyFromRemovable(f: Func, s: Label, x: Label, i: nat)
    requires x in f.blocks && i < Count(f.blocks[x]) && f.blocks[x].term.targets == [s] && s in f.blocks && PhisCover(f, s)
    requires OnlyFrom(f, s, x, DstAt(f.blocks[x], i))
    ensures HasOneUse(f, DstAt(f.blocks[x], i)) && CanRemoveInst(f, x, i) && !UseEmpty(f, DstAt(f.blocks[x], i))
  {
    var t :| OnlyUse(f, DstAt(f.blocks[x], i), t);
    OneUseIs(f, DstAt(f.blocks[x], i), t);
    EntryRemovable(f, s, x, i);
  }

  lemma LineMerges(f: Func, s: Label, a: Label, b: Label, k: nat, i: nat, j: nat)
    requires BothJumpTo(f, a, b, s) && PhisCover(f, s) && i < Count(f.blocks[a]) && j < Count(f.blocks[b])
    requires k < |Lines(f.blocks[a])| && k < |Lines(f.blocks[b])| && LineAt(f.blocks[a], k, i) && LineAt(f.blocks[b], k, j)
    requires SameLine(Lines(f.blocks[a])[k], Lines(f.blocks[b])[k])
    requires UsedAlike(f, s, a, Lines(f.blocks[a])[k], b, Lines(f.blocks[b])[k])
    ensures CanMergeInstructions(f, a, i, b, j)
  {
    SameLineIs(f.blocks[a], k, i, f.blocks[b], j);
    UseSitesAre(f, DstAt(f.blocks[a], i));
    UseSitesAre(f, DstAt(f.blocks[b], j));
    if !Unused(f, DstAt(f.blocks[a], i)) || !Unused(f, DstAt(f.blocks[b], j)) {
      OnlyFromRemovable(f, s, a, i);
      OnlyFromRemovable(f, s, b, j);
    }
  }

  lemma TwinsMatch(f: Func, s: Label, a: Label, b: Label)
    requires BothJumpTo(f, a, b, s) && PhisCover(f, s) && LinesMatch(f, s, a, b)
    ensures |NonDbg(f.blocks[a])| == |NonDbg(f.blocks[b])| && BodiesMatch(f, a, b)
  {
    var x, y, p, q := f.blocks[a], f.blocks[b], NonDbg(f.blocks[a]), NonDbg(f.blocks[b]);
    LinesAt(x);
    LinesAt(y);
    forall k | 0 <= k < |p|
      ensures CanMergeInstructions(f, a, p[k], b, q[k])
    {
      assert LineAt(x, k, p[k]) && LineAt(y, k, q[k]);
      LineMerges(f, s, a, b, k, p[k], q[k]);
    }
  }

  lemma TwinsPhiAllows(f: Func, s: Label, a: Label, b: Label)
    requires BothJumpTo(f, a, b, s) && PhiFits(f, s, a, b)
    ensures PhiAllows(f, a, b)
  {
    var x, y := f.blocks[a], f.blocks[b];
    if f.blocks[s].phis != [] {
      var inc := f.blocks[s].phis[0].incoming;
      if Incoming(inc, a) != Incoming(inc, b) {
        var k :| 0 <= k < |Lines(x)| && k < |Lines(y)| && Incoming(inc, a) == Ref(Lines(x)[k].dst) && Incoming(inc, b) == Ref(Lines(y)[k].dst);
        LinesAt(x);
        LinesAt(y);
        assert LineAt(x, k, NonDbg(x)[k]) && LineAt(y, k, NonDbg(y)[k]);
        assert DefinedIn(f, a, Incoming(inc, a)) && DefinedIn(f, b, Incoming(inc, b));
      }
    }
  }

  lemma TwinsAreMerged(f: Func, dead: set<Label>, a: Label, b: Label)
    requires EnteredSound(f) && Twins(f, dead, a, b)
    ensures Mergeable(f, dead, a, b)
  {
    var s :| BothJumpTo(f, a, b, s) && LinesMatch(f, s, a, b) && PhiFits(f, s, a, b);
    assert f.Edge(a, s);
    TwinsMatch(f, s, a, b);
    TwinsPhiAllows(f, s, a, b);
    forall p | p in f.blocks && f.Edge(p, a)
      ensures BranchOrSwitch(f.blocks[p].term.kind)
    {
    }
  }

  /** The tests of the pass accept a pair exactly if the two blocks are twins. */
  lemma MergeableIffTwins(f: Func, dead: set<Label>, a: Label, b: Label)
    requires EnteredSound(f)
    ensures Mergeable(f, dead, a, b) <==> Twins(f, dead, a, b)
  {
    if Mergeable(f, dead, a, b) {
      MergedAreTwins(f, dead, a, b);
    }
    if Twins(f, dead, a, b) {
      TwinsAreMerged(f, dead, a, b);
    }
  }

  /** Blocks without code, entered by branches and switches, that go on to the same block, where the
      PHI takes the same operand from both. */
  lemma EmptyBlocksAreTwins(f: Func, dead: set<Label>, a: Label, b: Label, s: Label)
    requires f.order != [] && a != b && a != f.order[0] && b != f.order[0] && b !in dead && a in f.blocks && b in f.blocks
    requires f.blocks[a] == Block([], [], Term(Uncond, [], [s])) && f.blocks[b] == f.blocks[a]
    requires s in f.blocks && |f.blocks[s].phis| == 1
    requires Incoming(f.blocks[s].phis[0].incoming, a) == Incoming(f.blocks[s].phis[0].incoming, b)
    requires forall p :: f.Edge(p, a) ==> f.blocks[p].term.kind == Uncond || f.blocks[p].term.kind == Cond || f.blocks[p].term.kind.Switch?
    ensures Twins(f, dead, a, b)
  {
    assert Lines(f.blocks[a]) == [];
    assert BothJumpTo(f, a, b, s) && LinesMatch(f, s, a, b) && PhiFits(f, s, a, b);
  }

  // ----- A whole run -----

  /** The function and the erased blocks after the turn of x. */
  ghost function NextTurn(f: Func, dead: set<Label>, x: Label, o: Option<Label>): (Func, set<Label>) {
    match o
    case Some(b) => (Redirect(f, x, b), dead + {x})
    case None => (f, dead)
  }

  /** The same before turn k of a scan. */
  ghost function StateAt(f: Func, dead: set<Label>, todo: seq<Label>, into: seq<Option<Label>>, k: nat): (Func, set<Label>)
    requires |into| == |todo| && k <= |todo|
    decreases k
  {
    if k == 0 then (f, dead)
    else
      var t := NextTurn(f, dead, todo[0], into[0]);
      StateAt(t.0, t.1, todo[1..], into[1..], k - 1)
  }

  /** At its turn x is merged into o, if that is some block, and o is a twin; otherwise it has none. */
  ghost predicate TurnRight(t: (Func, set<Label>), x: Label, o: Option<Label>) {
    && t.0.order != []
    && match o
       case Some(b) => Twins(t.0, t.1, x, b)
       case None => forall b :: !Twins(t.0, t.1, x, b)
  }

  lemma FirstTurnRight(f: Func, todo: seq<Label>, dead: set<Label>, into: seq<Option<Label>>, g: Func, dead': set<Label>, x: Label, o: Option<Label>)
    returns (t: (Func, set<Label>))
    requires f.order != [] && Scanned(f, todo, dead, into, g, dead') && todo != [] && ScanState(f, dead) && todo[0] == x && into[0] == o
    ensures t == (f, dead) && TurnRight(t, x, o)
  {
    ScanStateSound(f, dead, x, x);
    forall b
      ensures Mergeable(f, dead, x, b) <==> Twins(f, dead, x, b)
    {
      MergeableIffTwins(f, dead, x, b);
    }
    t := (f, dead);
  }

  lemma NextTurnKeeps(f: Func, todo: seq<Label>, dead: set<Label>, into: seq<Option<Label>>, g: Func, dead': set<Label>, k: nat, k': nat)
    returns (f1: Func, dead1: set<Label>, todo1: seq<Label>, into1: seq<Option<Label>>)
    requires f.order != [] && Scanned(f, todo, dead, into, g, dead') && k < |todo| && k == k' + 1
    requires ScanState(f, dead) && Fresh(todo, dead) && PhisMatched(f, todo, into)
    ensures f1.order != [] && Scanned(f1, todo1, dead1, into1, g, dead')
    ensures ScanState(f1, dead1) && Fresh(todo1, dead1) && PhisMatched(f1, todo1, into1)
    ensures k' < |todo1| && todo1[k'] == todo[k] && into1[k'] == into[k]
    ensures StateAt(f, dead, todo, into, k) == StateAt(f1, dead1, todo1, into1, k')
  {
    FreshTail(todo, dead);
    f1, dead1, todo1, into1 := f, dead, todo[1..], into[1..];
    if into[0].Some? {
      var b := into[0].value;
      MatchShares(f, todo[0], b);
      MergeKeepsState(f, dead, todo[0], b);
      f1, dead1 := Redirect(f, todo[0], b), dead + {todo[0]};
    }
    StateAtNext(f, dead, todo, into, k, k', f1, dead1);
  }

  lemma StateAtNext(f: Func, dead: set<Label>, todo: seq<Label>, into: seq<Option<Label>>, k: nat, k': nat, f1: Func, dead1: set<Label>)
    requires |into| == |todo| && k <= |todo| && k == k' + 1 && (f1, dead1) == NextTurn(f, dead, todo[0], into[0])
    ensures StateAt(f, dead, todo, into, k) == StateAt(f1, dead1, todo[1..], into[1..], k')
  {
  }

  /** Every block is merged at its turn exactly if it has a twin then. */
  lemma {:induction false} TurnsRight(f: Func, todo: seq<Label>, dead: set<Label>, into: seq<Option<Label>>, g: Func, dead': set<Label>, k: nat,
                                      x: Label, o: Option<Label>)
    returns (t: (Func, set<Label>))
    requires f.order != [] && Scanned(f, todo, dead, into, g, dead') && k < |todo| && todo[k] == x && into[k] == o
    requires ScanState(f, dead) && Fresh(todo, dead) && PhisMatched(f, todo, into)
    ensures t == StateAt(f, dead, todo, into, k) && TurnRight(t, x, o)
    decreases k
  {
    if k == 0 {
      t := FirstTurnRight(f, todo, dead, into, g, dead', x, o);
    } else {
      var f1, dead1, todo1, into1 := NextTurnKeeps(f, todo, dead, into, g, dead', k, k - 1);
      t := TurnsRight(f1, todo1, dead1, into1, g, dead', k - 1, x, o);
    }
  }

  /** A run merges every block that has a twin at its turn, into one of its twins, and no other. */
  lemma RunMergesTwins(f: Func, into: seq<Option<Label>>, dead: set<Label>, ds: seq<Label>, h: Func, k: nat)
    requires WellFormed(f) && MergeRun(f, into, dead, ds, h) && k < |f.order|
    requires |into| == |f.order| && PhisMatched(f, f.order, into)
    ensures TurnRight(StateAt(f, {}, f.order, into, k), f.order[k], into[k])
  {
    var g :| Scanned(f, f.order, {}, into, g, dead) && Deleted(g, ds, h);
    assert ScanState(f, {}) && Fresh(f.order, {});
    var _ := TurnsRight(f, f.order, {}, into, g, dead, k, f.order[k], into[k]);
  }

  // ----- What is left -----

  /** The blocks of todo that are merged. */
  ghost function Merged(todo: seq<Label>, into: seq<Option<Label>>): set<Label>
    requires |into| == |todo|
  {
    set k | 0 <= k < |todo| && into[k].Some? :: todo[k]
  }

  lemma MergedFirst(todo: seq<Label>, into: seq<Option<Label>>)
    requires |into| == |todo| > 0
    ensures Merged(todo, into) == Merged(todo[1..], into[1..]) + if into[0].Some? then {todo[0]} else {}
  {
    forall l | l in Merged(todo, into)
      ensures l in Merged(todo[1..], into[1..]) + if into[0].Some? then {todo[0]} else {}
    {
      var k :| 0 <= k < |todo| && into[k].Some? && todo[k] == l;
      assert k > 0 ==> todo[1..][k - 1] == l && into[1..][k - 1].Some?;
    }
    forall l | l in Merged(todo[1..], into[1..])
      ensures l in Merged(todo, into)
    {
      var k :| 0 <= k < |todo[1..]| && into[1..][k].Some? && todo[1..][k] == l;
      assert todo[k + 1] == l && into[k + 1].Some?;
    }
  }

  lemma {:induction false} ScanErases(f: Func, todo: seq<Label>, dead: set<Label>, into: seq<Option<Label>>, g: Func, dead': set<Label>)
    requires f.order != [] && Scanned(f, todo, dead, into, g, dead')
    ensures g.blocks.Keys == f.blocks.Keys && g.order == f.order && dead' == dead + Merged(todo, into)
    decreases todo
  {
    if todo != [] {
      MergedFirst(todo, into);
      match into[0]
      case Some(b) => ScanErases(Redirect(f, todo[0], b), todo[1..], dead + {todo[0]}, into[1..], g, dead');
      case None => ScanErases(f, todo[1..], dead, into[1..], g, dead');
    }
  }

  lemma {:induction false} DeletedBlocks(g: Func, ds: seq<Label>, h: Func)
    requires Deleted(g, ds, h)
    ensures h.blocks.Keys == g.blocks.Keys - (set d | d in ds)
    decreases ds
  {
    if ds != [] {
      DeletedBlocks(Drop(g, ds[0]), ds[1..], h);
      assert ds == [ds[0]] + ds[1..];
      assert Drop(g, ds[0]).blocks.Keys == g.blocks.Keys - {ds[0]};
    }
  }

  lemma NoEntryLeft(h: Func, gone: set<Label>)
    requires WellFormed(h) && h.blocks.Keys !! gone
    ensures forall l, i, p :: l in h.blocks && 0 <= i < |h.blocks[l].phis| && Lists(h.blocks[l].phis[i].incoming, p) ==> p !in gone
  {
    forall l, i, p | l in h.blocks && 0 <= i < |h.blocks[l].phis| && Lists(h.blocks[l].phis[i].incoming, p)
      ensures p !in gone
    {
      assert PhisCover(h, l) && h.Edge(p, l);
    }
  }

  lemma RunLeaves(f: Func, into: seq<Option<Label>>, dead: set<Label>, ds: seq<Label>, h: Func)
    requires f.order != [] && MergeRun(f, into, dead, ds, h) && |into| == |f.order|
    ensures h.blocks.Keys == f.blocks.Keys - dead && dead == Merged(f.order, into)
  {
    var g :| Scanned(f, f.order, {}, into, g, dead) && Deleted(g, ds, h);
    ScanErases(f, f.order, {}, into, g, dead);
    DeletedBlocks(g, ds, h);
    assert dead == (set d | d in ds);
  }

  /** After a run the merged blocks are gone, no other, and no PHI lists one. */
  lemma RunErasesMerged(w: World, f: Func, into: seq<Option<Label>>, dead: set<Label>, ds: seq<Label>, h: Func)
    requires WellFormed(f) && MergeRun(f, into, dead, ds, h) && |into| == |f.order| && PhisMatched(f, f.order, into)
    ensures h.blocks.Keys == f.blocks.Keys - Merged(f.order, into)
    ensures forall l, i, p :: l in h.blocks && 0 <= i < |h.blocks[l].phis| && Lists(h.blocks[l].phis[i].incoming, p) ==> p !in Merged(f.order, into)
  {
    RunLeaves(f, into, dead, ds, h);
    MergeRunAt(w, f, into, dead, ds, h, 0);
    NoEntryLeft(h, dead);
  }
}
