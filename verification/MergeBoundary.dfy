/** A function that returns something else after MergeBB: two blocks whose PHIs list the same values
    for different predecessors. */
module MergeBoundary {
  import opened IR
  import opened Semantics
  import opened MergeSpec
  import opened MergeSound
  import opened MergeWhole

  function Jump(l: Label): Term { Term(Uncond, [], [l]) }

  /** A PHI of two constants, one for each of two predecessors. */
  function Choice(r: Reg, p: Label, c: int, q: Label, d: int): Phi { Phi(r, IntTy(8), [(p, Const(c)), (q, Const(d))]) }

  const FORK: Block := Block([], [], Term(Cond, [Arg(1)], [3, 4]))
  const JOIN: Phi := Phi(2, IntTy(8), [(3, Ref(0)), (4, Ref(1))])

  /** Blocks 1 and 2 both branch to 3 or 4.  Block 3 passes on c if it comes from 1 and d if it comes
      from 2; block 4 does it the other way round.  Block 5 returns what it is passed. */
  function Example(c: int, d: int): Func {
    Func([0, 1, 2, 3, 4, 5],
         map[0 := Block([], [], Term(Cond, [Arg(0)], [1, 2])),
             1 := FORK,
             2 := FORK,
             3 := Block([Choice(0, 1, c, 2, d)], [], Jump(5)),
             4 := Block([Choice(1, 2, c, 1, d)], [], Jump(5)),
             5 := Block([JOIN], [], Term(Return, [Ref(2)], []))])
  }

  // ----- It is well formed -----

  lemma ExampleEdges(c: int, d: int, p: Label, s: Label)
    ensures Example(c, d).Edge(p, s) <==>
      (p == 0 && (s == 1 || s == 2)) || ((p == 1 || p == 2) && (s == 3 || s == 4)) || ((p == 3 || p == 4) && s == 5)
  {
  }

  lemma ExampleUses(c: int, d: int, s: Site, r: Reg)
    ensures UsedAt(Example(c, d), s, r) <==>
      (r == 0 && s == Site(5, 0, 0)) || (r == 1 && s == Site(5, 0, 1)) || (r == 2 && s == Site(5, 1, 0))
  {
  }

  lemma TwoEntries(x: (Label, Operand), y: (Label, Operand), p: Label)
    ensures Lists([x, y], p) <==> p == x.0 || p == y.0
    ensures Incoming([x, y], x.0) == x.1
    ensures x.0 != y.0 ==> Incoming([x, y], y.0) == y.1
  {
    assert [x, y][0] == x && [x, y][1] == y && [x, y][1..] == [y];
  }

  lemma ExampleCovers(c: int, d: int, l: Label)
    requires l in Example(c, d).blocks
    ensures PhisCover(Example(c, d), l)
  {
    var f := Example(c, d);
    forall i, p | 0 <= i < |f.blocks[l].phis|
      ensures Lists(f.blocks[l].phis[i].incoming, p) <==> f.Edge(p, l)
    {
      ExampleEdges(c, d, p, l);
      TwoEntries(f.blocks[l].phis[0].incoming[0], f.blocks[l].phis[0].incoming[1], p);
    }
  }

  lemma ExampleDefs(c: int, d: int)
    ensures UniqueDefs(Example(c, d)) && RefsDefined(Example(c, d))
  {
    var f := Example(c, d);
    assert DefinedAt(f, 3, 0, 0) && DefinedAt(f, 4, 0, 1) && DefinedAt(f, 5, 0, 2);
    forall s, r | UsedAt(f, s, r)
      ensures exists l, i :: DefinedAt(f, l, i, r)
    {
      ExampleUses(c, d, s, r);
    }
  }

  lemma ExampleTermOk(c: int, d: int, l: Label)
    requires l < 6
    ensures TermOk(Example(c, d), Example(c, d).blocks[l].term)
  {
  }

  lemma ExampleTerms(c: int, d: int)
    ensures var f := Example(c, d); Shape(f) && forall l :: l in f.blocks ==> TermOk(f, f.blocks[l].term)
  {
    forall l | l in Example(c, d).blocks
      ensures TermOk(Example(c, d), Example(c, d).blocks[l].term)
    {
      ExampleTermOk(c, d, l);
    }
  }

  lemma ExampleWellFormed(c: int, d: int)
    ensures WellFormed(Example(c, d))
  {
    var f := Example(c, d);
    ExampleDefs(c, d);
    ExampleTerms(c, d);
    forall l | l in f.blocks
      ensures PhisCover(f, l)
    {
      ExampleCovers(c, d, l);
    }
  }

  // ----- Blocks 3 and 4 are merged -----

  lemma ExampleUseSites(c: int, d: int)
    ensures UseSites(Example(c, d), 0) == {Site(5, 0, 0)} && UseSites(Example(c, d), 1) == {Site(5, 0, 1)}
  {
    forall s
      ensures UsedAt(Example(c, d), s, 0) <==> s == Site(5, 0, 0)
      ensures UsedAt(Example(c, d), s, 1) <==> s == Site(5, 0, 1)
    {
      ExampleUses(c, d, s, 0);
      ExampleUses(c, d, s, 1);
    }
  }

  lemma OnePosition(x: Block, p: Phi)
    requires x.phis == [p] && x.body == []
    ensures NonDbg(x) == [0] && DstAt(x, 0) == p.dst && OperandsAt(x, 0) == IncomingValues(p.incoming)
  {
    assert NonDbgUpTo(x, 1) == NonDbgUpTo(x, 0) + [0];
  }

  lemma JoinEntries()
    ensures Incoming(JOIN.incoming, 3) == Ref(0) && Incoming(JOIN.incoming, 4) == Ref(1)
  {
    TwoEntries((3, Ref(0)), (4, Ref(1)), 3);
  }

  lemma ExampleMatches(c: int, d: int)
    ensures BodiesMatch(Example(c, d), 3, 4)
  {
    var f := Example(c, d);
    ExampleUseSites(c, d);
    JoinEntries();
    OnePosition(f.blocks[3], Choice(0, 1, c, 2, d));
    OnePosition(f.blocks[4], Choice(1, 2, c, 1, d));
    assert IncomingValues([(1, Const(c)), (2, Const(d))]) == IncomingValues([(2, Const(c)), (1, Const(d))]);
    assert UsedInPhi(f, 3, 0, Site(5, 0, 0)) && UsedInPhi(f, 4, 1, Site(5, 0, 1));
  }

  lemma ExampleErasable(c: int, d: int)
    ensures Erasable(Example(c, d), 3)
  {
    forall p | Example(c, d).Edge(p, 3)
      ensures p == 1 || p == 2
    {
      ExampleEdges(c, d, p, 3);
    }
  }

  lemma ExampleAllowed(c: int, d: int)
    ensures PhiAllows(Example(c, d), 3, 4)
  {
    var f := Example(c, d);
    JoinEntries();
    assert DstAt(f.blocks[3], 0) == 0 && DstAt(f.blocks[4], 0) == 1;
    assert DefinedIn(f, 3, Ref(0)) && DefinedIn(f, 4, Ref(1));
  }

  lemma ExampleMergeable(c: int, d: int)
    ensures Mergeable(Example(c, d), {}, 3, 4)
  {
    ExampleErasable(c, d);
    ExampleMatches(c, d);
    ExampleAllowed(c, d);
  }

  lemma ExampleShares(c: int, d: int)
    ensures PredsShared(Example(c, d), 3, 4)
  {
    var f := Example(c, d);
    forall p | p in f.blocks && f.Edge(p, 3)
      ensures f.Edge(p, 4)
    {
      ExampleEdges(c, d, p, 3);
      ExampleEdges(c, d, p, 4);
    }
  }

  // ----- The whole run of the pass -----

  lemma ScannedNone(f: Func, x: Label, todo: seq<Label>, dead: set<Label>, into: seq<Option<Label>>, g: Func, dead': set<Label>)
    requires f.order != [] && Scanned(f, todo, dead, into, g, dead') && forall b :: !Mergeable(f, dead, x, b)
    ensures Scanned(f, [x] + todo, dead, [KEPT] + into, g, dead')
  {
    assert ([x] + todo)[1..] == todo && ([KEPT] + into)[1..] == into;
  }

  lemma ScannedSome(f: Func, x: Label, b: Label, todo: seq<Label>, dead: set<Label>, into: seq<Option<Label>>, g: Func, dead': set<Label>)
    requires f.order != [] && Mergeable(f, dead, x, b)
    requires Scanned(Redirect(f, x, b), todo, dead + {x}, into, g, dead')
    ensures Scanned(f, [x] + todo, dead, [Some(b)] + into, g, dead')
  {
    assert ([x] + todo)[1..] == todo && ([Some(b)] + into)[1..] == into;
  }

  const KEPT: Option<Label> := None
  const INTO: seq<Option<Label>> := [KEPT, KEPT, KEPT, Some(4), KEPT, KEPT]

  lemma LastTwo(c: int, d: int)
    ensures var g := Redirect(Example(c, d), 3, 4); Scanned(g, [4, 5], {3}, [KEPT, KEPT], g, {3})
  {
    var g := Redirect(Example(c, d), 3, 4);
    assert Scanned(g, [], {3}, [], g, {3});
    ScannedNone(g, 5, [], {3}, [], g, {3});
    assert [5] + [] == [5] && [KEPT] + [] == [KEPT];
    forall b
      ensures !Mergeable(g, {3}, 4, b)
    {
      if b in g.blocks {
        assert g.blocks[b].term.targets == RedirectTargets(Example(c, d).blocks[b].term.targets, 3, 4);
      }
    }
    ScannedNone(g, 4, [5], {3}, [KEPT], g, {3});
    assert [4] + [5] == [4, 5] && [KEPT] + [KEPT] == [KEPT, KEPT];
  }

  lemma FirstFour(f: Func, todo: seq<Label>, into: seq<Option<Label>>, g: Func, dead: set<Label>)
    requires f.order != [] && Mergeable(f, {}, 3, 4) && Scanned(Redirect(f, 3, 4), todo, {3}, into, g, dead)
    requires forall x, b :: x <= 2 ==> !Mergeable(f, {}, x, b)
    ensures Scanned(f, [0] + ([1] + ([2] + ([3] + todo))), {}, [KEPT] + ([KEPT] + ([KEPT] + ([Some(4)] + into))), g, dead)
  {
    assert {} + {3} == {3};
    ScannedSome(f, 3, 4, todo, {}, into, g, dead);
    ScannedNone(f, 2, [3] + todo, {}, [Some(4)] + into, g, dead);
    ScannedNone(f, 1, [2] + ([3] + todo), {}, [KEPT] + ([Some(4)] + into), g, dead);
    ScannedNone(f, 0, [1] + ([2] + ([3] + todo)), {}, [KEPT] + ([KEPT] + ([Some(4)] + into)), g, dead);
  }

  lemma ForksStay(c: int, d: int, x: Label, b: Label)
    requires x <= 2
    ensures !Mergeable(Example(c, d), {}, x, b)
  {
  }

  lemma SixOf<T>(a: T, b: T, c: T, d: T, e: T, f: T)
    ensures [a] + ([b] + ([c] + ([d] + [e, f]))) == [a, b, c, d, e, f]
  {
  }

  lemma ExampleScanned(c: int, d: int)
    ensures Scanned(Example(c, d), [0, 1, 2, 3, 4, 5], {}, INTO, Redirect(Example(c, d), 3, 4), {3})
  {
    LastTwo(c, d);
    ExampleMergeable(c, d);
    forall x, b | x <= 2
      ensures !Mergeable(Example(c, d), {}, x, b)
    {
      ForksStay(c, d, x, b);
    }
    FirstFour(Example(c, d), [4, 5], [KEPT, KEPT], Redirect(Example(c, d), 3, 4), {3});
    SixOf(0, 1, 2, 3, 4, 5);
    SixOf(KEPT, KEPT, KEPT, Some(4), KEPT, KEPT);
  }

  /** What the pass makes of the example. */
  function Merged(c: int, d: int): Func { Drop(Redirect(Example(c, d), 3, 4), 3) }

  lemma ExampleRun(c: int, d: int)
    ensures MergeRun(Example(c, d), INTO, {3}, [3], Merged(c, d))
  {
    var f := Example(c, d);
    var g := Redirect(f, 3, 4);
    ExampleScanned(c, d);
    assert [3][1..] == [];
    assert Deleted(Merged(c, d), [], Merged(c, d));
    assert Scanned(f, f.order, {}, INTO, g, {3}) && Deleted(g, [3], Merged(c, d));
  }

  lemma MergeThenDelete(w: World, f: Func, a: Label, b: Label, n: nat)
    requires WellFormed(f) && Mergeable(f, {}, a, b) && PredsShared(f, a, b)
    ensures WellFormed(Drop(Redirect(f, a, b), a))
    ensures Run(w, Drop(Redirect(f, a, b), a), n) == Run(w, Redirect(f, a, b), n)
  {
    assert ScanState(f, {});
    MergeKeepsState(f, {}, a, b);
    assert {} + {a} == {a} && {a} - {a} == {};
    DeleteOne(w, Redirect(f, a, b), {a}, a, n);
    WithoutDead(Drop(Redirect(f, a, b), a));
  }

  /** The result is well formed, with a PHI entry for each predecessor. */
  lemma MergedWellFormed(w: World, c: int, d: int, n: nat)
    ensures WellFormed(Merged(c, d)) && Run(w, Merged(c, d), n) == Run(w, Redirect(Example(c, d), 3, 4), n)
  {
    ExampleWellFormed(c, d);
    ExampleMergeable(c, d);
    ExampleShares(c, d);
    MergeThenDelete(w, Example(c, d), 3, 4, n);
  }

  // ----- The two runs -----

  lemma ExampleStart(w: World, c: int, d: int, f: Func)
    requires w.arg(0) != 0 && w.arg(1) != 0 && (f == Example(c, d) || f == Redirect(Example(c, d), 3, 4))
    ensures f.order != []
    ensures RunFrom(w, f, Start(w, f), 2) == At(1, if f == Example(c, d) then 3 else 4, map[], w.mem0)
  {
    assert Vals(w, [Arg(0)], map[]) == [w.arg(0)] && Vals(w, [Arg(1)], map[]) == [w.arg(1)];
    assert f.blocks[0].term.targets == [1, 2];
    assert f.blocks[1].term.targets[0] == if f == Example(c, d) then 3 else 4;
    assert RunFrom(w, f, Start(w, f), 1) == At(0, 1, map[], w.mem0);
  }

  /** A block that only has one PHI, of value v. */
  lemma PhiStep(w: World, f: Func, p: Label, l: Label, e: Env, v: int, r: Reg)
    requires l in f.blocks && |f.blocks[l].phis| == 1 && f.blocks[l].body == [] && f.blocks[l].phis[0].dst == r
    requires Val(w, Incoming(f.blocks[l].phis[0].incoming, p), e) == v
    ensures f.blocks[l].term.kind == Uncond && |f.blocks[l].term.targets| == 1 ==>
      Step(w, f, At(p, l, e, w.mem0)) == At(l, f.blocks[l].term.targets[0], e[r := v], w.mem0)
    ensures f.blocks[l].term == Term(Return, [Ref(r)], []) ==> Step(w, f, At(p, l, e, w.mem0)) == Done([v], w.mem0)
  {
    assert f.blocks[l].phis[1..] == [];
    assert EvalPhis(w, f.blocks[l].phis, p, e, e) == e[r := v];
    assert Vals(w, [Ref(r)], e[r := v]) == [v];
  }

  lemma ExampleReturns(w: World, c: int, d: int)
    requires w.arg(0) != 0 && w.arg(1) != 0
    ensures Look(Run(w, Example(c, d), 4)) == Finished([c], w.mem0)
  {
    var f := Example(c, d);
    ExampleStart(w, c, d, f);
    TwoEntries((1, Const(c)), (2, Const(d)), 1);
    JoinEntries();
    PhiStep(w, f, 1, 3, map[], c, 0);
    PhiStep(w, f, 3, 5, map[0 := c], c, 2);
    assert RunFrom(w, f, Start(w, f), 3) == Step(w, f, RunFrom(w, f, Start(w, f), 2));
  }

  lemma RedirectedReturns(w: World, c: int, d: int)
    requires w.arg(0) != 0 && w.arg(1) != 0
    ensures Look(Run(w, Redirect(Example(c, d), 3, 4), 4)) == Finished([d], w.mem0)
  {
    var g := Redirect(Example(c, d), 3, 4);
    ExampleStart(w, c, d, g);
    TwoEntries((2, Const(c)), (1, Const(d)), 1);
    JoinEntries();
    PhiStep(w, g, 1, 4, map[], d, 1);
    PhiStep(w, g, 4, 5, map[1 := d], d, 2);
    assert RunFrom(w, g, Start(w, g), 3) == Step(w, g, RunFrom(w, g, Start(w, g), 2));
  }

  lemma ExampleDiffers(c: int, d: int)
    requires c != d
    ensures !PhisMatch(Example(c, d), 3, 4)
  {
    var f := Example(c, d);
    ExampleEdges(c, d, 1, 3);
    TwoEntries((1, Const(c)), (2, Const(d)), 1);
    TwoEntries((2, Const(c)), (1, Const(d)), 1);
    assert Incoming(f.blocks[3].phis[0].incoming, 1) == Const(c) && Incoming(f.blocks[4].phis[0].incoming, 1) == Const(d);
  }

  /** A run of MergeBB takes a well-formed function that returns c to a well-formed function that
      returns d: it merges two blocks whose PHIs do not match. */
  lemma MergingPhisChangesMeaning(w: World, c: int, d: int)
    requires w.arg(0) != 0 && w.arg(1) != 0 && c != d
    ensures WellFormed(Example(c, d)) && WellFormed(Merged(c, d))
    ensures MergeRun(Example(c, d), INTO, {3}, [3], Merged(c, d)) && !PhisMatch(Example(c, d), 3, 4)
    ensures Look(Run(w, Example(c, d), 4)) == Finished([c], w.mem0)
    ensures Look(Run(w, Merged(c, d), 4)) == Finished([d], w.mem0)
  {
    ExampleWellFormed(c, d);
    ExampleRun(c, d);
    ExampleDiffers(c, d);
    ExampleReturns(w, c, d);
    MergedWellFormed(w, c, d, 4);
    RedirectedReturns(w, c, d);
  }
}
