/** The function of test/MergeBB_switch_merged.ll: what any run of MergeBB makes of it. */
module MergeSwitch {
  import opened IR
  import opened Semantics
  import opened MergeSpec
  import opened MergeSound
  import opened MergeRuns
  import opened MergeWhole
  import opened MergeExact

  const EMPTY: Block := Block([], [], Term(Uncond, [], [5]))

  function Returns(inc: seq<(Label, Operand)>): Block { Block([Phi(6, IntTy(32), inc)], [], Term(Return, [Ref(6)], [])) }

  /** A switch to three empty blocks that pass on c, d and c. */
  function Switched(c: int, d: int): Func {
    Func([0, 2, 3, 4, 5],
         map[0 := Block([], [], Term(Switch([1, 2]), [Arg(0)], [4, 2, 3])),
             2 := EMPTY, 3 := EMPTY, 4 := EMPTY,
             5 := Returns([(4, Const(c)), (3, Const(d)), (2, Const(c))])])
  }

  /** Block 2 is gone, and its case goes to block 4. */
  function Expected(c: int, d: int): Func {
    Func([0, 3, 4, 5],
         map[0 := Block([], [], Term(Switch([1, 2]), [Arg(0)], [4, 4, 3])),
             3 := EMPTY, 4 := EMPTY,
             5 := Returns([(4, Const(c)), (3, Const(d))])])
  }

  lemma ThreeEntries(c: int, d: int, p: Label)
    ensures var inc := [(4, Const(c)), (3, Const(d)), (2, Const(c))];
      && (Lists(inc, p) <==> 2 <= p <= 4)
      && Incoming(inc, 4) == Const(c) && Incoming(inc, 3) == Const(d) && Incoming(inc, 2) == Const(c)
  {
    var x, y, z: (Label, Operand) := (4, Const(c)), (3, Const(d)), (2, Const(c));
    assert [x, y, z][0] == x && [x, y, z][1] == y && [x, y, z][2] == z;
    assert [x, y, z][1..] == [y, z] && [y, z][1..] == [z];
    assert Incoming([z], 2) == z.1 && Incoming([y, z], 2) == z.1 && Incoming([y, z], 3) == y.1;
  }

  lemma SwitchedEdges(c: int, d: int, p: Label, s: Label)
    ensures Switched(c, d).Edge(p, s) <==> (p == 0 && 2 <= s <= 4) || (2 <= p <= 4 && s == 5)
  {
  }

  lemma SwitchedTerm(c: int, d: int, l: Label)
    requires l in Switched(c, d).blocks
    ensures TermOk(Switched(c, d), Switched(c, d).blocks[l].term)
  {
  }

  lemma SwitchedCovers(c: int, d: int, l: Label)
    requires l in Switched(c, d).blocks
    ensures PhisCover(Switched(c, d), l)
  {
    forall i, p | 0 <= i < |Switched(c, d).blocks[l].phis|
      ensures Lists(Switched(c, d).blocks[l].phis[i].incoming, p) <==> Switched(c, d).Edge(p, l)
    {
      ThreeEntries(c, d, p);
      SwitchedEdges(c, d, p, l);
    }
  }

  lemma SwitchedDefs(c: int, d: int)
    ensures UniqueDefs(Switched(c, d)) && RefsDefined(Switched(c, d))
  {
    var f := Switched(c, d);
    assert DefinedAt(f, 5, 0, 6);
    forall s, r | UsedAt(f, s, r)
      ensures exists l, i :: DefinedAt(f, l, i, r)
    {
      OnlyUseOfSix(c, d, s, r);
    }
  }

  lemma OnlyUseOfSix(c: int, d: int, s: Site, r: Reg)
    requires UsedAt(Switched(c, d), s, r)
    ensures r == 6
  {
  }

  lemma SwitchedShape(c: int, d: int)
    ensures Shape(Switched(c, d))
  {
  }

  lemma SwitchedWellFormed(c: int, d: int)
    ensures WellFormed(Switched(c, d))
  {
    SwitchedShape(c, d);
    SwitchedDefs(c, d);
    forall l | l in Switched(c, d).blocks
      ensures TermOk(Switched(c, d), Switched(c, d).blocks[l].term) && PhisCover(Switched(c, d), l)
    {
      SwitchedTerm(c, d, l);
      SwitchedCovers(c, d, l);
    }
  }

  // ----- The turns -----

  /** Blocks 2 and 4 are twins by the general result on empty blocks. */
  lemma TwoFour(c: int, d: int)
    ensures Mergeable(Switched(c, d), {}, 2, 4)
  {
    var f := Switched(c, d);
    SwitchedWellFormed(c, d);
    ThreeEntries(c, d, 0);
    forall p | f.Edge(p, 2)
      ensures p == 0
    {
      SwitchedEdges(c, d, p, 2);
    }
    EmptyBlocksAreTwins(f, {}, 2, 4, 5);
    MergeableIffTwins(f, {}, 2, 4);
  }

  lemma TwoOnlyFour(c: int, d: int, b: Label)
    requires c != d && Mergeable(Switched(c, d), {}, 2, b)
    ensures b == 4
  {
    ThreeEntries(c, d, 0);
  }

  lemma EntryStays(c: int, d: int, b: Label)
    ensures !Mergeable(Switched(c, d), {}, 0, b)
  {
  }

  function After(c: int, d: int): Func {
    Func([0, 2, 3, 4, 5],
         map[0 := Block([], [], Term(Switch([1, 2]), [Arg(0)], [4, 4, 3])),
             2 := EMPTY, 3 := EMPTY, 4 := EMPTY,
             5 := Returns([(4, Const(c)), (3, Const(d)), (2, Const(c))])])
  }

  lemma RedirectedIs(c: int, d: int)
    ensures Redirect(Switched(c, d), 2, 4) == After(c, d)
  {
    var f := Switched(c, d);
    assert RedirectTargets([4, 2, 3], 2, 4) == [4, 4, 3] && RedirectTargets([5], 2, 4) == [5];
    var none: seq<Label> := [];
    assert RedirectTargets(none, 2, 4) == none;
    assert forall l :: l in f.blocks ==> RedirectBlock(f.blocks[l], 2, 4) == After(c, d).blocks[l];
    assert Redirect(f, 2, 4).blocks == After(c, d).blocks;
  }

  lemma OthersStay(c: int, d: int, x: Label, b: Label)
    requires c != d && 3 <= x <= 5
    ensures !Mergeable(After(c, d), {2}, x, b)
  {
    ThreeEntries(c, d, 0);
    if x == 5 {
      assert After(c, d).blocks[5].term.kind == Return;
    }
  }

  // ----- The scan -----

  lemma StaysAtTurn(f: Func, x: Label, todo: seq<Label>, dead: set<Label>, into: seq<Option<Label>>, g: Func, dead': set<Label>)
    requires f.order != [] && Scanned(f, [x] + todo, dead, into, g, dead') && forall b :: !Mergeable(f, dead, x, b)
    ensures |into| == 1 + |todo| && into[0] == None && Scanned(f, todo, dead, into[1..], g, dead')
  {
    assert ([x] + todo)[0] == x && ([x] + todo)[1..] == todo;
  }

  lemma GoesAtTurn(f: Func, x: Label, b: Label, todo: seq<Label>, dead: set<Label>, into: seq<Option<Label>>, g: Func, dead': set<Label>)
    requires f.order != [] && Scanned(f, [x] + todo, dead, into, g, dead') && Mergeable(f, dead, x, b)
    requires forall b' :: Mergeable(f, dead, x, b') ==> b' == b
    ensures |into| == 1 + |todo| && into[0] == Some(b) && Scanned(Redirect(f, x, b), todo, dead + {x}, into[1..], g, dead')
  {
    assert ([x] + todo)[0] == x && ([x] + todo)[1..] == todo;
  }

  lemma LastThreeStay(c: int, d: int, into: seq<Option<Label>>, g: Func, dead: set<Label>)
    requires c != d && Scanned(After(c, d), [3, 4, 5], {2}, into, g, dead)
    ensures into == [None, None, None] && g == After(c, d) && dead == {2}
  {
    var f := After(c, d);
    forall x, b | 3 <= x <= 5
      ensures !Mergeable(f, {2}, x, b)
    {
      OthersStay(c, d, x, b);
    }
    assert [3] + [4, 5] == [3, 4, 5] && [4] + [5] == [4, 5] && [5] + [] == [5];
    StaysAtTurn(f, 3, [4, 5], {2}, into, g, dead);
    StaysAtTurn(f, 4, [5], {2}, into[1..], g, dead);
    StaysAtTurn(f, 5, [], {2}, into[1..][1..], g, dead);
  }

  lemma FirstTwo(c: int, d: int, b: Label)
    requires c != d
    ensures !Mergeable(Switched(c, d), {}, 0, b) && (Mergeable(Switched(c, d), {}, 2, b) ==> b == 4)
  {
    EntryStays(c, d, b);
    if Mergeable(Switched(c, d), {}, 2, b) {
      TwoOnlyFour(c, d, b);
    }
  }

  lemma FirstTurns(c: int, d: int, into: seq<Option<Label>>, g: Func, dead: set<Label>) returns (rest: seq<Option<Label>>)
    requires c != d && Scanned(Switched(c, d), [0, 2, 3, 4, 5], {}, into, g, dead)
    ensures into == [None, Some(4)] + rest && Scanned(After(c, d), [3, 4, 5], {2}, rest, g, dead)
  {
    var f := Switched(c, d);
    forall b
      ensures !Mergeable(f, {}, 0, b) && (Mergeable(f, {}, 2, b) ==> b == 4)
    {
      FirstTwo(c, d, b);
    }
    TwoFour(c, d);
    assert [0] + [2, 3, 4, 5] == [0, 2, 3, 4, 5] && [2] + [3, 4, 5] == [2, 3, 4, 5];
    StaysAtTurn(f, 0, [2, 3, 4, 5], {}, into, g, dead);
    GoesAtTurn(f, 2, 4, [3, 4, 5], {}, into[1..], g, dead);
    RedirectedIs(c, d);
    assert {} + {2} == {2};
    rest := into[1..][1..];
  }

  lemma SwitchScanned(c: int, d: int, into: seq<Option<Label>>, g: Func, dead: set<Label>)
    requires c != d && Scanned(Switched(c, d), [0, 2, 3, 4, 5], {}, into, g, dead)
    ensures into == [None, Some(4), None, None, None] && g == After(c, d) && dead == {2}
  {
    var rest := FirstTurns(c, d, into, g, dead);
    LastThreeStay(c, d, rest, g, dead);
  }

  // ----- The deletion -----

  lemma DropsEntry(c: int, d: int)
    ensures DropEntries([(4, Const(c)), (3, Const(d)), (2, Const(c))], 2) == [(4, Const(c)), (3, Const(d))]
  {
    var x, y, z: (Label, Operand) := (4, Const(c)), (3, Const(d)), (2, Const(c));
    assert [x, y, z][1..] == [y, z] && [y, z][1..] == [z] && [z][1..] == [];
    assert DropEntries([z], 2) == [] && DropEntries([y, z], 2) == [y];
  }

  lemma {:induction false} WithoutAbsent(s: seq<Label>, a: Label)
    requires a !in s
    ensures Without(s, a) == s
  {
    if s != [] {
      WithoutAbsent(s[1..], a);
    }
  }

  lemma DroppedOrder(s: seq<Label>)
    requires s == [0, 2, 3, 4, 5]
    ensures Without(s, 2) == [0, 3, 4, 5]
  {
    var t := s[2..];
    WithoutAbsent(t, 2);
    assert s[1..][1..] == t && s[1..][0] == 2;
    assert Without(s[1..], 2) == [] + Without(t, 2);
  }

  lemma DroppedBlock(c: int, d: int, l: Label)
    requires l in [0, 3, 4, 5]
    ensures l in Drop(After(c, d), 2).blocks && Drop(After(c, d), 2).blocks[l] == Expected(c, d).blocks[l]
  {
    if l == 5 {
      DropsEntry(c, d);
      assert DropInBlock(After(c, d).blocks[5], 2).phis == Expected(c, d).blocks[5].phis;
    }
  }

  lemma DroppedIs(c: int, d: int)
    ensures Drop(After(c, d), 2) == Expected(c, d)
  {
    DroppedOrder(After(c, d).order);
    forall l
      ensures l in Drop(After(c, d), 2).blocks <==> l in Expected(c, d).blocks
      ensures l in Expected(c, d).blocks ==> Drop(After(c, d), 2).blocks[l] == Expected(c, d).blocks[l]
    {
      if l in [0, 3, 4, 5] {
        DroppedBlock(c, d, l);
      }
    }
    assert Drop(After(c, d), 2).blocks == Expected(c, d).blocks;
  }

  lemma AllSame(ds: seq<Label>, x: Label)
    requires forall i :: 0 <= i < |ds| ==> ds[i] == x
    ensures |ds| <= 1 || ds[0] == ds[1]
  {
  }

  lemma OneListed(ds: seq<Label>)
    requires Listing(ds, {2})
    ensures ds == [2]
  {
    assert 2 in ds;
    forall i | 0 <= i < |ds|
      ensures ds[i] == 2
    {
      assert ds[i] in ds;
    }
    AllSame(ds, 2);
  }

  /** Every run of MergeBB merges block 2 into block 4 and nothing else, and leaves the function that
      the test expects. */
  lemma SwitchMerged(c: int, d: int, into: seq<Option<Label>>, dead: set<Label>, ds: seq<Label>, h: Func)
    requires c != d && MergeRun(Switched(c, d), into, dead, ds, h)
    ensures into == [None, Some(4), None, None, None] && h == Expected(c, d)
  {
    var g :| Scanned(Switched(c, d), Switched(c, d).order, {}, into, g, dead) && Deleted(g, ds, h);
    SwitchScanned(c, d, into, g, dead);
    OneListed(ds);
    assert ds[1..] == [];
    assert Deleted(Drop(g, 2), [], h);
    DroppedIs(c, d);
  }
}
