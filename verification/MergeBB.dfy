/** The MergeBB pass: the in-place code, proved against MergeSpec. */
module MergeBB {
  import opened IR
  import opened MergeSpec
  import opened MergeSound
  import opened MergeWhole
  import opened MergeExact
  import opened FunctionState

  // ----- Walking two blocks backwards in step -----

  lemma {:induction false} UpToPrefix(b: Block, n: nat, k: nat)
    requires n <= Count(b) && k < |NonDbgUpTo(b, n)|
    ensures !DbgAt(b, NonDbgUpTo(b, n)[k])
    ensures NonDbgUpTo(b, NonDbgUpTo(b, n)[k]) == NonDbgUpTo(b, n)[..k]
  {
    if k < |NonDbgUpTo(b, n - 1)| {
      UpToPrefix(b, n - 1, k);
    }
  }

  function LastOr(ps: seq<nat>): int { if ps == [] then -1 else ps[|ps| - 1] }

  /** The position of the instruction that n others follow, debug intrinsics aside, or -1. */
  ghost function FromEnd(b: Block, n: nat): (r: int)
    ensures -1 <= r < Count(b)
    ensures r == -1 <==> n >= |NonDbg(b)|
  {
    var p := NonDbg(b);
    if n < |p| then p[|p| - 1 - n] else -1
  }

  lemma BeforeLast(b: Block, n: nat)
    requires n < |NonDbg(b)|
    ensures LastOr(NonDbgUpTo(b, FromEnd(b, n))) == FromEnd(b, n + 1)
  {
    var p, k := NonDbg(b), |NonDbg(b)| - 1 - n;
    UpToPrefix(b, Count(b), k);
    LastOfPrefix(p, k, NonDbgUpTo(b, FromEnd(b, n)));
  }

  lemma LastOfPrefix(p: seq<nat>, k: nat, q: seq<nat>)
    requires k <= |p| && q == p[..k]
    ensures LastOr(q) == if k == 0 then -1 else p[k - 1]
  {
  }

  class LockstepReverseIterator {
    const b1: Block
    const b2: Block
    var inst1: int
    var inst2: int
    var fail: bool
    ghost var steps: nat

    /** While valid, the iterator is at the instructions that `steps` others follow, debug
        intrinsics aside; it fails when one block has no more. */
    ghost predicate Valid()
      reads this
    {
      if fail then steps == |NonDbg(b1)| || steps == |NonDbg(b2)|
      else
        && steps < |NonDbg(b1)| && steps < |NonDbg(b2)|
        && inst1 == FromEnd(b1, steps) && inst2 == FromEnd(b2, steps)
    }

    constructor (b1In: Block, b2In: Block)
      ensures Valid() && b1 == b1In && b2 == b2In && steps == 0
    {
      b1, b2, fail, steps := b1In, b2In, false, 0;
      new;
      inst1 := PrevNonDbgInst(b1, Count(b1));
      if inst1 == -1 {
        fail := true;
      }
      inst2 := PrevNonDbgInst(b2, Count(b2));
      if inst2 == -1 {
        fail := true;
      }
    }

    /** The closest instruction before position i that is not a debug intrinsic, or -1. */
    static method PrevNonDbgInst(b: Block, i: nat) returns (r: int)
      requires i <= Count(b)
      ensures r == LastOr(NonDbgUpTo(b, i))
      ensures -1 <= r < i
    {
      r := i - 1;
      while r >= 0 && DbgAt(b, r)
        invariant -1 <= r < i
        invariant NonDbgUpTo(b, r + 1) == NonDbgUpTo(b, i)
      {
        r := r - 1;
      }
    }

    predicate IsValid()
      reads this
    {
      !fail
    }

    method Decrement()
      requires Valid()
      modifies this
      ensures Valid()
      ensures steps == if old(fail) then old(steps) else old(steps) + 1
      ensures old(fail) ==> fail
    {
      if fail {
        return;
      }
      BeforeLast(b1, steps);
      BeforeLast(b2, steps);
      steps := steps + 1;
      inst1 := PrevNonDbgInst(b1, inst1);
      if inst1 == -1 {
        fail := true;
        return;
      }
      inst2 := PrevNonDbgInst(b2, inst2);
      if inst2 == -1 {
        fail := true;
        return;
      }
    }
  }

  method SameOperands(xs: seq<Operand>, ys: seq<Operand>) returns (same: bool)
    ensures same <==> xs == ys
  {
    if |xs| != |ys| {
      return false;
    }
    for k := 0 to |xs|
      invariant xs[..k] == ys[..k]
    {
      if xs[k] != ys[k] {
        return false;
      }
    }
    assert xs[..|xs|] == xs && ys[..|ys|] == ys;
    return true;
  }

  method CanMerge(ir: FunctionIR, a: Label, i: nat, b: Label, j: nat) returns (ok: bool)
    requires a in ir.blocks && i < Count(ir.blocks[a]) && b in ir.blocks && j < Count(ir.blocks[b])
    ensures ok == CanMergeInstructions(ir.Value(), a, i, b, j)
  {
    var f := ir.Value();
    var r, q := DstAt(f.blocks[a], i), DstAt(f.blocks[b], j);
    if !SameOperation(f.blocks[a], i, f.blocks[b], j) {
      return false;
    }
    var hasUse := !UseEmpty(f, r);
    if hasUse && !(HasOneUse(f, r) && HasOneUse(f, q)) {
      return false;
    }
    if !hasUse && !UseEmpty(f, q) {
      return false;
    }
    if hasUse {
      if !CanRemoveInst(f, a, i) || !CanRemoveInst(f, b, j) {
        return false;
      }
    }
    ok := SameOperands(OperandsAt(f.blocks[a], i), OperandsAt(f.blocks[b], j));
  }

  /** The last t pairs match. */
  ghost predicate LastPairsMatch(f: Func, a: Label, b: Label, t: nat)
    requires a in f.blocks && b in f.blocks && t <= |NonDbg(f.blocks[a])| == |NonDbg(f.blocks[b])|
  {
    var p, q := NonDbg(f.blocks[a]), NonDbg(f.blocks[b]);
    forall k :: |p| - t <= k < |p| ==> CanMergeInstructions(f, a, p[k], b, q[k])
  }

  lemma OnePairMore(f: Func, a: Label, b: Label, t: nat)
    requires a in f.blocks && b in f.blocks && t < |NonDbg(f.blocks[a])| == |NonDbg(f.blocks[b])| && LastPairsMatch(f, a, b, t)
    ensures LastPairsMatch(f, a, b, t + 1) <==> CanMergeInstructions(f, a, FromEnd(f.blocks[a], t), b, FromEnd(f.blocks[b], t))
    ensures !CanMergeInstructions(f, a, FromEnd(f.blocks[a], t), b, FromEnd(f.blocks[b], t)) ==> !BodiesMatch(f, a, b)
  {
    var p, q := NonDbg(f.blocks[a]), NonDbg(f.blocks[b]);
    var k := |p| - 1 - t;
    assert FromEnd(f.blocks[a], t) == p[k] && FromEnd(f.blocks[b], t) == q[k];
  }

  /** The lockstep walk is a pairwise comparison of the two bodies without debug intrinsics. */
  method WalkAccepts(ir: FunctionIR, a: Label, b: Label) returns (same: bool)
    requires a in ir.blocks && b in ir.blocks
    requires |NonDbg(ir.blocks[a])| == |NonDbg(ir.blocks[b])|
    ensures same <==> BodiesMatch(ir.Value(), a, b)
  {
    var lri := new LockstepReverseIterator(ir.blocks[a], ir.blocks[b]);
    ghost var f := ir.Value();
    var go := true;
    while lri.IsValid() && go
      invariant lri.Valid() && lri.b1 == f.blocks[a] && lri.b2 == f.blocks[b] && ir.Value() == f
      invariant LastPairsMatch(f, a, b, lri.steps)
      invariant !go ==> lri.IsValid() && !BodiesMatch(f, a, b)
      decreases |NonDbg(f.blocks[a])| - lri.steps, go
    {
      OnePairMore(f, a, b, lri.steps);
      go := CanMerge(ir, a, lri.inst1, b, lri.inst2);
      if go {
        lri.Decrement();
      }
    }
    same := !lri.IsValid();
  }

  method GetNumNonDbgInstrInBB(b: Block) returns (count: nat)
    ensures count == |NonDbg(b)| + 1
  {
    count := 0;
    for i := 0 to Count(b)
      invariant count == |NonDbgUpTo(b, i)|
    {
      if !DbgAt(b, i) {
        count := count + 1;
      }
    }
    count := count + 1;
  }

  // ----- Redirecting edges -----

  /** How many edges of the blocks listed go to s. */
  function EdgesInto(blocks: map<Label, Block>, ls: seq<Label>, s: Label): nat {
    if ls == [] then 0
    else (if ls[0] in blocks then multiset(blocks[ls[0]].term.targets)[s] else 0) + EdgesInto(blocks, ls[1..], s)
  }

  /** The edges of the blocks listed that go to s, as pairs of a block and a position of its targets. */
  ghost function EdgeSet(blocks: map<Label, Block>, ls: seq<Label>, s: Label): set<(Label, nat)> {
    set l, i: nat | l in ls && l in blocks && i < |blocks[l].term.targets| && blocks[l].term.targets[i] == s :: (l, i)
  }

  ghost function TargetSet(l: Label, ts: seq<Label>, s: Label): set<(Label, nat)> {
    set i: nat | i < |ts| && ts[i] == s :: (l, i)
  }

  lemma {:induction false} TargetsCounted(l: Label, ts: seq<Label>, s: Label)
    ensures |TargetSet(l, ts, s)| == multiset(ts)[s]
    decreases |ts|
  {
    if ts != [] {
      var n: nat := |ts| - 1;
      TargetsCounted(l, ts[..n], s);
      assert ts == ts[..n] + [ts[n]];
      assert TargetSet(l, ts, s) == TargetSet(l, ts[..n], s) + if ts[n] == s then {(l, n)} else {};
    }
  }

  /** The count is the number of those edges. */
  lemma {:induction false} EdgesIntoCounts(blocks: map<Label, Block>, ls: seq<Label>, s: Label)
    requires forall i, j :: 0 <= i < j < |ls| ==> ls[i] != ls[j]
    ensures EdgesInto(blocks, ls, s) == |EdgeSet(blocks, ls, s)|
    decreases ls
  {
    if ls != [] {
      EdgesIntoCounts(blocks, ls[1..], s);
      assert ls == [ls[0]] + ls[1..];
      var first := if ls[0] in blocks then TargetSet(ls[0], blocks[ls[0]].term.targets, s) else {};
      if ls[0] in blocks {
        TargetsCounted(ls[0], blocks[ls[0]].term.targets, s);
      }
      assert first !! EdgeSet(blocks, ls[1..], s);
      assert EdgeSet(blocks, ls, s) == first + EdgeSet(blocks, ls[1..], s);
    }
  }

  lemma {:induction false} EdgesIntoUpdate(blocks: map<Label, Block>, ls: seq<Label>, l: Label, x: Block, s: Label)
    requires l in blocks && forall i, j :: 0 <= i < j < |ls| ==> ls[i] != ls[j]
    ensures EdgesInto(blocks[l := x], ls, s) + (if l in ls then multiset(blocks[l].term.targets)[s] else 0) ==
      EdgesInto(blocks, ls, s) + (if l in ls then multiset(x.term.targets)[s] else 0)
  {
    if ls != [] {
      EdgesIntoUpdate(blocks, ls[1..], l, x, s);
      assert ls == [ls[0]] + ls[1..];
    }
  }

  lemma {:induction false} NoEdgesIntoCount(blocks: map<Label, Block>, ls: seq<Label>, s: Label)
    ensures EdgesInto(blocks, ls, s) == 0 <==> forall l :: l in ls && l in blocks ==> s !in blocks[l].term.targets
  {
    if ls != [] {
      NoEdgesIntoCount(blocks, ls[1..], s);
      assert ls == [ls[0]] + ls[1..];
    }
  }

  /** The redirected targets, and how many there were. */
  method RedirectOperands(ts: seq<Label>, a: Label, b: Label) returns (rs: seq<Label>, count: nat)
    requires a != b
    ensures rs == RedirectTargets(ts, a, b) && count == multiset(ts)[a]
  {
    rs, count := ts, 0;
    for i := 0 to |ts|
      invariant |rs| == |ts|
      invariant rs[..i] == RedirectTargets(ts[..i], a, b)
      invariant rs[i..] == ts[i..]
      invariant count == multiset(ts[..i])[a]
    {
      assert ts[..i + 1] == ts[..i] + [ts[i]];
      assert rs[i] == rs[i..][0] == ts[i];
      ghost var before := rs;
      if rs[i] == a {
        rs := rs[i := b];
        count := count + 1;
      }
      assert rs[..i] == before[..i] && rs[i + 1..] == before[i..][1..];
      assert rs[..i + 1] == rs[..i] + [Ren(a, b, ts[i])];
    }
    assert ts[..|ts|] == ts && rs[..|ts|] == rs;
  }

  /** The targets of one predecessor. */
  method RedirectOne(ir: FunctionIR, p: Label, erase: Label, retain: Label) returns (n: nat)
    requires p in ir.blocks && erase != retain && forall i, j :: 0 <= i < j < |ir.order| ==> ir.order[i] != ir.order[j]
    modifies ir`blocks
    ensures ir.blocks == old(ir.blocks)[p := RedirectBlock(old(ir.blocks)[p], erase, retain)]
    ensures p in ir.order ==> EdgesInto(ir.blocks, ir.order, erase) + n == EdgesInto(old(ir.blocks), ir.order, erase)
  {
    var x := ir.blocks[p];
    var rs;
    rs, n := RedirectOperands(x.term.targets, erase, retain);
    EdgesIntoUpdate(ir.blocks, ir.order, p, x.(term := x.term.(targets := rs)), erase);
    NotATarget(x.term.targets, erase, retain);
    ir.blocks := ir.blocks[p := x.(term := x.term.(targets := rs))];
  }

  /** The blocks of f with their edges into erase sent to retain, except for those in preds. */
  ghost predicate RedirectedBut(f: Func, blocks: map<Label, Block>, preds: set<Label>, erase: Label, retain: Label) {
    && blocks.Keys == f.blocks.Keys
    && forall l :: l in f.blocks ==> blocks[l] == if l in preds then f.blocks[l] else RedirectBlock(f.blocks[l], erase, retain)
  }

  lemma NoneRedirected(f: Func, preds: set<Label>, erase: Label, retain: Label)
    requires preds == set p | p in f.blocks && erase in f.blocks[p].term.targets
    ensures RedirectedBut(f, f.blocks, preds, erase, retain)
  {
  }

  lemma OneRedirected(f: Func, blocks: map<Label, Block>, preds: set<Label>, p: Label, erase: Label, retain: Label)
    requires RedirectedBut(f, blocks, preds, erase, retain) && p in preds && p in f.blocks
    ensures RedirectedBut(f, blocks[p := RedirectBlock(blocks[p], erase, retain)], preds - {p}, erase, retain)
  {
  }

  lemma AllRedirected(f: Func, blocks: map<Label, Block>, erase: Label, retain: Label)
    requires RedirectedBut(f, blocks, {}, erase, retain)
    ensures blocks == Redirect(f, erase, retain).blocks
  {
  }

  method UpdateBranchTargets(ir: FunctionIR, erase: Label, retain: Label) returns (updated: nat)
    requires Shape(ir.Value()) && erase != retain
    modifies ir
    ensures ir.Value() == Redirect(old(ir.Value()), erase, retain)
    ensures updated == old(EdgesInto(ir.blocks, ir.order, erase))
  {
    ghost var f := ir.Value();
    var preds := set p | p in ir.blocks && erase in ir.blocks[p].term.targets;
    updated := 0;
    NoneRedirected(f, preds, erase, retain);
    while preds != {}
      invariant ir.order == f.order && preds <= f.blocks.Keys && RedirectedBut(f, ir.blocks, preds, erase, retain)
      invariant updated + EdgesInto(ir.blocks, ir.order, erase) == EdgesInto(f.blocks, f.order, erase)
      decreases preds
    {
      var p :| p in preds;
      OneRedirected(f, ir.blocks, preds, p, erase, retain);
      preds := preds - {p};
      var n := RedirectOne(ir, p, erase, retain);
      updated := updated + n;
    }
    AllRedirected(f, ir.blocks, erase, retain);
    NoneLeft(f, erase, retain);
  }

  lemma NoneLeft(f: Func, erase: Label, retain: Label)
    requires erase != retain
    ensures EdgesInto(Redirect(f, erase, retain).blocks, f.order, erase) == 0
  {
    var g := Redirect(f, erase, retain);
    forall l | l in f.order && l in g.blocks
      ensures erase !in g.blocks[l].term.targets
    {
      NotATarget(f.blocks[l].term.targets, erase, retain);
    }
    NoEdgesIntoCount(g.blocks, f.order, erase);
  }

  lemma NotATarget(ts: seq<Label>, a: Label, b: Label)
    requires a != b
    ensures a !in RedirectTargets(ts, a, b)
    ensures a !in ts ==> RedirectTargets(ts, a, b) == ts
  {
  }

  // ----- The scan -----

  /** Every edge leads to a block that is not the entry, and every unconditional branch has its one
      target. */
  ghost predicate SoundCfg(f: Func) {
    Shape(f) && forall l :: l in f.blocks ==> TermOk(f, f.blocks[l].term)
  }

  lemma RedirectSound(f: Func, a: Label, b: Label)
    requires SoundCfg(f) && b in f.blocks && b != f.order[0]
    ensures SoundCfg(Redirect(f, a, b))
  {
    forall l | l in f.blocks
      ensures TermOk(Redirect(f, a, b), Redirect(f, a, b).blocks[l].term)
    {
      RedirectTerms(f, a, b, l);
    }
  }

  /** The test the scan makes before it looks for a partner. */
  method IsErasable(ir: FunctionIR, bb1: Label) returns (ok: bool)
    requires SoundCfg(ir.Value()) && bb1 in ir.blocks
    ensures ok == Erasable(ir.Value(), bb1)
    ensures var f, t := ir.Value(), ir.blocks[bb1].term;
      ok <==>
        && bb1 != f.order[0] && t.kind == Uncond && |t.targets| == 1 && t.targets[0] in f.blocks
        && |f.blocks[t.targets[0]].phis| <= 1
        && forall p :: f.Edge(p, bb1) ==> f.blocks[p].term.kind == Uncond || f.blocks[p].term.kind == Cond || f.blocks[p].term.kind.Switch?
  {
    var f := ir.Value();
    if bb1 == f.order[0] {
      return false;
    }
    if !EndsInBranch(f, bb1) {
      return false;
    }
    var preds := set p | p in f.blocks && bb1 in f.blocks[p].term.targets;
    while preds != {}
      invariant forall p :: p in f.blocks && f.Edge(p, bb1) && !BranchOrSwitch(f.blocks[p].term.kind) ==> p in preds
      invariant forall p :: p in preds ==> f.Edge(p, bb1)
      decreases preds
    {
      var p :| p in preds;
      preds := preds - {p};
      if !BranchOrSwitch(f.blocks[p].term.kind) {
        return false;
      }
    }
    assert f.Edge(bb1, f.blocks[bb1].term.targets[0]);
    ok := |f.blocks[f.blocks[bb1].term.targets[0]].phis| <= 1;
  }

  /** Whether bb2, a predecessor of bb1's successor, qualifies as the block to merge bb1 into. */
  method IsPartner(ir: FunctionIR, bb1: Label, bb2: Label, deleteList: set<Label>) returns (ok: bool)
    requires SoundCfg(ir.Value()) && Erasable(ir.Value(), bb1)
    requires ir.Value().Edge(bb2, ir.blocks[bb1].term.targets[0])
    ensures ok == Mergeable(ir.Value(), deleteList, bb1, bb2)
    ensures EnteredSound(ir.Value()) ==> (ok <==> Twins(ir.Value(), deleteList, bb1, bb2))
  {
    if EnteredSound(ir.Value()) {
      MergeableIffTwins(ir.Value(), deleteList, bb1, bb2);
    }
    if bb2 == ir.order[0] || !EndsInBranch(ir.Value(), bb2) {
      return false;
    }
    // This test only continues its own loop, so it rules no bb2 out.
    var preds := set p | p in ir.blocks && bb2 in ir.blocks[p].term.targets;
    while preds != {}
      invariant preds <= ir.blocks.Keys
      decreases preds
    {
      var p :| p in preds;
      preds := preds - {p};
      if !BranchOrSwitch(ir.blocks[p].term.kind) {
        continue;
      }
    }
    if bb2 in deleteList || bb2 == bb1 {
      return false;
    }
    var bb1NumInst := GetNumNonDbgInstrInBB(ir.blocks[bb1]);
    var bb2NumInst := GetNumNonDbgInstrInBB(ir.blocks[bb2]);
    if bb1NumInst != bb2NumInst || !PhiAllows(ir.Value(), bb1, bb2) {
      return false;
    }
    ok := WalkAccepts(ir, bb1, bb2);
  }

  lemma ScannedOne(f: Func, a: Label, dead: set<Label>, o: Option<Label>)
    requires f.order != []
    requires if o.Some? then Mergeable(f, dead, a, o.value) else forall b :: !Mergeable(f, dead, a, b)
    ensures if o.Some? then Scanned(f, [a], dead, [o], Redirect(f, a, o.value), dead + {a}) else Scanned(f, [a], dead, [o], f, dead)
  {
    var g, d := if o.Some? then Redirect(f, a, o.value) else f, if o.Some? then dead + {a} else dead;
    assert [a][1..] == [] && [o][1..] == [];
    assert Scanned(g, [], d, [], g, d);
  }

  method MergeDuplicatedBlock(ir: FunctionIR, bb1: Label, deleteList: set<Label>)
    returns (changed: bool, deleted: set<Label>, updated: nat, ghost into: Option<Label>)
    requires SoundCfg(ir.Value()) && bb1 in ir.blocks
    modifies ir
    ensures changed <==> into.Some?
    ensures Scanned(old(ir.Value()), [bb1], deleteList, [into], ir.Value(), deleted)
    ensures updated == if changed then old(EdgesInto(ir.blocks, ir.order, bb1)) else 0
    ensures SoundCfg(ir.Value()) && ir.order == old(ir.order)
  {
    ghost var f := ir.Value();
    changed, deleted, updated, into := false, deleteList, 0, None;
    var erasable := IsErasable(ir, bb1);
    if erasable {
      var succ := ir.blocks[bb1].term.targets[0];
      var candidates := set p | p in ir.blocks && succ in ir.blocks[p].term.targets;
      while candidates != {}
        invariant ir.Value() == f && !changed && deleted == deleteList && into == None
        invariant forall p :: p in candidates ==> f.Edge(p, succ)
        invariant forall b :: Mergeable(f, deleteList, bb1, b) ==> b in candidates
        decreases candidates
      {
        var bb2 :| bb2 in candidates;
        candidates := candidates - {bb2};
        var ok := IsPartner(ir, bb1, bb2, deleteList);
        if ok {
          RedirectSound(f, bb1, bb2);
          ScannedOne(f, bb1, deleteList, Some(bb2));
          updated := UpdateBranchTargets(ir, bb1, bb2);
          deleted := deleted + {bb1};
          changed, into := true, Some(bb2);
          return;
        }
      }
    }
    ScannedOne(f, bb1, deleteList, None);
  }

  // ----- What every point of the scan keeps -----

  /** Every block that is neither the entry nor erased has a predecessor. */
  ghost predicate Entered(f: Func, dead: set<Label>)
    requires f.order != []
  {
    forall l :: l in f.blocks && l != f.order[0] && l !in dead ==> exists p :: f.Edge(p, l)
  }

  function TotalEdges(blocks: map<Label, Block>, ls: seq<Label>): nat {
    if ls == [] then 0 else (if ls[0] in blocks then |blocks[ls[0]].term.targets| else 0) + TotalEdges(blocks, ls[1..])
  }

  lemma {:induction false} RedirectKeepsTotal(f: Func, a: Label, b: Label, ls: seq<Label>)
    ensures TotalEdges(Redirect(f, a, b).blocks, ls) == TotalEdges(f.blocks, ls)
  {
    if ls != [] {
      RedirectKeepsTotal(f, a, b, ls[1..]);
    }
  }

  /** A merge erases no edge, leaves none into an erased block, and takes a predecessor from no
      other block; nothing here needs the erased block to be free of PHIs. */
  lemma MergeKeepsCfg(f: Func, dead: set<Label>, a: Label, b: Label)
    requires f.order != [] && Mergeable(f, dead, a, b) && NoEdgesInto(f, dead)
    ensures NoEdgesInto(Redirect(f, a, b), dead + {a})
    ensures Entered(f, dead) && a !in dead ==> Entered(Redirect(f, a, b), dead + {a})
    ensures TotalEdges(Redirect(f, a, b).blocks, f.order) == TotalEdges(f.blocks, f.order)
  {
    var g := Redirect(f, a, b);
    RedirectKeepsTotal(f, a, b, f.order);
    forall p, d | d in dead + {a}
      ensures !g.Edge(p, d)
    {
      RedirectEdges(f, a, b, p, d);
    }
    if Entered(f, dead) && a !in dead {
      forall l | l in g.blocks && l != g.order[0] && l !in dead + {a}
        ensures exists p :: g.Edge(p, l)
      {
        var p :| f.Edge(p, l);
        RedirectEdges(f, a, b, p, l);
      }
    }
  }

  lemma EnteredCount(f: Func, a: Label)
    requires Shape(f) && exists p :: f.Edge(p, a)
    ensures EdgesInto(f.blocks, f.order, a) > 0
  {
    NoEdgesIntoCount(f.blocks, f.order, a);
  }

  lemma {:induction false} ScannedAppend(f: Func, todo: seq<Label>, dead: set<Label>, into: seq<Option<Label>>, g: Func, dead': set<Label>,
                                         x: Label, o: Option<Label>, h: Func, dead'': set<Label>)
    requires f.order != [] && Scanned(f, todo, dead, into, g, dead')
    requires g.order != [] && Scanned(g, [x], dead', [o], h, dead'')
    ensures Scanned(f, todo + [x], dead, into + [o], h, dead'')
    decreases todo
  {
    if todo == [] {
      assert todo + [x] == [x] && into + [o] == [o];
    } else {
      assert (todo + [x])[1..] == todo[1..] + [x] && (into + [o])[1..] == into[1..] + [o];
      match into[0]
      case Some(b) =>
        ScannedAppend(Redirect(f, todo[0], b), todo[1..], dead + {todo[0]}, into[1..], g, dead', x, o, h, dead'');
      case None =>
        ScannedAppend(f, todo[1..], dead, into[1..], g, dead', x, o, h, dead'');
    }
  }

  lemma ScanStepCases(g: Func, x: Label, dead: set<Label>, o: Option<Label>, h: Func, dead': set<Label>)
    requires g.order != [] && Scanned(g, [x], dead, [o], h, dead')
    ensures o.Some? ==> Mergeable(g, dead, x, o.value) && h == Redirect(g, x, o.value) && dead' == dead + {x}
    ensures o.None? ==> h == g && dead' == dead
  {
    var e: seq<Label>, oe: seq<Option<Label>> := [], [];
    assert [x][1..] == e && [o][1..] == oe;
    if o.Some? {
      assert Scanned(Redirect(g, x, o.value), e, dead + {x}, oe, h, dead');
    } else {
      assert Scanned(g, e, dead, oe, h, dead');
    }
  }

  /** The facts the scan keeps while it has looked at the blocks in `seen`. */
  ghost predicate ScanPoint(f: Func, seen: seq<Label>, into: seq<Option<Label>>, g: Func, dead: set<Label>)
    requires f.order != [] && g.order != []
  {
    && Scanned(f, seen, {}, into, g, dead)
    && (forall d :: d in dead ==> d in seen && d in g.blocks)
    && NoEdgesInto(g, dead)
    && TotalEdges(g.blocks, g.order) == TotalEdges(f.blocks, f.order)
    && (Entered(f, {}) ==> Entered(g, dead))
  }

  lemma ScanAdvances(f: Func, seen: seq<Label>, into: seq<Option<Label>>, g: Func, dead: set<Label>,
                     x: Label, o: Option<Label>, h: Func, dead': set<Label>)
    requires f.order != [] && g.order != [] && h.order != [] && ScanPoint(f, seen, into, g, dead)
    requires Scanned(g, [x], dead, [o], h, dead') && x !in seen
    ensures ScanPoint(f, seen + [x], into + [o], h, dead')
    ensures o.Some? && Entered(f, {}) ==> exists p :: g.Edge(p, x)
    ensures dead' != {} <==> dead != {} || o.Some?
  {
    ScanStepCases(g, x, dead, o, h, dead');
    ScannedAppend(f, seen, {}, into, g, dead, x, o, h, dead');
    if o.Some? {
      MergeKeepsCfg(g, dead, x, o.value);
    }
  }

  lemma ScanIteration(f: Func, i: nat, into: seq<Option<Label>>, g: Func, dead: set<Label>, o: Option<Label>, h: Func, dead': set<Label>)
    requires Shape(f) && i < |f.order| && Shape(g) && h.order != []
    requires ScanPoint(f, f.order[..i], into, g, dead) && Scanned(g, [f.order[i]], dead, [o], h, dead')
    ensures ScanPoint(f, f.order[..i + 1], into + [o], h, dead')
    ensures o.Some? && Entered(f, {}) ==> EdgesInto(g.blocks, g.order, f.order[i]) > 0
    ensures dead' != {} <==> dead != {} || o.Some?
  {
    var x := f.order[i];
    assert f.order[..i + 1] == f.order[..i] + [x];
    ScanAdvances(f, f.order[..i], into, g, dead, x, o, h, dead');
    if exists p :: g.Edge(p, x) {
      EnteredCount(g, x);
    }
  }

  /** How many edges each iteration of a scan redirects. */
  function Updates(f: Func, todo: seq<Label>, into: seq<Option<Label>>): (r: seq<nat>)
    requires |into| == |todo|
    ensures |r| == |todo|
    decreases todo
  {
    if todo == [] then []
    else
      match into[0]
      case Some(b) => [EdgesInto(f.blocks, f.order, todo[0])] + Updates(Redirect(f, todo[0], b), todo[1..], into[1..])
      case None => [0] + Updates(f, todo[1..], into[1..])
  }

  lemma {:induction false} UpdatesAppend(f: Func, todo: seq<Label>, dead: set<Label>, into: seq<Option<Label>>, g: Func, dead': set<Label>,
                                         x: Label, o: Option<Label>)
    requires f.order != [] && Scanned(f, todo, dead, into, g, dead')
    ensures Updates(f, todo + [x], into + [o]) ==
      Updates(f, todo, into) + [if o.Some? then EdgesInto(g.blocks, g.order, x) else 0]
    decreases todo
  {
    if todo == [] {
      assert todo + [x] == [x] && into + [o] == [o] && [x][1..] == [] && [o][1..] == [];
    } else {
      assert (todo + [x])[1..] == todo[1..] + [x] && (into + [o])[1..] == into[1..] + [o];
      match into[0]
      case Some(b) => UpdatesAppend(Redirect(f, todo[0], b), todo[1..], dead + {todo[0]}, into[1..], g, dead', x, o);
      case None => UpdatesAppend(f, todo[1..], dead, into[1..], g, dead', x, o);
    }
  }

  /** The numbers of redirected edges so far, none of them 0 if every block but the entry started
      with a predecessor. */
  ghost predicate UpdatesPoint(f: Func, seen: seq<Label>, into: seq<Option<Label>>, updates: seq<nat>)
    requires f.order != []
  {
    && |into| == |seen| && updates == Updates(f, seen, into)
    && (Entered(f, {}) ==> forall k :: 0 <= k < |into| && into[k].Some? ==> updates[k] > 0)
  }

  lemma UpdatesAdvance(f: Func, i: nat, into: seq<Option<Label>>, updates: seq<nat>, g: Func, dead: set<Label>, o: Option<Label>, n: nat)
    requires f.order != [] && i < |f.order| && Scanned(f, f.order[..i], {}, into, g, dead)
    requires UpdatesPoint(f, f.order[..i], into, updates)
    requires n == if o.Some? then EdgesInto(g.blocks, g.order, f.order[i]) else 0
    requires o.Some? && Entered(f, {}) ==> n > 0
    ensures UpdatesPoint(f, f.order[..i + 1], into + [o], updates + [n])
  {
    assert f.order[..i + 1] == f.order[..i] + [f.order[i]];
    UpdatesAppend(f, f.order[..i], {}, into, g, dead, f.order[i], o);
  }

  /** The scan over all blocks in layout order, with the number of branch targets updated for each.
      The assertion that some target was updated never fails if every block but the entry starts
      with a predecessor. */
  method Scan(ir: FunctionIR) returns (changed: bool, deleteList: set<Label>, updates: seq<nat>, ghost into: seq<Option<Label>>)
    requires SoundCfg(ir.Value())
    modifies ir
    ensures SoundCfg(ir.Value()) && ir.order == old(ir.order)
    ensures ScanPoint(old(ir.Value()), ir.order, into, ir.Value(), deleteList)
    ensures changed <==> deleteList != {}
    ensures |into| == |ir.order| && updates == Updates(old(ir.Value()), ir.order, into)
    ensures old(Entered(ir.Value(), {})) ==> forall k :: 0 <= k < |into| && into[k].Some? ==> updates[k] > 0
  {
    ghost var f := ir.Value();
    changed, deleteList, updates, into := false, {}, [], [];
    for i := 0 to |ir.order|
      invariant ir.order == f.order && SoundCfg(ir.Value())
      invariant ScanPoint(f, f.order[..i], into, ir.Value(), deleteList)
      invariant UpdatesPoint(f, f.order[..i], into, updates)
      invariant changed <==> deleteList != {}
    {
      ghost var g := ir.Value();
      var x := ir.order[i];
      var merged, deleted, updated, o := MergeDuplicatedBlock(ir, x, deleteList);
      ScanIteration(f, i, into, g, deleteList, o, ir.Value(), deleted);
      UpdatesAdvance(f, i, into, updates, g, deleteList, o, updated);
      updates, into := updates + [updated], into + [o];
      changed := changed || merged;
      deleteList := deleted;
    }
    assert f.order[..|f.order|] == f.order;
  }

  // ----- The deletion -----

  /** f with the PHI entries for bb dropped in the successors outside `left`. */
  function PartlyDropped(f: Func, bb: Label, left: set<Label>): map<Label, Block>
    requires bb in f.blocks
  {
    map l | l in f.blocks :: if l in f.blocks[bb].term.targets && l !in left then DropInBlock(f.blocks[l], bb) else f.blocks[l]
  }

  method DeleteDeadBlock(ir: FunctionIR, bb: Label)
    requires SoundCfg(ir.Value()) && bb in ir.blocks
    modifies ir
    ensures ir.Value() == Drop(old(ir.Value()), bb)
  {
    ghost var f := ir.Value();
    var succs := set s | s in ir.blocks[bb].term.targets;
    assert f.blocks == PartlyDropped(f, bb, succs);
    while succs != {}
      invariant ir.order == f.order && ir.blocks == PartlyDropped(f, bb, succs)
      invariant forall s :: s in succs ==> s in f.blocks[bb].term.targets && s in f.blocks
      decreases succs
    {
      var s :| s in succs;
      PartlyDroppedStep(f, bb, succs, s);
      succs := succs - {s};
      ir.blocks := ir.blocks[s := DropInBlock(ir.blocks[s], bb)];
    }
    ir.order := Without(ir.order, bb);
    ir.blocks := ir.blocks - {bb};
    PartlyDroppedAll(f, bb);
  }

  lemma PartlyDroppedStep(f: Func, bb: Label, left: set<Label>, s: Label)
    requires bb in f.blocks && s in left && s in f.blocks && s in f.blocks[bb].term.targets
    ensures PartlyDropped(f, bb, left)[s] == f.blocks[s]
    ensures PartlyDropped(f, bb, left)[s := DropInBlock(f.blocks[s], bb)] == PartlyDropped(f, bb, left - {s})
  {
  }

  lemma PartlyDroppedAll(f: Func, bb: Label)
    requires bb in f.blocks
    ensures PartlyDropped(f, bb, {}) - {bb} == Drop(f, bb).blocks
  {
    assert PartlyDropped(f, bb, {}) - {bb} == Drop(f, bb).blocks;
  }

  lemma {:induction false} DeletedAppend(g: Func, ds: seq<Label>, h: Func, d: Label)
    requires Deleted(g, ds, h) && d in h.blocks
    ensures Deleted(g, ds + [d], Drop(h, d))
    decreases ds
  {
    if ds == [] {
      assert ds + [d] == [d];
      assert Deleted(Drop(h, d), [d][1..], Drop(h, d));
    } else {
      assert (ds + [d])[1..] == ds[1..] + [d];
      DeletedAppend(Drop(g, ds[0]), ds[1..], h, d);
    }
  }

  lemma DropSound(f: Func, d: Label)
    requires SoundCfg(f) && d in f.blocks && d != f.order[0] && NoEdgesInto(f, {d})
    ensures SoundCfg(Drop(f, d)) && Drop(f, d).order[0] == f.order[0]
  {
    WithoutIs(f.order, d);
    var g := Drop(f, d);
    forall l | l in g.blocks
      ensures TermOk(g, g.blocks[l].term)
    {
      assert TermOk(f, f.blocks[l].term) && !f.Edge(l, d);
    }
  }

  /** The facts the deletion keeps while `left` is still to be deleted. */
  ghost predicate DeletePoint(g: Func, dead: set<Label>, left: set<Label>, ds: seq<Label>, h: Func) {
    && SoundCfg(h) && left <= h.blocks.Keys && left <= dead
    && h.order[0] !in left
    && NoEdgesInto(h, left)
    && Deleted(g, ds, h)
    && (forall d :: d in ds <==> d in dead - left)
    && (forall i, j :: 0 <= i < j < |ds| ==> ds[i] != ds[j])
  }

  lemma ListedMore(dead: set<Label>, left: set<Label>, ds: seq<Label>, bb: Label)
    requires bb in left && left <= dead && (forall d :: d in ds <==> d in dead - left)
    requires forall i, j :: 0 <= i < j < |ds| ==> ds[i] != ds[j]
    ensures forall d :: d in ds + [bb] <==> d in dead - (left - {bb})
    ensures forall i, j :: 0 <= i < j < |ds + [bb]| ==> (ds + [bb])[i] != (ds + [bb])[j]
  {
    forall i | 0 <= i < |ds|
      ensures ds[i] != bb
    {
      assert ds[i] in ds;
    }
  }

  lemma DeleteAdvances(g: Func, dead: set<Label>, left: set<Label>, ds: seq<Label>, h: Func, bb: Label)
    requires DeletePoint(g, dead, left, ds, h) && bb in left
    ensures DeletePoint(g, dead, left - {bb}, ds + [bb], Drop(h, bb))
  {
    DropSound(h, bb);
    forall p, d | d in left - {bb}
      ensures !Drop(h, bb).Edge(p, d)
    {
      DropEdges(h, bb, p, d);
    }
    ListedMore(dead, left, ds, bb);
    DeletedAppend(g, ds, h, bb);
  }

  /** MergeBB::run. */
  method Run(ir: FunctionIR) returns (changed: bool, ghost into: seq<Option<Label>>, ghost dead: set<Label>, ghost ds: seq<Label>)
    requires SoundCfg(ir.Value())
    modifies ir
    ensures MergeRun(old(ir.Value()), into, dead, ds, ir.Value())
    ensures changed <==> dead != {}
  {
    var deleteList;
    var updates;
    changed, deleteList, updates, into := Scan(ir);
    ghost var g := ir.Value();
    dead, ds := deleteList, [];
    NotEntry(old(ir.Value()), g.order, {}, into, g, dead);
    while deleteList != {}
      invariant DeletePoint(g, dead, deleteList, ds, ir.Value())
      decreases deleteList
    {
      var bb :| bb in deleteList;
      DeleteAdvances(g, dead, deleteList, ds, ir.Value(), bb);
      deleteList := deleteList - {bb};
      DeleteDeadBlock(ir, bb);
      ds := ds + [bb];
    }
  }

  lemma {:induction false} NotEntry(f: Func, todo: seq<Label>, dead: set<Label>, into: seq<Option<Label>>, g: Func, dead': set<Label>)
    requires f.order != [] && Scanned(f, todo, dead, into, g, dead') && f.order[0] !in dead
    ensures f.order[0] !in dead' && dead <= dead'
    decreases todo
  {
    if todo != [] {
      match into[0]
      case Some(b) => NotEntry(Redirect(f, todo[0], b), todo[1..], dead + {todo[0]}, into[1..], g, dead');
      case None => NotEntry(f, todo[1..], dead, into[1..], g, dead');
    }
  }
}
