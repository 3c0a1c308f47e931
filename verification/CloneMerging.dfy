/** When MergeBB merges the two clones of a block. */
module CloneMerging {
  import opened IR
  import opened Semantics
  import opened Renaming
  import opened MergeSpec
  import opened DuplicateSpec
  import opened DuplicateSound
  import opened DuplicateShape
  import opened ClonePairs

  /** How many instructions produce a value. */
  function ValueCount(body: seq<Instr>): nat {
    if body == [] then 0 else ValueCount(body[..|body| - 1]) + if body[|body| - 1].op.ty == Void then 0 else 1
  }

  /** Some instruction reads the value of an earlier one. */
  predicate ReadsItself(body: seq<Instr>) {
    if body == [] then false
    else ReadsItself(body[..|body| - 1]) || ReadsOneOf(body[|body| - 1], body[..|body| - 1])
  }

  predicate ReadsOneOf(x: Instr, body: seq<Instr>) {
    if body == [] then false
    else ReadsOneOf(x, body[..|body| - 1]) || (body[|body| - 1].op.ty != Void && Ref(body[|body| - 1].dst) in x.args)
  }

  /** At most one instruction produces a value, and no other one of the body reads it. */
  predicate Collapsible(body: seq<Instr>) { ValueCount(body) <= 1 && !ReadsItself(body) }

  /** The same, position by position. */
  ghost predicate Quiet(body: seq<Instr>) {
    AtMostOneValue(body) && NoneRead(body)
  }

  ghost predicate AtMostOneValue(body: seq<Instr>) {
    forall i, j :: 0 <= i < j < |body| ==> body[i].op.ty == Void || body[j].op.ty == Void
  }

  ghost predicate AllVoid(body: seq<Instr>) { forall i :: 0 <= i < |body| ==> body[i].op.ty == Void }

  lemma {:induction false} NoValues(body: seq<Instr>)
    ensures ValueCount(body) == 0 <==> AllVoid(body)
    decreases |body|
  {
    if body != [] {
      NoValues(body[..|body| - 1]);
    }
  }

  lemma {:induction false} FewValues(body: seq<Instr>)
    ensures ValueCount(body) <= 1 <==> AtMostOneValue(body)
    decreases |body|
  {
    if body != [] {
      var n := |body| - 1;
      FewValues(body[..n]);
      NoValues(body[..n]);
      if AtMostOneValue(body) {
        assert forall i :: 0 <= i < n ==> body[i].op.ty == Void || body[n].op.ty == Void;
      } else if AtMostOneValue(body[..n]) {
        var i, j :| 0 <= i < j < |body| && body[i].op.ty != Void && body[j].op.ty != Void;
        assert j == n && body[..n][i] == body[i];
      }
    }
  }

  lemma {:induction false} OneOfIs(x: Instr, body: seq<Instr>)
    ensures ReadsOneOf(x, body) <==> exists i :: 0 <= i < |body| && body[i].op.ty != Void && ReadsReg(x, body[i].dst)
    decreases |body|
  {
    if body != [] {
      var n := |body| - 1;
      OneOfIs(x, body[..n]);
      if exists i :: 0 <= i < |body| && body[i].op.ty != Void && ReadsReg(x, body[i].dst) {
        var i :| 0 <= i < |body| && body[i].op.ty != Void && ReadsReg(x, body[i].dst);
        assert i < n ==> body[..n][i] == body[i];
      }
    }
  }

  ghost predicate NoneRead(body: seq<Instr>) {
    forall i, j :: 0 <= i < j < |body| && body[i].op.ty != Void ==> !ReadsReg(body[j], body[i].dst)
  }

  lemma {:induction false} NoneReadIs(body: seq<Instr>)
    ensures ReadsItself(body) <==> !NoneRead(body)
    decreases |body|
  {
    if body != [] {
      var n := |body| - 1;
      NoneReadIs(body[..n]);
      OneOfIs(body[n], body[..n]);
      if NoneRead(body) {
        assert NoneRead(body[..n]);
      } else if NoneRead(body[..n]) {
        forall i, j | 0 <= i < j < n && body[i].op.ty != Void
          ensures !ReadsReg(body[j], body[i].dst)
        {
          assert body[..n][j] == body[j] && body[..n][i] == body[i];
        }
        var i, j :| 0 <= i < j < |body| && body[i].op.ty != Void && ReadsReg(body[j], body[i].dst);
        assert j == n && body[..n][i] == body[i];
      }
    }
  }

  lemma CollapsibleIs(body: seq<Instr>)
    ensures Collapsible(body) <==> Quiet(body)
  {
    FewValues(body);
    NoneReadIs(body);
  }

  // ----- The joining PHIs -----

  lemma {:induction false} NoPhis(body: seq<Instr>, n: nat, k: nat, i: nat)
    requires i <= |body| && forall j :: 0 <= j < i ==> body[j].op.ty == Void
    ensures TailPhis(body, n, k, i) == []
  {
    if i > 0 {
      NoPhis(body, n, k, i - 1);
    }
  }

  lemma {:induction false} OnePhi(body: seq<Instr>, n: nat, k: nat, i: nat, j: nat)
    requires j < i <= |body| && body[j].op.ty != Void && forall h :: 0 <= h < i && h != j ==> body[h].op.ty == Void
    ensures TailPhis(body, n, k, i) == [JoinPhi(body[j].op.ty, n, k, j + 1)]
  {
    if j < i - 1 {
      OnePhi(body, n, k, i - 1, j);
    } else {
      NoPhis(body, n, k, i - 1);
    }
  }

  lemma ManyPhis(body: seq<Instr>, n: nat, k: nat, i: nat, j: nat)
    requires i < j < |body| && body[i].op.ty != Void && body[j].op.ty != Void
    ensures |TailPhis(body, n, k, |body|)| >= 2
  {
    var s := TailPhiOf(body, n, k, |body|, i);
    var t := TailPhiOf(body, n, k, |body|, j);
    assert TailPhis(body, n, k, |body|)[s].dst != TailPhis(body, n, k, |body|)[t].dst;
  }

  // ----- Positions -----

  lemma {:induction false} SameDebug(x: Block, y: Block, i: nat)
    requires x.phis == [] == y.phis && |x.body| == |y.body| && i <= |x.body|
    requires forall j :: 0 <= j < |x.body| ==> x.body[j].op == y.body[j].op
    ensures NonDbgUpTo(x, i) == NonDbgUpTo(y, i)
  {
    if i > 0 {
      SameDebug(x, y, i - 1);
    }
  }

  // ----- Where a clone's value is read -----

  lemma AvoidedUse(f: Func, s: Site, r: Reg, d: set<Reg>)
    requires UsedAt(f, s, r) && BlockAvoids(f.blocks[s.l], d)
    ensures r !in d
  {
    var b := f.blocks[s.l];
    if s.i < |b.phis| {
      assert IncomingAvoids(d, b.phis[s.i].incoming);
    } else if s.i < Count(b) {
      assert Avoids(d, b.body[s.i - |b.phis|].args);
    }
  }

  /** The value of instruction j of clone e is read by its own clone, for an operand that was inner, or
      by the joining PHI of j. */
  ghost predicate OwnUse(body: seq<Instr>, n: nat, k: Label, e: nat, j: nat, s: Site) {
    || (s.l == k + e - 1 && s.i < |body| && s.k < |body[s.i].args| && Inner(body, s.i, body[s.i].args[s.k]))
    || (s.l == k + 2 && s.i < |TailPhis(body, n, k, |body|)| && s.k == e - 1 &&
        TailPhis(body, n, k, |body|)[s.i].dst == n + 3 * (j + 1))
  }

  lemma InnerReg(body: seq<Instr>, n: nat, e: nat, i: nat, o: Operand) returns (j: nat)
    requires i <= |body| && Inner(body, i, o)
    ensures j < i && body[j].op.ty != Void && body[j].dst == o.r && Image(Arm(body, n + e, i), o.r) == ArmReg(n, e, j)
  {
    j := ArmKey(body, 0, i, o.r);
    ArmValue(body, n + e, i, o.r, j);
  }

  /** A clone that reads a clone's value reads its own. */
  lemma ArmReads(body: seq<Instr>, n: nat, i: nat, x: Instr, y: Instr, t: nat, e: nat, j: nat)
    requires i < |body| && InstrMatch(body, n, i, x, y) && (e == 1 || e == 2) && j < |body| && t < |x.args|
    ensures x.args[t] == Ref(ArmReg(n, e, j)) ==> e == 1 && Inner(body, i, body[i].args[t])
    ensures y.args[t] == Ref(ArmReg(n, e, j)) ==> e == 2 && Inner(body, i, body[i].args[t])
  {
    ArmRegIn(n, |body|, e, j);
    assert OperandMatch(body, n, i, body[i].args[t], x.args[t], y.args[t]);
    if Inner(body, i, body[i].args[t]) {
      var j1 := InnerReg(body, n, 1, i, body[i].args[t]);
      var j2 := InnerReg(body, n, 2, i, body[i].args[t]);
    }
  }

  lemma ArmUse(f: Func, body: seq<Instr>, n: nat, k: Label, e: nat, j: nat, s: Site)
    requires ClonesAt(f, body, n, k) && (e == 1 || e == 2) && j < |body| && UsedAt(f, s, ArmReg(n, e, j))
    requires s.l == k || s.l == k + 1
    ensures OwnUse(body, n, k, e, j, s)
  {
    assert InstrMatch(body, n, s.i, f.blocks[k].body[s.i], f.blocks[k + 1].body[s.i]);
    ArmReads(body, n, s.i, f.blocks[k].body[s.i], f.blocks[k + 1].body[s.i], s.k, e, j);
  }

  lemma TailUse(f: Func, body: seq<Instr>, n: nat, k: Label, e: nat, j: nat, s: Site)
    requires ClonePair(f, body, n, k) && (e == 1 || e == 2) && j < |body| && UsedAt(f, s, ArmReg(n, e, j)) && s.l == k + 2
    ensures OwnUse(body, n, k, e, j, s)
  {
    ArmRegIn(n, |body|, e, j);
    if s.i < |f.blocks[k + 2].phis| {
      var h := TailPhiAt(body, n, k, |body|, s.i);
    }
  }

  lemma UsesAreOwn(f: Func, body: seq<Instr>, n: nat, k: Label, e: nat, j: nat, s: Site)
    requires ClonePair(f, body, n, k) && (e == 1 || e == 2) && j < |body| && UsedAt(f, s, ArmReg(n, e, j))
    ensures OwnUse(body, n, k, e, j, s)
  {
    ArmRegIn(n, |body|, e, j);
    if s.l == k + 2 {
      TailUse(f, body, n, k, e, j, s);
    } else if s.l == k || s.l == k + 1 {
      ArmUse(f, body, n, k, e, j, s);
    } else {
      AvoidedUse(f, s, ArmReg(n, e, j), ArmRegs(n, |body|));
    }
  }

  /** The joining PHI's use of clone e, which is block a. */
  lemma JoinReads(f: Func, body: seq<Instr>, n: nat, k: Label, e: nat, a: Label, j: nat) returns (s: Site)
    requires TailOf(f, body, n, k) && (e == 1 || e == 2) && a == k + e - 1 && j < |body| && body[j].op.ty != Void
    ensures UsedAt(f, s, ArmReg(n, e, j)) && s.l == k + 2 && s.k == e - 1 && IsPhiAt(f.blocks[k + 2], s.i)
    ensures Incoming(f.blocks[k + 2].phis[s.i].incoming, a) == Ref(ArmReg(n, e, j))
  {
    var t := TailPhiOf(body, n, k, |body|, j);
    s := Site(k + 2, t, e - 1);
    var inc := JoinPhi(body[j].op.ty, n, k, j + 1).incoming;
    assert inc[1..][0] == (k + 1, Ref(ArmReg(n, 2, j)));
    assert IncomingValues(inc)[0] == Ref(ArmReg(n, 1, j)) && IncomingValues(inc)[1] == Ref(ArmReg(n, 2, j));
  }

  // ----- Collapsible bodies: the clones match -----

  lemma NoInner(body: seq<Instr>, i: nat, t: nat)
    requires Quiet(body) && i < |body| && t < |body[i].args|
    ensures !Inner(body, i, body[i].args[t])
  {
    if Inner(body, i, body[i].args[t]) {
      var j := InnerReg(body, 0, 0, i, body[i].args[t]);
      assert ReadsReg(body[i], body[j].dst);
    }
  }

  lemma SameArgs(body: seq<Instr>, n: nat, i: nat, x: Instr, y: Instr)
    requires Quiet(body) && i < |body| && InstrMatch(body, n, i, x, y)
    ensures x.args == y.args
  {
    forall t | 0 <= t < |x.args|
      ensures x.args[t] == y.args[t]
    {
      NoInner(body, i, t);
      assert OperandMatch(body, n, i, body[i].args[t], x.args[t], y.args[t]);
    }
  }

  lemma PhisOf(body: seq<Instr>, n: nat, k: nat)
    requires AtMostOneValue(body)
    ensures |TailPhis(body, n, k, |body|)| <= 1
    ensures forall j :: 0 <= j < |body| && body[j].op.ty != Void ==> TailPhis(body, n, k, |body|) == [JoinPhi(body[j].op.ty, n, k, j + 1)]
    ensures (forall j :: 0 <= j < |body| ==> body[j].op.ty == Void) ==> TailPhis(body, n, k, |body|) == []
  {
    if exists j :: 0 <= j < |body| && body[j].op.ty != Void {
      var j :| 0 <= j < |body| && body[j].op.ty != Void;
      OnePhi(body, n, k, |body|, j);
    } else {
      NoPhis(body, n, k, |body|);
    }
    forall j | 0 <= j < |body| && body[j].op.ty != Void
      ensures TailPhis(body, n, k, |body|) == [JoinPhi(body[j].op.ty, n, k, j + 1)]
    {
      OnePhi(body, n, k, |body|, j);
    }
  }

  lemma OnlyJoin(f: Func, body: seq<Instr>, n: nat, k: Label, e: nat, j: nat, s: Site, t: Site)
    requires ClonePair(f, body, n, k) && Quiet(body) && (e == 1 || e == 2) && j < |body| && body[j].op.ty != Void
    requires UsedAt(f, t, ArmReg(n, e, j)) && s.l == k + 2 && s.i == 0 && s.k == e - 1
    ensures t == s
  {
    PhisOf(body, n, k);
    UsesAreOwn(f, body, n, k, e, j, t);
    if t.l == k + e - 1 && t.i < |body| && t.k < |body[t.i].args| {
      NoInner(body, t.i, t.k);
    }
  }

  lemma OneSite(f: Func, r: Reg, s: Site)
    requires UsedAt(f, s, r) && forall t :: UsedAt(f, t, r) ==> t == s
    ensures HasOneUse(f, r) && !UseEmpty(f, r) && s in UseSites(f, r)
  {
    assert UseSites(f, r) == {s};
  }

  /** Clone e as a block. */
  lemma CloneBlockAt(f: Func, body: seq<Instr>, n: nat, k: Label, e: nat, a: Label, j: nat)
    requires ClonesAt(f, body, n, k) && (e == 1 || e == 2) && a == k + e - 1 && j < |body|
    ensures a in f.blocks && f.blocks[a].phis == [] && f.blocks[a].term == JumpTo(k + 2) && |f.blocks[a].body| == |body|
    ensures DstAt(f.blocks[a], j) == ArmReg(n, e, j) && f.blocks[a].body[j].op == body[j].op
  {
    assert InstrMatch(body, n, j, f.blocks[k].body[j], f.blocks[k + 1].body[j]);
    if e == 1 {
      assert a == k;
    } else {
      assert a == k + 1;
    }
  }

  lemma Removable(f: Func, l: Label, i: nat, s: Site, t: Label)
    requires l in f.blocks && i < Count(f.blocks[l]) && UsedAt(f, s, DstAt(f.blocks[l], i))
    requires f.blocks[l].term == JumpTo(t) && s.l == t && IsPhiAt(f.blocks[t], s.i)
    requires Incoming(f.blocks[t].phis[s.i].incoming, l) == Ref(DstAt(f.blocks[l], i))
    ensures CanRemoveInst(f, l, i)
  {
    assert s in UseSites(f, DstAt(f.blocks[l], i));
  }

  /** The one value of a collapsible body is read once in each clone, by the joining PHI. */
  lemma ReadOnce(f: Func, body: seq<Instr>, n: nat, k: Label, e: nat, a: Label, j: nat)
    requires ClonePair(f, body, n, k) && Quiet(body) && (e == 1 || e == 2) && a == k + e - 1 && j < |body| && body[j].op.ty != Void
    ensures a in f.blocks && j < Count(f.blocks[a]) && DstAt(f.blocks[a], j) == ArmReg(n, e, j)
    ensures HasOneUse(f, ArmReg(n, e, j)) && !UseEmpty(f, ArmReg(n, e, j)) && CanRemoveInst(f, a, j)
  {
    var r := ArmReg(n, e, j);
    var s := JoinReads(f, body, n, k, e, a, j);
    PhisOf(body, n, k);
    forall t | UsedAt(f, t, r)
      ensures t == s
    {
      OnlyJoin(f, body, n, k, e, j, s, t);
    }
    OneSite(f, r, s);
    CloneBlockAt(f, body, n, k, e, a, j);
    var b := f.blocks[a];
    assert Incoming(f.blocks[k + 2].phis[s.i].incoming, a) == Ref(DstAt(b, j));
    Removable(f, a, j, s, k + 2);
  }

  lemma VoidUnread(f: Func, body: seq<Instr>, n: nat, k: Label, e: nat, j: nat)
    requires ClonesAt(f, body, n, k) && UniqueDefs(f) && RefsDefined(f) && (e == 1 || e == 2) && j < |body| && body[j].op.ty == Void
    ensures UseEmpty(f, ArmReg(n, e, j))
  {
    assert InstrMatch(body, n, j, f.blocks[k].body[j], f.blocks[k + 1].body[j]);
    forall s
      ensures !UsedAt(f, s, ArmReg(n, e, j))
    {
      if UsedAt(f, s, ArmReg(n, e, j)) {
        var l, i: nat :| DefinedAt(f, l, i, ArmReg(n, e, j));
        OneDef(f, l, i, k + e - 1, j);
      }
    }
  }

  lemma PairMerges(f: Func, body: seq<Instr>, n: nat, k: Label, j: nat)
    requires ClonePair(f, body, n, k) && Quiet(body) && UniqueDefs(f) && RefsDefined(f) && j < |body|
    ensures CanMergeInstructions(f, k, j, k + 1, j)
  {
    var x, y := f.blocks[k].body[j], f.blocks[k + 1].body[j];
    assert InstrMatch(body, n, j, x, y);
    SameArgs(body, n, j, x, y);
    if body[j].op.ty == Void {
      VoidUnread(f, body, n, k, 1, j);
      VoidUnread(f, body, n, k, 2, j);
    } else {
      ReadOnce(f, body, n, k, 1, k, j);
      ReadOnce(f, body, n, k, 2, k + 1, j);
    }
  }

  lemma ClonesMatch(f: Func, body: seq<Instr>, n: nat, k: Label)
    requires ClonePair(f, body, n, k) && Quiet(body) && UniqueDefs(f) && RefsDefined(f)
    ensures BodiesMatch(f, k, k + 1)
  {
    forall j | 0 <= j < |body|
      ensures f.blocks[k].body[j].op == f.blocks[k + 1].body[j].op
    {
      assert InstrMatch(body, n, j, f.blocks[k].body[j], f.blocks[k + 1].body[j]);
    }
    SameDebug(f.blocks[k], f.blocks[k + 1], |body|);
    var p := NonDbg(f.blocks[k]);
    forall h | 0 <= h < |p|
      ensures CanMergeInstructions(f, k, p[h], k + 1, p[h])
    {
      PairMerges(f, body, n, k, p[h]);
    }
  }

  lemma JoinPhiEntries(ty: Ty, n: nat, k: Label, j: nat)
    ensures var inc := JoinPhi(ty, n, k, j + 1).incoming; Incoming(inc, k) == Ref(ArmReg(n, 1, j)) && Incoming(inc, k + 1) == Ref(ArmReg(n, 2, j))
  {
    var inc := JoinPhi(ty, n, k, j + 1).incoming;
    assert inc[1..][0] == (k + 1, Ref(ArmReg(n, 2, j)));
  }

  lemma ArmMakesValue(f: Func, body: seq<Instr>, n: nat, k: Label, j: nat)
    requires ClonePair(f, body, n, k) && j < |body| && body[j].op.ty != Void
    ensures DefinedIn(f, k, Ref(ArmReg(n, 1, j))) && DefinedIn(f, k + 1, Ref(ArmReg(n, 2, j)))
  {
    assert InstrMatch(body, n, j, f.blocks[k].body[j], f.blocks[k + 1].body[j]);
    assert DstAt(f.blocks[k], j) == ArmReg(n, 1, j) && DstAt(f.blocks[k + 1], j) == ArmReg(n, 2, j);
  }

  lemma PhiAgrees(f: Func, body: seq<Instr>, n: nat, k: Label)
    requires ClonePair(f, body, n, k) && Quiet(body)
    ensures PhiAllows(f, k, k + 1)
  {
    PhisOf(body, n, k);
    if exists j :: 0 <= j < |body| && body[j].op.ty != Void {
      var j :| 0 <= j < |body| && body[j].op.ty != Void;
      JoinPhiEntries(body[j].op.ty, n, k, j);
      ArmMakesValue(f, body, n, k, j);
    }
  }

  /** The clones of a collapsible body qualify. */
  lemma ClonesMergeable(f: Func, body: seq<Instr>, n: nat, k: Label, dead: set<Label>)
    requires f.order != [] && ClonePair(f, body, n, k) && Quiet(body) && UniqueDefs(f) && RefsDefined(f)
    requires k != f.order[0] && k + 1 != f.order[0] && k + 1 !in dead
    ensures Mergeable(f, dead, k, k + 1)
  {
    ClonesMatch(f, body, n, k);
    PhiAgrees(f, body, n, k);
    PhisOf(body, n, k);
  }

  // ----- Other bodies: no clone is merged into anything -----

  lemma ManyValuesStay(f: Func, body: seq<Instr>, n: nat, k: Label, a: Label)
    requires f.order != [] && ClonePair(f, body, n, k) && !AtMostOneValue(body) && (a == k || a == k + 1)
    ensures !Erasable(f, a)
  {
    var i, j :| 0 <= i < j < |body| && body[i].op.ty != Void && body[j].op.ty != Void;
    ManyPhis(body, n, k, i, j);
  }

  lemma {:induction false} IsNonDbg(b: Block, i: nat) returns (h: nat)
    requires i < Count(b) && !DbgAt(b, i)
    ensures h < |NonDbg(b)| && NonDbg(b)[h] == i
  {
    NonDbgUpToIs(b, Count(b));
    h :| 0 <= h < |NonDbg(b)| && NonDbg(b)[h] == i;
  }

  lemma InnerArg(f: Func, body: seq<Instr>, n: nat, k: Label, e: nat, i: nat, j: nat, t: nat)
    requires ClonesAt(f, body, n, k) && BodyOk(body, n) && (e == 1 || e == 2)
    requires i < j < |body| && body[i].op.ty != Void && t < |body[j].args| && body[j].args[t] == Ref(body[i].dst)
    ensures var x := f.blocks[k + e - 1].body[j]; !x.op.dbg && t < |x.args| && x.args[t] == Ref(ArmReg(n, e, i))
  {
    var x, y := f.blocks[k].body[j], f.blocks[k + 1].body[j];
    assert InstrMatch(body, n, j, x, y) && OperandMatch(body, n, j, body[j].args[t], x.args[t], y.args[t]);
    ArmIs(body, 0, j);
    var h := InnerReg(body, n, e, j, body[j].args[t]);
    assert h == i;
  }

  lemma InnerUse(f: Func, body: seq<Instr>, n: nat, k: Label, e: nat, i: nat, j: nat) returns (u: Site)
    requires ClonesAt(f, body, n, k) && BodyOk(body, n) && (e == 1 || e == 2)
    requires i < j < |body| && body[i].op.ty != Void && ReadsReg(body[j], body[i].dst)
    ensures u.l == k + e - 1 && UsedAt(f, u, ArmReg(n, e, i))
  {
    var t :| 0 <= t < |body[j].args| && body[j].args[t] == Ref(body[i].dst);
    InnerArg(f, body, n, k, e, i, j, t);
    u := Site(k + e - 1, j, t);
  }

  lemma TwoSites(f: Func, r: Reg, s: Site, u: Site)
    requires UsedAt(f, s, r) && UsedAt(f, u, r) && s != u
    ensures !HasOneUse(f, r) && !UseEmpty(f, r)
  {
    assert u in UseSites(f, r) && s in UseSites(f, r);
    TwoElements(UseSites(f, r), u, s);
  }

  /** A value read inside its clone has two uses. */
  lemma ReadTwice(f: Func, body: seq<Instr>, n: nat, k: Label, e: nat, i: nat, j: nat)
    requires ClonePair(f, body, n, k) && (e == 1 || e == 2) && i < j < |body| && body[i].op.ty != Void && ReadsReg(body[j], body[i].dst)
    ensures !HasOneUse(f, ArmReg(n, e, i)) && !UseEmpty(f, ArmReg(n, e, i))
  {
    var u := InnerUse(f, body, n, k, e, i, j);
    var s := JoinReads(f, body, n, k, e, k + e - 1, i);
    TwoSites(f, ArmReg(n, e, i), s, u);
  }

  /** An instruction with more than one use matches nothing. */
  lemma ManyUsesMatchNothing(f: Func, a: Label, i: nat, b: Label)
    requires a in f.blocks && b in f.blocks && i < Count(f.blocks[a]) && !DbgAt(f.blocks[a], i)
    requires !HasOneUse(f, DstAt(f.blocks[a], i)) && !UseEmpty(f, DstAt(f.blocks[a], i))
    ensures !BodiesMatch(f, a, b)
  {
    var h := IsNonDbg(f.blocks[a], i);
    if |NonDbg(f.blocks[a])| == |NonDbg(f.blocks[b])| {
      assert !CanMergeInstructions(f, a, NonDbg(f.blocks[a])[h], b, NonDbg(f.blocks[b])[h]);
    }
  }

  lemma ArmPosition(f: Func, body: seq<Instr>, n: nat, k: Label, e: nat, i: nat)
    requires ClonePair(f, body, n, k) && (e == 1 || e == 2) && i < |body| && body[i].op.ty != Void
    ensures k + e - 1 in f.blocks && i < Count(f.blocks[k + e - 1]) && !DbgAt(f.blocks[k + e - 1], i)
    ensures DstAt(f.blocks[k + e - 1], i) == ArmReg(n, e, i)
  {
    assert InstrMatch(body, n, i, f.blocks[k].body[i], f.blocks[k + 1].body[i]);
  }

  lemma InnerReadStays(f: Func, body: seq<Instr>, n: nat, k: Label, e: nat, i: nat, j: nat, b: Label)
    requires ClonePair(f, body, n, k) && (e == 1 || e == 2) && i < j < |body| && body[i].op.ty != Void && ReadsReg(body[j], body[i].dst)
    requires b in f.blocks
    ensures !BodiesMatch(f, k + e - 1, b)
  {
    ReadTwice(f, body, n, k, e, i, j);
    ArmPosition(f, body, n, k, e, i);
    ManyUsesMatchNothing(f, k + e - 1, i, b);
  }

  /** No clone of another body can be merged, into whatever block. */
  lemma ClonesStay(f: Func, body: seq<Instr>, n: nat, k: Label, dead: set<Label>, a: Label, b: Label)
    requires f.order != [] && ClonePair(f, body, n, k) && !Quiet(body) && (a == k || a == k + 1)
    ensures !Mergeable(f, dead, a, b)
  {
    if !AtMostOneValue(body) {
      ManyValuesStay(f, body, n, k, a);
    } else if b in f.blocks {
      var i, j :| 0 <= i < j < |body| && body[i].op.ty != Void && ReadsReg(body[j], body[i].dst);
      InnerReadStays(f, body, n, k, a - k + 1, i, j, b);
    }
  }

  lemma JoinEntries(ty: Ty, n: nat, k: nat, j: nat, b: Label)
    ensures var inc := JoinPhi(ty, n, k, j + 1).incoming;
      && Incoming(inc, k) == Ref(ArmReg(n, 1, j)) && Incoming(inc, k + 1) == Ref(ArmReg(n, 2, j))
      && (b != k && b != k + 1 ==> Incoming(inc, b) == Const(0))
  {
    var inc := JoinPhi(ty, n, k, j + 1).incoming;
    assert inc[1..][0] == (k + 1, Ref(ArmReg(n, 2, j)));
    if b != k && b != k + 1 {
      IncomingMissing(inc, b);
    }
  }

  /** If there is a value, the joining PHI keeps the clones to themselves. */
  lemma OnlyTheOther(f: Func, body: seq<Instr>, n: nat, k: Label, e: nat, b: Label, j: nat)
    requires ClonesAt(f, body, n, k) && TailOf(f, body, n, k) && AtMostOneValue(body) && (e == 1 || e == 2)
    requires j < |body| && body[j].op.ty != Void && b in f.blocks && PhiAllows(f, k + e - 1, b)
    ensures b == k || b == k + 1
  {
    PhisOf(body, n, k);
    JoinEntries(body[j].op.ty, n, k, j, b);
  }
}
