/** MergeBB after DuplicateBB: which pairs of clones collapse. */
module DuplicateThenMerge {
  import opened IR
  import opened Semantics
  import opened Renaming
  import opened Paths
  import opened RIV
  import opened MergeSpec
  import opened MergeWhole
  import opened DuplicateSpec
  import opened DuplicateSound
  import opened DuplicateShape
  import opened DuplicateRun
  import opened ClonePairs
  import opened CloneMerging

  // ----- The scan meets a pair -----

  lemma RedirectKeepsPair(f: Func, body: seq<Instr>, n: nat, k: Label, a: Label, b: Label)
    requires f.order != [] && ClonePair(f, body, n, k) && Erasable(f, a) && a != b && (a < k || a > k + 2)
    ensures ClonePair(Redirect(f, a, b), body, n, k)
  {
    var g := Redirect(f, a, b);
    assert RedirectTargets([k + 2], a, b) == [k + 2];
    assert ClonesAt(g, body, n, k);
    assert TailOf(g, body, n, k);
    forall m | m in g.blocks && (m < k || m > k + 2)
      ensures BlockAvoids(g.blocks[m], ArmRegs(n, |body|))
    {
      assert BlockAvoids(f.blocks[m], ArmRegs(n, |body|));
    }
    forall m | m in g.blocks && (k in g.blocks[m].term.targets || k + 1 in g.blocks[m].term.targets)
      ensures BranchOrSwitch(g.blocks[m].term.kind)
    {
      RedirectEdges(f, a, b, m, k);
      RedirectEdges(f, a, b, m, k + 1);
    }
  }

  lemma {:induction false} ScanGrows(f: Func, todo: seq<Label>, dead: set<Label>, into: seq<Option<Label>>, g: Func, dead': set<Label>)
    requires f.order != [] && Scanned(f, todo, dead, into, g, dead')
    ensures dead <= dead'
    ensures forall x :: x in dead' ==> x in dead || x in todo
    decreases todo
  {
    if todo != [] {
      assert todo == [todo[0]] + todo[1..];
      match into[0]
      case Some(b) => ScanGrows(Redirect(f, todo[0], b), todo[1..], dead + {todo[0]}, into[1..], g, dead');
      case None => ScanGrows(f, todo[1..], dead, into[1..], g, dead');
    }
  }

  /** The scan over `todo` merged k into b. */
  ghost predicate SentTo(todo: seq<Label>, into: seq<Option<Label>>, k: Label, b: Label)
    requires |into| == |todo|
  {
    forall i :: 0 <= i < |todo| && todo[i] == k ==> into[i] == Some(b)
  }

  /** What the scan does with a pair: the first clone is erased exactly when the body is collapsible,
      and merged into the second one if there is a value; the second one is erased only if the body
      is collapsible and has no value. */
  ghost predicate PairFate(body: seq<Instr>, k: Label, todo: seq<Label>, into: seq<Option<Label>>, dead: set<Label>)
    requires |into| == |todo|
  {
    && (k in dead <==> Collapsible(body))
    && (k + 1 in dead ==> Collapsible(body) && ValueCount(body) == 0)
    && (Collapsible(body) && ValueCount(body) > 0 ==> SentTo(todo, into, k, k + 1))
  }

  lemma FateOf(body: seq<Instr>, k: Label, todo: seq<Label>, into: seq<Option<Label>>, dead: set<Label>)
    requires |into| == |todo|
    requires (k in dead <==> Quiet(body)) && (k + 1 in dead ==> Quiet(body) && AllVoid(body))
    requires Quiet(body) && !AllVoid(body) ==> SentTo(todo, into, k, k + 1)
    ensures PairFate(body, k, todo, into, dead)
  {
    CollapsibleIs(body);
    NoValues(body);
  }

  lemma FateTail(body: seq<Instr>, k: Label, todo: seq<Label>, into: seq<Option<Label>>, dead: set<Label>)
    requires |into| == |todo| > 0 && todo[0] != k && PairFate(body, k, todo[1..], into[1..], dead)
    ensures PairFate(body, k, todo, into, dead)
  {
    forall i | 0 <= i < |todo| && todo[i] == k && SentTo(todo[1..], into[1..], k, k + 1)
      ensures into[i] == Some(k + 1)
    {
      assert todo[1..][i - 1] == k;
    }
  }

  ghost predicate PairState(f: Func, body: seq<Instr>, n: nat, k: Label) {
    && f.order != [] && UniqueDefs(f) && RefsDefined(f) && ClonePair(f, body, n, k)
    && k != f.order[0] && k + 1 != f.order[0]
  }

  lemma RedirectKeepsState(f: Func, body: seq<Instr>, n: nat, k: Label, a: Label, b: Label)
    requires PairState(f, body, n, k) && Erasable(f, a) && a != b && (a < k || a > k + 2)
    ensures PairState(Redirect(f, a, b), body, n, k)
  {
    RedirectKeepsPair(f, body, n, k, a, b);
    RedirectDefs(f, a, b);
  }

  /** A block that qualifies for nothing is passed over. */
  lemma PassOver(f: Func, a: Label, rest: seq<Label>, dead: set<Label>, into: seq<Option<Label>>, g: Func, dead': set<Label>)
    returns (into': seq<Option<Label>>)
    requires f.order != [] && Scanned(f, [a] + rest, dead, into, g, dead') && forall b :: !Mergeable(f, dead, a, b)
    ensures Scanned(f, rest, dead, into', g, dead')
  {
    assert ([a] + rest)[1..] == rest;
    into' := into[1..];
  }

  /** The scan leaves a body that is not collapsible alone. */
  lemma NeitherMerges(f: Func, body: seq<Instr>, n: nat, k: Label, post: seq<Label>, dead: set<Label>, into: seq<Option<Label>>, g: Func, dead': set<Label>)
    requires f.order != [] && ClonePair(f, body, n, k) && !Quiet(body) && Scanned(f, [k] + ([k + 1] + post), dead, into, g, dead')
    requires k !in dead && k + 1 !in dead && k !in post && k + 1 !in post
    ensures k !in dead' && k + 1 !in dead'
  {
    var a: Label := k + 1;
    forall b
      ensures !Mergeable(f, dead, k, b)
    {
      ClonesStay(f, body, n, k, dead, k, b);
    }
    forall b
      ensures !Mergeable(f, dead, a, b)
    {
      ClonesStay(f, body, n, k, dead, a, b);
    }
    var into' := PassOver(f, k, [a] + post, dead, into, g, dead');
    into' := PassOver(f, a, post, dead, into', g, dead');
    ScanGrows(f, post, dead, into', g, dead');
  }

  /** If there is a value, once k was merged into k + 1 that clone stays. */
  lemma SecondStays(f: Func, body: seq<Instr>, n: nat, k: Label, post: seq<Label>, dead: set<Label>, into: seq<Option<Label>>, g: Func, dead': set<Label>, j: nat)
    requires f.order != [] && ClonesAt(f, body, n, k) && TailOf(f, body, n, k) && AtMostOneValue(body)
    requires j < |body| && body[j].op.ty != Void
    requires Scanned(f, [k + 1] + post, dead, into, g, dead') && k in dead && k + 1 !in dead && k + 1 !in post
    ensures k + 1 !in dead'
  {
    var todo := [k + 1] + post;
    assert todo[1..] == post;
    if into[0].Some? {
      OnlyTheOther(f, body, n, k, 2, into[0].value, j);
      assert false;
    } else {
      ScanGrows(f, post, dead, into[1..], g, dead');
    }
  }

  lemma RedirectKeepsClones(f: Func, body: seq<Instr>, n: nat, k: Label, a: Label, b: Label)
    requires ClonesAt(f, body, n, k) && TailOf(f, body, n, k) && a != k + 2
    ensures ClonesAt(Redirect(f, a, b), body, n, k) && TailOf(Redirect(f, a, b), body, n, k)
  {
    assert RedirectTargets([k + 2], a, b) == [k + 2];
  }

  /** If there is a value, it keeps the first clone to the second one. */
  lemma SentToSecond(f: Func, body: seq<Instr>, n: nat, k: Label, rest: seq<Label>, b: Label, into: seq<Option<Label>>)
    requires ClonesAt(f, body, n, k) && TailOf(f, body, n, k) && AtMostOneValue(body) && !AllVoid(body)
    requires b in f.blocks && b != k && PhiAllows(f, k, b) && k !in rest && |into| == |rest|
    ensures SentTo([k] + rest, [Some(b)] + into, k, k + 1)
  {
    var j :| 0 <= j < |body| && body[j].op.ty != Void;
    OnlyTheOther(f, body, n, k, 1, b, j);
    forall i | 0 <= i < |rest|
      ensures rest[i] != k
    {
      assert rest[i] in rest;
    }
  }

  /** The first clone of a collapsible body is merged; if there is a value, the second one stays. */
  lemma SecondKept(f: Func, body: seq<Instr>, n: nat, k: Label, post: seq<Label>, b: Label, dead: set<Label>, into: seq<Option<Label>>, g: Func, dead': set<Label>)
    requires f.order != [] && ClonesAt(f, body, n, k) && TailOf(f, body, n, k) && AtMostOneValue(body)
    requires b != k && Scanned(Redirect(f, k, b), [k + 1] + post, dead, into, g, dead')
    requires k in dead && k + 1 !in dead && k + 1 !in post && !AllVoid(body)
    ensures k + 1 !in dead'
  {
    var j :| 0 <= j < |body| && body[j].op.ty != Void;
    RedirectKeepsClones(f, body, n, k, k, b);
    SecondStays(Redirect(f, k, b), body, n, k, post, dead, into, g, dead', j);
  }

  lemma FirstMerges(f: Func, body: seq<Instr>, n: nat, k: Label, post: seq<Label>, dead: set<Label>, into: seq<Option<Label>>, g: Func, dead': set<Label>)
    requires PairState(f, body, n, k) && Quiet(body) && Scanned(f, [k] + ([k + 1] + post), dead, into, g, dead')
    requires k !in dead && k + 1 !in dead && k !in post && k + 1 !in post
    ensures PairFate(body, k, [k] + ([k + 1] + post), into, dead')
  {
    var rest := [k + 1] + post;
    var todo := [k] + rest;
    assert todo[0] == k && todo[1..] == rest;
    ClonesMergeable(f, body, n, k, dead);
    assert into[0].Some?;
    var b := into[0].value;
    ScanGrows(Redirect(f, k, b), rest, dead + {k}, into[1..], g, dead');
    if !AllVoid(body) {
      SecondKept(f, body, n, k, post, b, dead + {k}, into[1..], g, dead');
      SentToSecond(f, body, n, k, rest, b, into[1..]);
      assert into == [Some(b)] + into[1..];
    }
    FateOf(body, k, todo, into, dead');
  }

  lemma PairMet(f: Func, body: seq<Instr>, n: nat, k: Label, post: seq<Label>, dead: set<Label>, into: seq<Option<Label>>, g: Func, dead': set<Label>)
    requires PairState(f, body, n, k) && Scanned(f, [k] + ([k + 1] + post), dead, into, g, dead')
    requires k !in dead && k + 1 !in dead && k !in post && k + 1 !in post
    ensures PairFate(body, k, [k] + ([k + 1] + post), into, dead')
  {
    if Quiet(body) {
      FirstMerges(f, body, n, k, post, dead, into, g, dead');
    } else {
      NeitherMerges(f, body, n, k, post, dead, into, g, dead');
      FateOf(body, k, [k] + ([k + 1] + post), into, dead');
    }
  }

  ghost predicate Elsewhere(ls: seq<Label>, k: Label) { forall i :: 0 <= i < |ls| ==> ls[i] < k || ls[i] > k + 2 }

  /** The blocks before the pair in the layout leave it as it is. */
  lemma {:induction false} ScanMeetsPair(f: Func, pre: seq<Label>, body: seq<Instr>, n: nat, k: Label, post: seq<Label>, todo: seq<Label>,
                                         dead: set<Label>, into: seq<Option<Label>>, g: Func, dead': set<Label>)
    requires PairState(f, body, n, k) && todo == pre + ([k] + ([k + 1] + post)) && Scanned(f, todo, dead, into, g, dead')
    requires Elsewhere(pre, k) && k !in dead && k + 1 !in dead && k !in post && k + 1 !in post
    ensures PairFate(body, k, todo, into, dead')
    decreases pre
  {
    if pre == [] {
      assert todo == [k] + ([k + 1] + post);
      PairMet(f, body, n, k, post, dead, into, g, dead');
    } else {
      var a := pre[0];
      assert todo[0] == a && todo[1..] == pre[1..] + ([k] + ([k + 1] + post));
      match into[0]
      case Some(b) =>
        RedirectKeepsState(f, body, n, k, a, b);
        ScanMeetsPair(Redirect(f, a, b), pre[1..], body, n, k, post, todo[1..], dead + {a}, into[1..], g, dead');
      case None =>
        ScanMeetsPair(f, pre[1..], body, n, k, post, todo[1..], dead, into[1..], g, dead');
      FateTail(body, k, todo, into, dead');
    }
  }

  // ----- The pairs that DuplicateBB makes -----

  /** k, k + 1 and k + 2 stand next to each other in the layout. */
  ghost predicate Adjacent(order: seq<Label>, k: Label) {
    exists pre, post :: AdjacentAt(order, k, pre, post)
  }

  ghost predicate AdjacentAt(order: seq<Label>, k: Label, pre: seq<Label>, post: seq<Label>) {
    order == pre + ([k, k + 1] + ([k + 2] + post))
  }

  lemma {:induction false} InsertAppend(a: seq<Label>, b: seq<Label>, l: Label, new': seq<Label>)
    ensures InsertAfter(a + b, l, new') == if l in a then InsertAfter(a, l, new') + b else a + InsertAfter(b, l, new')
    decreases a
  {
    if a == [] {
      assert a + b == b;
    } else {
      var rest := a[1..];
      assert (a + b)[0] == a[0] && (a + b)[1..] == rest + b;
      if a[0] == l {
        assert ([l] + new' + rest) + b == [l] + new' + (rest + b);
      } else {
        InsertAppend(rest, b, l, new');
        assert a == [a[0]] + rest;
      }
    }
  }

  lemma AdjacentBy(order: seq<Label>, k: Label, pre: seq<Label>, t: seq<Label>, post: seq<Label>)
    requires t == [k, k + 1, k + 2] && order == pre + (t + post)
    ensures Adjacent(order, k)
  {
    assert t + post == [k, k + 1] + ([k + 2] + post);
    assert AdjacentAt(order, k, pre, post);
  }

  lemma InsertKeepsAdjacent(order: seq<Label>, k: Label, l: Label, new': seq<Label>, t: seq<Label>)
    requires Adjacent(order, k) && (l < k || l > k + 2) && t == [k, k + 1, k + 2]
    ensures Adjacent(InsertAfter(order, l, new'), k)
  {
    var pre, post :| AdjacentAt(order, k, pre, post);
    assert [k, k + 1] + ([k + 2] + post) == t + post;
    InsertAppend(pre, t + post, l, new');
    InsertAppend(t, post, l, new');
    if l in pre {
      AdjacentBy(InsertAfter(order, l, new'), k, InsertAfter(pre, l, new'), t, post);
    } else {
      AdjacentBy(InsertAfter(order, l, new'), k, pre, t, InsertAfter(post, l, new'));
    }
  }

  lemma {:induction false} InsertMakesAdjacent(order: seq<Label>, k: Label, l: Label)
    requires l in order
    ensures Adjacent(InsertAfter(order, l, [k, k + 1, k + 2]), k)
    decreases order
  {
    var t: seq<Label> := [k, k + 1, k + 2];
    if order[0] == l {
      assert AdjacentAt(InsertAfter(order, l, t), k, [l], order[1..]);
    } else {
      InsertMakesAdjacent(order[1..], k, l);
      var pre, post :| AdjacentAt(InsertAfter(order[1..], l, t), k, pre, post);
      assert AdjacentAt(InsertAfter(order, l, t), k, [order[0]] + pre, post);
    }
  }

  lemma AdjacentLater(f: Func, l: Label, ctx: Operand, n': nat, k': Label, k: Label)
    requires l in f.blocks && Adjacent(f.order, k) && (l < k || l > k + 2)
    ensures Adjacent(Clone(f, l, ctx, n', k').order, k)
  {
    InsertKeepsAdjacent(f.order, k, l, [k', k' + 1, k' + 2], [k, k + 1, k + 2]);
  }

  lemma AdjacentMade(f: Func, l: Label, ctx: Operand, n: nat, k: Label)
    requires l in f.blocks && l in f.order
    ensures Adjacent(Clone(f, l, ctx, n, k).order, k)
  {
    InsertMakesAdjacent(f.order, k, l);
  }

  /** A pair in a run that goes on. */
  ghost predicate PairPoint(s: State, body: seq<Instr>, n: nat, k: Label) {
    && ClonePair(s.f, body, n, k) && Adjacent(s.f.order, k)
    && n + 3 * |body| < s.n && k + 2 < s.k && RemapOutside(s.remap, ArmRegs(n, |body|))
  }

  ghost predicate RemapOutside(m: map<Reg, Reg>, d: set<Reg>) { forall q :: q in m ==> m[q] !in d }

  ghost predicate RemapBelow(m: map<Reg, Reg>, n: nat) { forall q :: q in m ==> m[q] < n }

  lemma FirstPending(s: State, n0: nat, ts: Targets, heads: set<Label>)
    requires RunPoint(s, n0, ts, heads) && ts != []
    ensures Ready(s.f, s.n, s.k) && n0 <= s.n && ts[0].0 in s.f.blocks && (ts[0].1.Ref? ==> ts[0].1.r < n0)
    ensures SubOp(s.remap, ts[0].1).Ref? ==> SubOp(s.remap, ts[0].1).r < s.n
  {
    KnownBelow(s.f, SubOp(s.remap, ts[0].1), s.n, s.k);
  }

  lemma RhoRange(f: Func, l: Label, n: nat)
    requires l in f.blocks
    ensures forall q :: q in Rho(f, l, n) ==> n < Rho(f, l, n)[q] < NextReg(f, l, n)
  {
    forall q | q in Rho(f, l, n)
      ensures n < Rho(f, l, n)[q] < NextReg(f, l, n)
    {
      var j := ArmKey(f.blocks[l].body, n + 3, |f.blocks[l].body|, q);
    }
  }

  lemma RemapAdvances(m: map<Reg, Reg>, f: Func, l: Label, n: nat, d: set<Reg>)
    requires l in f.blocks && RemapBelow(m, n) && RemapOutside(m, d) && forall r :: r in d ==> r < n
    ensures RemapBelow(m + Rho(f, l, n), NextReg(f, l, n)) && RemapOutside(m + Rho(f, l, n), d)
  {
    RhoRange(f, l, n);
  }

  lemma RemapStarts(m: map<Reg, Reg>, f: Func, l: Label, n: nat)
    requires l in f.blocks && RemapBelow(m, n)
    ensures RemapOutside(m + Rho(f, l, n), ArmRegs(n, |f.blocks[l].body|))
  {
    RhoOutside(f.blocks[l].body, n);
  }

  lemma PairPointOf(s: State, body: seq<Instr>, n: nat, k: Label)
    requires ClonePair(s.f, body, n, k) && Adjacent(s.f.order, k)
    requires n + 3 * |body| < s.n && k + 2 < s.k && RemapOutside(s.remap, ArmRegs(n, |body|))
    ensures PairPoint(s, body, n, k)
  {
  }

  /** One more call of cloneBB, on values. */
  lemma PairNext(s: State, l: Label, v: Operand, body: seq<Instr>, n: nat, k: Label)
    requires Ready(s.f, s.n, s.k) && l in s.f.blocks && l < k && PairPoint(s, body, n, k) && RemapBelow(s.remap, s.n)
    requires (v.Ref? ==> v.r <= n) && (SubOp(s.remap, v).Ref? ==> SubOp(s.remap, v).r < s.n)
    ensures PairPoint(CloneOne(s, l, v), body, n, k)
  {
    var ctx, s' := SubOp(s.remap, v), CloneOne(s, l, v);
    LaterKeepsPair(s.f, body, n, k, l, ctx, s.n, s.k);
    AdjacentLater(s.f, l, ctx, s.n, s.k, k);
    RemapAdvances(s.remap, s.f, l, s.n, ArmRegs(n, |body|));
    PairPointOf(s', body, n, k);
  }

  lemma PairStarts(s: State, l: Label, v: Operand)
    requires Ready(s.f, s.n, s.k) && l in s.f.blocks && RemapBelow(s.remap, s.n)
    requires SubOp(s.remap, v).Ref? ==> SubOp(s.remap, v).r < s.n
    ensures PairPoint(CloneOne(s, l, v), s.f.blocks[l].body, s.n, s.k)
  {
    var body := s.f.blocks[l].body;
    CloneMakesPair(s.f, l, SubOp(s.remap, v), s.n, s.k);
    AdjacentMade(s.f, l, SubOp(s.remap, v), s.n, s.k);
    RemapStarts(s.remap, s.f, l, s.n);
    PairPointOf(CloneOne(s, l, v), body, s.n, s.k);
  }

  // ----- The whole run of DuplicateBB -----

  lemma RemapNext(s: State, l: Label, v: Operand)
    requires l in s.f.blocks && RemapBelow(s.remap, s.n)
    ensures RemapBelow(CloneOne(s, l, v).remap, CloneOne(s, l, v).n)
  {
    RemapAdvances(s.remap, s.f, l, s.n, {});
  }

  /** The targets still to come have labels under k and values under n + 1. */
  ghost predicate TargetsUnder(ts: Targets, n: nat, k: Label) {
    forall i :: 0 <= i < |ts| ==> ts[i].0 < k && (ts[i].1.Ref? ==> ts[i].1.r <= n)
  }

  /** What holds before every call of cloneBB. */
  ghost predicate RunGoesOn(s: State, n0: nat, ts: Targets, heads: set<Label>) {
    RunPoint(s, n0, ts, heads) && TargetsOk(s, ts) && TargetLabels(ts) !! heads && RemapBelow(s.remap, s.n)
  }

  lemma GoesOn(s: State, n0: nat, ts: Targets, heads: set<Label>, s': State)
    requires RunGoesOn(s, n0, ts, heads) && ts != [] && s' == CloneOne(s, ts[0].0, ts[0].1)
    ensures RunGoesOn(s', n0, ts[1..], heads + {ts[0].0}) && CloneAll(s', ts[1..]) == CloneAll(s, ts)
  {
    RemapNext(s, ts[0].0, ts[0].1);
    TailFacts(ts, heads);
    TargetsOkTail(s, ts);
    RunAdvances(s, n0, ts, heads);
  }

  lemma UnderTail(ts: Targets, n: nat, k: Label)
    requires TargetsUnder(ts, n, k) && ts != []
    ensures TargetsUnder(ts[1..], n, k)
  {
    assert forall i :: 0 <= i < |ts[1..]| ==> ts[1..][i] == ts[i + 1];
  }

  lemma PairGoesOn(s: State, n0: nat, ts: Targets, heads: set<Label>, body: seq<Instr>, n: nat, k: Label) returns (s': State)
    requires RunGoesOn(s, n0, ts, heads) && ts != [] && PairPoint(s, body, n, k) && TargetsUnder(ts, n, k)
    ensures RunGoesOn(s', n0, ts[1..], heads + {ts[0].0}) && CloneAll(s', ts[1..]) == CloneAll(s, ts)
    ensures PairPoint(s', body, n, k)
  {
    s' := CloneOne(s, ts[0].0, ts[0].1);
    FirstPending(s, n0, ts, heads);
    PairNext(s, ts[0].0, ts[0].1, body, n, k);
    GoesOn(s, n0, ts, heads, s');
  }

  lemma {:induction false} PairSurvives(s: State, n0: nat, ts: Targets, heads: set<Label>, body: seq<Instr>, n: nat, k: Label)
    requires RunGoesOn(s, n0, ts, heads) && PairPoint(s, body, n, k) && TargetsUnder(ts, n, k)
    ensures ClonePair(CloneAll(s, ts).f, body, n, k) && Adjacent(CloneAll(s, ts).f.order, k)
    decreases ts
  {
    if ts != [] {
      UnderTail(ts, n, k);
      var s' := PairGoesOn(s, n0, ts, heads, body, n, k);
      PairSurvives(s', n0, ts[1..], heads + {ts[0].0}, body, n, k);
    }
  }

  // ----- The body as it was before the run -----

  /** The same operations and registers, with operands renamed outside the body's own registers. */
  ghost predicate SameBody(b: seq<Instr>, c: seq<Instr>) {
    |b| == |c| && forall i :: 0 <= i < |b| ==> SameInstr(b, b[i], c[i])
  }

  ghost predicate SameInstr(b: seq<Instr>, x: Instr, y: Instr) {
    x.dst == y.dst && x.op == y.op && forall j :: 0 <= j < |b| ==> (ReadsReg(x, b[j].dst) <==> ReadsReg(y, b[j].dst))
  }

  lemma {:induction false} SameValues(b: seq<Instr>, c: seq<Instr>)
    requires |b| == |c| && forall i :: 0 <= i < |b| ==> b[i].op == c[i].op
    ensures ValueCount(b) == ValueCount(c)
    decreases |b|
  {
    if b != [] {
      SameValues(b[..|b| - 1], c[..|c| - 1]);
    }
  }

  lemma SameCollapsible(b: seq<Instr>, c: seq<Instr>)
    requires SameBody(b, c)
    ensures Collapsible(b) == Collapsible(c) && ValueCount(b) == ValueCount(c)
  {
    CollapsibleIs(b);
    CollapsibleIs(c);
    forall i, j | 0 <= i < |b| && 0 <= j < |b|
      ensures ReadsReg(b[j], b[i].dst) <==> ReadsReg(c[j], c[i].dst)
      ensures b[i].op == c[i].op
    {
      assert SameInstr(b, b[i], c[i]) && SameInstr(b, b[j], c[j]);
    }
    SameValues(b, c);
  }

  lemma SubReads(m: map<Reg, Reg>, x: Instr, r: Reg)
    requires r !in m && forall q :: q in m ==> m[q] != r
    ensures ReadsReg(SubInstr(m, x), r) <==> ReadsReg(x, r)
  {
    var xs, ys := x.args, SubOps(m, x.args);
    if Ref(r) in xs {
      var k :| 0 <= k < |xs| && xs[k] == Ref(r);
      assert ys[k] == Ref(r);
    }
    if Ref(r) in ys {
      var k :| 0 <= k < |ys| && ys[k] == Ref(r);
      assert xs[k] in xs;
    }
  }

  lemma BodyRenamed(s: State, l: Label, v: Operand, m: Label)
    requires Ready(s.f, s.n, s.k) && l in s.f.blocks && m in s.f.blocks && m != l
    ensures m in CloneOne(s, l, v).f.blocks && SameBody(s.f.blocks[m].body, CloneOne(s, l, v).f.blocks[m].body)
  {
    assert LabelsBelow(s.f, s.k);
    CloneHas(s.f, l, SubOp(s.remap, v), s.n, s.k, m);
    RhoIs(s.f, l, s.n, s.k);
    RhoRange(s.f, l, s.n);
    var b, rho := s.f.blocks[m].body, Rho(s.f, l, s.n);
    assert BlockReady(s.f, s.f.blocks[m], s.n);
    forall i, j | 0 <= i < |b| && 0 <= j < |b|
      ensures ReadsReg(SubInstr(rho, b[i]), b[j].dst) <==> ReadsReg(b[i], b[j].dst)
    {
      SubReads(rho, b[i], b[j].dst);
    }
  }

  /** The first target is cloned. */
  lemma FirstCloned(s: State, n0: nat, ts: Targets, heads: set<Label>) returns (s': State)
    requires RunGoesOn(s, n0, ts, heads) && ts != []
    ensures RunGoesOn(s', n0, ts[1..], heads + {ts[0].0}) && CloneAll(s', ts[1..]) == CloneAll(s, ts)
    ensures s'.k == s.k + 3 && s.n <= s'.n && PairPoint(s', s.f.blocks[ts[0].0].body, s.n, s.k)
    ensures forall j :: 0 < j < |ts| ==> ts[j].0 in s'.f.blocks && SameBody(s.f.blocks[ts[j].0].body, s'.f.blocks[ts[j].0].body)
  {
    s' := CloneOne(s, ts[0].0, ts[0].1);
    FirstPending(s, n0, ts, heads);
    PairStarts(s, ts[0].0, ts[0].1);
    GoesOn(s, n0, ts, heads, s');
    forall j | 0 < j < |ts|
      ensures ts[j].0 in s'.f.blocks && SameBody(s.f.blocks[ts[j].0].body, s'.f.blocks[ts[j].0].body)
    {
      BodyRenamed(s, ts[0].0, ts[0].1, ts[j].0);
    }
  }

  lemma SameBodyTrans(a: seq<Instr>, b: seq<Instr>, c: seq<Instr>)
    requires SameBody(a, b) && SameBody(b, c)
    ensures SameBody(a, c)
  {
    forall i | 0 <= i < |a|
      ensures SameInstr(a, a[i], c[i])
    {
      assert SameInstr(a, a[i], b[i]) && SameInstr(b, b[i], c[i]);
      forall j | 0 <= j < |a|
        ensures ReadsReg(a[i], a[j].dst) <==> ReadsReg(c[i], a[j].dst)
      {
        assert SameInstr(a, a[j], b[j]);
      }
    }
  }

  lemma UnderMore(ts: Targets, n: nat, k: Label, n': nat, k': Label)
    requires TargetsUnder(ts, n, k) && n <= n' && k <= k'
    ensures TargetsUnder(ts, n', k')
  {
  }

  /** The run after its first target, seen from target i. */
  lemma AfterFirst(s: State, n0: nat, ts: Targets, heads: set<Label>, i: nat) returns (s': State)
    requires RunGoesOn(s, n0, ts, heads) && 0 < i < |ts| && TargetsUnder(ts, s.n, s.k)
    ensures RunGoesOn(s', n0, ts[1..], heads + {ts[0].0}) && CloneAll(s', ts[1..]) == CloneAll(s, ts)
    ensures s'.k == s.k + 3 && TargetsUnder(ts[1..], s'.n, s'.k)
    ensures ts[i].0 in s'.f.blocks && ts[i].0 in s.f.blocks && SameBody(s.f.blocks[ts[i].0].body, s'.f.blocks[ts[i].0].body)
  {
    s' := FirstCloned(s, n0, ts, heads);
    UnderTail(ts, s.n, s.k);
    UnderMore(ts[1..], s.n, s.k, s'.n, s'.k);
  }

  lemma SameBodySelf(b: seq<Instr>)
    ensures SameBody(b, b)
  {
  }

  /** The run before target i, with label l, is cloned: its body is b but for renamed operands, its
      clones will be k and k + 1, and the run ends in `end`. */
  ghost predicate ReachPoint(s: State, n0: nat, ts: Targets, heads: set<Label>, i: nat, l: Label, k: Label, b: seq<Instr>, end: State) {
    && RunGoesOn(s, n0, ts, heads) && i < |ts| && TargetsUnder(ts, s.n, s.k)
    && l == ts[i].0 && k == s.k + 3 * i && l in s.f.blocks && SameBody(b, s.f.blocks[l].body)
    && CloneAll(s, ts) == end
  }

  lemma ReachNext(s: State, n0: nat, ts: Targets, heads: set<Label>, i: nat, l: Label, k: Label, b: seq<Instr>, end: State)
    returns (s': State, us: Targets, heads': set<Label>)
    requires ReachPoint(s, n0, ts, heads, i, l, k, b, end) && i > 0
    ensures ReachPoint(s', n0, us, heads', i - 1, l, k, b, end)
  {
    s' := AfterFirst(s, n0, ts, heads, i);
    us, heads' := ts[1..], heads + {ts[0].0};
    assert ts[1..][i - 1] == ts[i];
    SameBodyTrans(b, s.f.blocks[l].body, s'.f.blocks[l].body);
  }

  /** The run when target i is next. */
  lemma {:induction false} ReachTarget(s: State, n0: nat, ts: Targets, heads: set<Label>, i: nat, l: Label, k: Label, b: seq<Instr>, end: State)
    returns (s': State, us: Targets, heads': set<Label>)
    requires ReachPoint(s, n0, ts, heads, i, l, k, b, end)
    ensures ReachPoint(s', n0, us, heads', 0, l, k, b, end)
    decreases i
  {
    s', us, heads' := s, ts, heads;
    if i > 0 {
      s', us, heads' := ReachNext(s, n0, ts, heads, i, l, k, b, end);
      s', us, heads' := ReachTarget(s', n0, us, heads', i - 1, l, k, b, end);
    }
  }

  // ----- Both passes -----

  lemma AdjacentSplit(g: Func, k: Label) returns (pre: seq<Label>, post: seq<Label>)
    requires Shape(g) && Adjacent(g.order, k)
    ensures g.order == pre + ([k] + ([k + 1] + post)) && Elsewhere(pre, k)
    ensures k !in post && k + 1 !in post
  {
    var rest;
    pre, rest :| AdjacentAt(g.order, k, pre, rest);
    post := [k + 2] + rest;
    var p := |pre|;
    assert g.order[p] == k && g.order[p + 1] == k + 1 && g.order[p + 2] == k + 2;
    forall i | 0 <= i < p
      ensures pre[i] < k || pre[i] > k + 2
    {
      assert g.order[i] == pre[i];
    }
    forall i | 0 <= i < |post|
      ensures post[i] != k && post[i] != k + 1
    {
      assert g.order[p + 2 + i] == post[i];
    }
    assert [k, k + 1] + post == [k] + ([k + 1] + post);
  }

  /** What a whole run of MergeBB does with a pair. */
  lemma MergeMeetsPair(g: Func, body: seq<Instr>, n: nat, k: Label, into: seq<Option<Label>>, dead: set<Label>, ds: seq<Label>, h: Func)
    requires WellFormed(g) && ClonePair(g, body, n, k) && Adjacent(g.order, k) && g.order[0] != k && g.order[0] != k + 1
    requires MergeRun(g, into, dead, ds, h)
    ensures |into| == |g.order| && PairFate(body, k, g.order, into, dead)
  {
    var g' :| Scanned(g, g.order, {}, into, g', dead) && Deleted(g', ds, h);
    var pre, post := AdjacentSplit(g, k);
    ScanMeetsPair(g, pre, body, n, k, post, g.order, {}, into, g', dead);
  }

  lemma EntryStays(s: State, n0: nat, ts: Targets, heads: set<Label>, k: Label)
    requires RunGoesOn(s, n0, ts, heads) && s.f.order[0] < k
    ensures CloneAll(s, ts).f.order != [] && CloneAll(s, ts).f.order[0] < k
    decreases ts
  {
    if ts != [] {
      CloneOrder(s.f, ts[0].0, SubOp(s.remap, ts[0].1), s.n, s.k);
      var s' := CloneOne(s, ts[0].0, ts[0].1);
      GoesOn(s, n0, ts, heads, s');
      EntryStays(s', n0, ts[1..], heads + {ts[0].0}, k);
    }
  }

  lemma RunBegins(f: Func, n: nat, k: nat, t: Tree, init: Values, ts: Targets)
    requires WellFormed(f) && Ready(f, n, k) && DominatorTree(f, t) && NoRefs(init) && Chosen(Below(f, t, init), ts)
    ensures RunGoesOn(State(f, map[], n, k), n, ts, {}) && TargetsUnder(ts, n, k) && f.order[0] < k
  {
    var s := State(f, map[], n, k);
    RunStarts(f, n, k, t, init, ts);
    assert AllPending(s, n, ts) && LabelsBelow(f, k) && f.order[0] in f.order;
    forall i | 0 <= i < |ts|
      ensures ts[i].0 < k && (ts[i].1.Ref? ==> ts[i].1.r <= n)
    {
      assert PendingOk(s, n, ts[i].0, ts[i].1);
    }
  }

  lemma AfterIsWellFormed(s: State, n: nat, ts: Targets)
    requires RunGoesOn(s, n, ts, {})
    ensures WellFormed(CloneAll(s, ts).f)
  {
    var w := World((o, vs, m) => Ok(0, m), a => 0, g => 0, []);
    CloneAllPoint(w, s, n, ts, {});
  }

  /** From the moment a target is next, to the end of both runs. */
  lemma TargetMeetsMerge(s: State, n0: nat, ts: Targets, heads: set<Label>, g: Func, k: Label, into: seq<Option<Label>>, dead: set<Label>, ds: seq<Label>, h: Func)
    requires RunGoesOn(s, n0, ts, heads) && ts != [] && TargetsUnder(ts, s.n, s.k) && g == CloneAll(s, ts).f && k == s.k
    requires WellFormed(g) && g.order[0] < k && MergeRun(g, into, dead, ds, h)
    ensures |into| == |g.order| && PairFate(s.f.blocks[ts[0].0].body, k, g.order, into, dead)
  {
    var s' := FirstCloned(s, n0, ts, heads);
    var body := s.f.blocks[ts[0].0].body;
    UnderTail(ts, s.n, s.k);
    PairSurvives(s', n0, ts[1..], heads + {ts[0].0}, body, s.n, k);
    MergeMeetsPair(g, body, s.n, k, into, dead, ds, h);
  }

  lemma FateLike(b: seq<Instr>, c: seq<Instr>, k: Label, todo: seq<Label>, into: seq<Option<Label>>, dead: set<Label>)
    requires |into| == |todo| && SameBody(b, c) && PairFate(c, k, todo, into, dead)
    ensures PairFate(b, k, todo, into, dead)
  {
    SameCollapsible(b, c);
  }

  lemma RunMeetsMerge(f: Func, n: nat, k: nat, ts: Targets, i: nat, b: seq<Instr>, g: Func, c: Label,
                      into: seq<Option<Label>>, dead: set<Label>, ds: seq<Label>, h: Func)
    requires RunGoesOn(State(f, map[], n, k), n, ts, {}) && TargetsUnder(ts, n, k) && i < |ts| && c == k + 3 * i
    requires ts[i].0 in f.blocks && b == f.blocks[ts[i].0].body
    requires g == CloneAll(State(f, map[], n, k), ts).f && WellFormed(g) && g.order[0] < k && MergeRun(g, into, dead, ds, h)
    ensures |into| == |g.order| && PairFate(b, c, g.order, into, dead)
  {
    var s := State(f, map[], n, k);
    SameBodySelf(b);
    var s', us, heads := ReachTarget(s, n, ts, {}, i, ts[i].0, c, b, CloneAll(s, ts));
    TargetMeetsMerge(s', n, us, heads, g, c, into, dead, ds, h);
    FateLike(b, s'.f.blocks[ts[i].0].body, c, g.order, into, dead);
  }

  lemma BothRunsBegin(f: Func, n: nat, k: nat, t: Tree, init: Values, ts: Targets, g: Func)
    requires WellFormed(f) && Ready(f, n, k) && DominatorTree(f, t) && NoRefs(init) && Chosen(Below(f, t, init), ts)
    requires TargetsOk(State(f, map[], n, k), ts) && g == CloneAll(State(f, map[], n, k), ts).f
    ensures RunGoesOn(State(f, map[], n, k), n, ts, {}) && TargetsUnder(ts, n, k)
    ensures WellFormed(g) && g.order[0] < k && forall i :: 0 <= i < |ts| ==> ts[i].0 in f.blocks
  {
    var s := State(f, map[], n, k);
    RunBegins(f, n, k, t, init, ts);
    EntryStays(s, n, ts, {}, k);
    AfterIsWellFormed(s, n, ts);
  }

  /** MergeBB after DuplicateBB: target i's first clone is merged away exactly when the original body
      produces at most one value and does not read it; otherwise both clones survive.  If there is a
      value, the first clone is merged into the second one, which survives in every case. */
  lemma MergeAfterDuplicate(f: Func, n: nat, k: nat, t: Tree, init: Values, ts: Targets, i: nat, b: seq<Instr>, g: Func,
                            into: seq<Option<Label>>, dead: set<Label>, ds: seq<Label>, h: Func)
    requires WellFormed(f) && Ready(f, n, k) && DominatorTree(f, t) && NoRefs(init) && Chosen(Below(f, t, init), ts)
    requires TargetsOk(State(f, map[], n, k), ts) && i < |ts| && g == CloneAll(State(f, map[], n, k), ts).f
    requires ts[i].0 in f.blocks && b == f.blocks[ts[i].0].body
    requires g.order != [] && MergeRun(g, into, dead, ds, h)
    ensures |into| == |g.order| && PairFate(b, k + 3 * i, g.order, into, dead)
  {
    BothRunsBegin(f, n, k, t, init, ts, g);
    RunMeetsMerge(f, n, k, ts, i, b, g, k + 3 * i, into, dead, ds, h);
  }
}
