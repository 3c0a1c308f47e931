/** A whole run of MergeBB: a scan over the blocks, then the deletion of the erased blocks. */
module MergeWhole {
  import opened IR
  import opened Semantics
  import opened MergeSpec
  import opened MergeSound
  import opened MergeRuns

  // ----- One redirection -----

  lemma RedirectEdges(f: Func, a: Label, b: Label, p: Label, s: Label)
    requires a != b
    ensures Redirect(f, a, b).Edge(p, s) <==> s != a && (f.Edge(p, s) || (s == b && f.Edge(p, a)))
  {
    if p in f.blocks {
      var ts, rs := f.blocks[p].term.targets, RedirectTargets(f.blocks[p].term.targets, a, b);
      if s in rs {
        var i :| 0 <= i < |rs| && rs[i] == s;
        assert ts[i] in ts;
      }
      if s in ts {
        var i :| 0 <= i < |ts| && ts[i] == s;
        assert rs[i] in rs;
      }
      if a in ts {
        var i :| 0 <= i < |ts| && ts[i] == a;
        assert rs[i] in rs;
      }
    }
  }

  lemma RedirectUses(f: Func, a: Label, b: Label, s: Site, r: Reg)
    ensures UsedAt(Redirect(f, a, b), s, r) <==> UsedAt(f, s, r)
  {
    if s.l in f.blocks {
      var x, y := f.blocks[s.l], RedirectBlock(f.blocks[s.l], a, b);
      if s.i <= Count(x) {
        assert OperandsAt(x, s.i) == OperandsAt(y, s.i);
      }
    }
  }

  lemma RedirectDefs(f: Func, a: Label, b: Label)
    requires UniqueDefs(f) && RefsDefined(f)
    ensures UniqueDefs(Redirect(f, a, b)) && RefsDefined(Redirect(f, a, b))
  {
    var g := Redirect(f, a, b);
    forall l, i, m, j | Pos(g, l, i) && Pos(g, m, j) && DstAt(g.blocks[l], i) == DstAt(g.blocks[m], j)
      ensures l == m && i == j
    {
      OneDef(f, l, i, m, j);
    }
    forall s, r | UsedAt(g, s, r)
      ensures exists l, i: nat :: DefinedAt(g, l, i, r)
    {
      RedirectUses(f, a, b, s, r);
      var l, i: nat :| DefinedAt(f, l, i, r);
      assert DefinedAt(g, l, i, r);
    }
  }

  lemma RedirectCovers(f: Func, a: Label, b: Label, l: Label)
    requires a in f.blocks && b in f.blocks && l in f.blocks && PhisCover(f, l) && l != a && a != b
    requires l == b ==> f.blocks[b].phis == [] || forall p :: f.Edge(p, a) ==> f.Edge(p, b)
    ensures PhisCover(Redirect(f, a, b), l)
  {
    var g := Redirect(f, a, b);
    forall i, p | 0 <= i < |g.blocks[l].phis|
      ensures Lists(g.blocks[l].phis[i].incoming, p) <==> g.Edge(p, l)
    {
      RedirectEdges(f, a, b, p, l);
    }
  }

  lemma RedirectTerms(f: Func, a: Label, b: Label, l: Label)
    requires Shape(f) && l in f.blocks && TermOk(f, f.blocks[l].term) && b in f.blocks && b != f.order[0]
    ensures TermOk(Redirect(f, a, b), Redirect(f, a, b).blocks[l].term)
  {
  }

  // ----- The state of the scan -----

  ghost predicate NoEdgesInto(f: Func, dead: set<Label>) {
    forall p, d :: d in dead ==> !f.Edge(p, d)
  }

  /** The only uses of what d defines are PHI entries for the edge from d. */
  ghost predicate UsedOnlyByEntries(f: Func, d: Label)
    requires d in f.blocks
  {
    forall i, s :: 0 <= i < Count(f.blocks[d]) && UsedAt(f, s, DstAt(f.blocks[d], i)) ==> EntryFor(f, s, d)
  }

  ghost predicate EntryFor(f: Func, s: Site, d: Label)
    requires s.l in f.blocks
  {
    var x := f.blocks[s.l];
    IsPhiAt(x, s.i) && s.k < |x.phis[s.i].incoming| && x.phis[s.i].incoming[s.k].0 == d
  }

  /** The PHIs of d list blocks that may not be erased only. */
  ghost predicate ListsNoBranch(f: Func, d: Label)
    requires d in f.blocks
  {
    forall i, p :: 0 <= i < |f.blocks[d].phis| && Lists(f.blocks[d].phis[i].incoming, p) && p in f.blocks ==> !EndsInBranch(f, p)
  }

  /** An erased block: no edge enters it and nothing but entries for its own edge uses its values. */
  ghost predicate Erased(f: Func, d: Label) {
    && f.order != [] && d in f.blocks && d != f.order[0] && EndsInBranch(f, d)
    && (forall p :: !f.Edge(p, d))
    && UsedOnlyByEntries(f, d)
    && ListsNoBranch(f, d)
  }

  /** What holds at every point of the scan: the function is well formed, except that the PHIs of
      erased blocks still list their former predecessors. */
  ghost predicate ScanState(f: Func, dead: set<Label>) {
    && Shape(f)
    && f.blocks[f.order[0]].phis == []
    && (forall l :: l in f.blocks ==> TermOk(f, f.blocks[l].term))
    && UniqueDefs(f)
    && RefsDefined(f)
    && (forall l :: l in f.blocks && l !in dead ==> PhisCover(f, l))
    && (forall d :: d in dead ==> Erased(f, d))
  }

  lemma ScanStateSound(f: Func, dead: set<Label>, a: Label, b: Label)
    requires ScanState(f, dead)
    ensures EnteredSound(f) && NoEdgesInto(f, dead)
    ensures Mergeable(f, dead, a, b) ==> GoodPair(f, a, b)
  {
  }

  lemma MergedUsedOnlyByEntries(f: Func, a: Label, b: Label)
    requires GoodPair(f, a, b)
    ensures UsedOnlyByEntries(f, a)
  {
    forall i, s | 0 <= i < Count(f.blocks[a]) && UsedAt(f, s, DstAt(f.blocks[a], i))
      ensures EntryFor(f, s, a)
    {
      OnlyUseIsPhi(f, a, b, a, i, s);
      SameEntry(f, s.l, s.i, f.blocks[s.l].phis[s.i].incoming[s.k].0, a, DstAt(f.blocks[a], i), s);
    }
  }

  /** A predecessor that a shares with b has two targets. */
  lemma MergedListsNoBranch(f: Func, a: Label, b: Label)
    requires a in f.blocks && b in f.blocks && a != b && PhisCover(f, a) && PredsShared(f, a, b)
    ensures ListsNoBranch(f, a)
  {
    forall i, p | 0 <= i < |f.blocks[a].phis| && Lists(f.blocks[a].phis[i].incoming, p) && p in f.blocks
      ensures !EndsInBranch(f, p)
    {
      assert f.Edge(p, a) && f.Edge(p, b);
    }
  }

  lemma RedirectEntries(f: Func, a: Label, b: Label, d: Label)
    requires d in f.blocks && UsedOnlyByEntries(f, d)
    ensures UsedOnlyByEntries(Redirect(f, a, b), d)
  {
    var g := Redirect(f, a, b);
    forall i, s | 0 <= i < Count(g.blocks[d]) && UsedAt(g, s, DstAt(g.blocks[d], i))
      ensures EntryFor(g, s, d)
    {
      RedirectUses(f, a, b, s, DstAt(f.blocks[d], i));
      assert EntryFor(f, s, d);
    }
  }

  lemma RedirectListsNoBranch(f: Func, a: Label, b: Label, d: Label)
    requires d in f.blocks && ListsNoBranch(f, d)
    ensures ListsNoBranch(Redirect(f, a, b), d)
  {
  }

  lemma RedirectErased(f: Func, a: Label, b: Label, d: Label)
    requires Erased(f, d) && a != b && b != d
    ensures Erased(Redirect(f, a, b), d)
  {
    RedirectEntries(f, a, b, d);
    RedirectListsNoBranch(f, a, b, d);
    forall p
      ensures !Redirect(f, a, b).Edge(p, d)
    {
      RedirectEdges(f, a, b, p, d);
    }
  }

  lemma MergedErased(f: Func, a: Label, b: Label)
    requires GoodPair(f, a, b) && PredsShared(f, a, b) && PhisCover(f, a)
    ensures Erased(Redirect(f, a, b), a)
  {
    MergedUsedOnlyByEntries(f, a, b);
    MergedListsNoBranch(f, a, b);
    RedirectEntries(f, a, b, a);
    RedirectListsNoBranch(f, a, b, a);
    forall p
      ensures !Redirect(f, a, b).Edge(p, a)
    {
      RedirectEdges(f, a, b, p, a);
    }
  }

  lemma MatchShares(f: Func, a: Label, b: Label)
    requires a in f.blocks && b in f.blocks && PhisMatch(f, a, b)
    ensures PredsShared(f, a, b)
  {
    if f.blocks[a].phis != [] {
      var phi := f.blocks[a].phis[0];
      assert forall p :: p in f.blocks && f.Edge(p, a) ==> f.Edge(p, b);
    }
  }

  lemma MergedCovers(f: Func, a: Label, b: Label, l: Label)
    requires GoodPair(f, a, b) && PredsShared(f, a, b) && l in f.blocks && l != a && PhisCover(f, l)
    ensures PhisCover(Redirect(f, a, b), l)
  {
    PhiCountsAgree(f, a, b);
    RedirectCovers(f, a, b, l);
  }

  /** One merge keeps what holds during the scan, if the blocks have no PHIs or a's predecessors
      are b's. */
  lemma MergeKeepsState(f: Func, dead: set<Label>, a: Label, b: Label)
    requires ScanState(f, dead) && a !in dead && Mergeable(f, dead, a, b) && PredsShared(f, a, b)
    ensures ScanState(Redirect(f, a, b), dead + {a})
  {
    var g := Redirect(f, a, b);
    ScanStateSound(f, dead, a, b);
    RedirectDefs(f, a, b);
    forall l | l in g.blocks
      ensures TermOk(g, g.blocks[l].term)
      ensures l !in dead + {a} ==> PhisCover(g, l)
    {
      RedirectTerms(f, a, b, l);
      if l !in dead + {a} {
        MergedCovers(f, a, b, l);
      }
    }
    forall d | d in dead + {a}
      ensures Erased(g, d)
    {
      if d == a {
        MergedErased(f, a, b);
      } else {
        RedirectErased(f, a, b, d);
      }
    }
  }

  // ----- The scan -----

  /** The scan over `todo` turns f into g: every block was merged into the block `into` names, one
      that qualified at that moment, or no block qualified. */
  ghost predicate Scanned(f: Func, todo: seq<Label>, dead: set<Label>, into: seq<Option<Label>>, g: Func, dead': set<Label>)
    requires f.order != []
    decreases todo
  {
    && |into| == |todo|
    && if todo == [] then g == f && dead' == dead
       else
         match into[0]
         case Some(b) =>
           Mergeable(f, dead, todo[0], b) && Scanned(Redirect(f, todo[0], b), todo[1..], dead + {todo[0]}, into[1..], g, dead')
         case None =>
           (forall b :: !Mergeable(f, dead, todo[0], b)) && Scanned(f, todo[1..], dead, into[1..], g, dead')
  }

  /** The block the first iteration of a scan sends l to. */
  function Sent(todo: seq<Label>, into: seq<Option<Label>>, l: Label): Label
    requires |into| == |todo| > 0
  {
    if into[0].Some? then Ren(todo[0], into[0].value, l) else l
  }

  /** Where the composed merges send a block. */
  function Renamed(todo: seq<Label>, into: seq<Option<Label>>, l: Label): Label
    requires |into| == |todo|
  {
    if todo == [] then l
    else Renamed(todo[1..], into[1..], Sent(todo, into, l))
  }

  /** The PHIs of every pair match at the moment of its merge. */
  ghost predicate PhisMatched(f: Func, todo: seq<Label>, into: seq<Option<Label>>)
    requires |into| == |todo|
    decreases todo
  {
    todo != [] ==>
      match into[0]
      case Some(b) =>
        && todo[0] in f.blocks && b in f.blocks && PhisMatch(f, todo[0], b)
        && PhisMatched(Redirect(f, todo[0], b), todo[1..], into[1..])
      case None => PhisMatched(f, todo[1..], into[1..])
  }

  /** No erased block has PHIs. */
  ghost predicate ErasedBare(f: Func, todo: seq<Label>, into: seq<Option<Label>>)
    requires |into| == |todo|
  {
    forall i :: 0 <= i < |todo| && into[i].Some? && todo[i] in f.blocks ==> f.blocks[todo[i]].phis == []
  }

  lemma ErasedBareTail(f: Func, todo: seq<Label>, into: seq<Option<Label>>, a: Label, b: Label)
    requires |into| == |todo| && todo != [] && ErasedBare(f, todo, into)
    ensures ErasedBare(f, todo[1..], into[1..]) && ErasedBare(Redirect(f, a, b), todo[1..], into[1..])
  {
    forall i | 0 <= i < |todo[1..]| && into[1..][i].Some? && todo[1..][i] in f.blocks
      ensures f.blocks[todo[1..][i]].phis == []
    {
      assert into[i + 1].Some? && todo[i + 1] in f.blocks;
    }
  }

  /** Blocks without PHIs match. */
  lemma {:induction false} BareMatches(f: Func, todo: seq<Label>, dead: set<Label>, into: seq<Option<Label>>, g: Func, dead': set<Label>)
    requires f.order != [] && Scanned(f, todo, dead, into, g, dead') && ErasedBare(f, todo, into)
    ensures PhisMatched(f, todo, into)
    decreases todo
  {
    if todo != [] {
      match into[0]
      case Some(b) =>
        ErasedBareTail(f, todo, into, todo[0], b);
        BareMatches(Redirect(f, todo[0], b), todo[1..], dead + {todo[0]}, into[1..], g, dead');
      case None =>
        ErasedBareTail(f, todo, into, 0, 0);
        BareMatches(f, todo[1..], dead, into[1..], g, dead');
    }
  }

  /** Blocks that are still to be looked at, each once, none of them erased. */
  ghost predicate Fresh(todo: seq<Label>, dead: set<Label>) {
    && (forall i, j :: 0 <= i < j < |todo| ==> todo[i] != todo[j])
    && forall i :: 0 <= i < |todo| ==> todo[i] !in dead
  }

  lemma MergeRunsAlike(w: World, f: Func, dead: set<Label>, a: Label, b: Label, n: nat)
    requires ScanState(f, dead) && Mergeable(f, dead, a, b) && PhisMatch(f, a, b)
    ensures Look(Run(w, f, n)) == Look(Run(w, Redirect(f, a, b), n))
    ensures Run(w, f, n).At? ==> Run(w, Redirect(f, a, b), n).cur == Ren(a, b, Run(w, f, n).cur)
  {
    ScanStateSound(f, dead, a, b);
    RunRelated(w, f, a, b, n);
  }

  lemma FreshTail(todo: seq<Label>, dead: set<Label>)
    requires Fresh(todo, dead) && todo != []
    ensures Fresh(todo[1..], dead) && Fresh(todo[1..], dead + {todo[0]}) && todo[0] !in dead
  {
  }

  /** The first iteration. */
  lemma ScanFirst(w: World, f: Func, todo: seq<Label>, dead: set<Label>, into: seq<Option<Label>>, g: Func, dead': set<Label>, n: nat)
    returns (f1: Func, dead1: set<Label>)
    requires f.order != [] && Scanned(f, todo, dead, into, g, dead') && todo != []
    requires ScanState(f, dead) && Fresh(todo, dead) && PhisMatched(f, todo, into)
    ensures f1.order == f.order && Scanned(f1, todo[1..], dead1, into[1..], g, dead')
    ensures ScanState(f1, dead1) && Fresh(todo[1..], dead1) && PhisMatched(f1, todo[1..], into[1..])
    ensures Look(Run(w, f, n)) == Look(Run(w, f1, n))
    ensures Run(w, f, n).At? ==> Run(w, f1, n).cur == Sent(todo, into, Run(w, f, n).cur)
  {
    FreshTail(todo, dead);
    match into[0]
    case Some(b) =>
      MatchShares(f, todo[0], b);
      MergeKeepsState(f, dead, todo[0], b);
      MergeRunsAlike(w, f, dead, todo[0], b, n);
      f1, dead1 := Redirect(f, todo[0], b), dead + {todo[0]};
    case None =>
      f1, dead1 := f, dead;
  }

  /** The scan keeps what holds during it. */
  lemma {:induction false} ScanKeepsState(w: World, f: Func, todo: seq<Label>, dead: set<Label>, into: seq<Option<Label>>, g: Func, dead': set<Label>)
    requires f.order != [] && Scanned(f, todo, dead, into, g, dead')
    requires ScanState(f, dead) && Fresh(todo, dead) && PhisMatched(f, todo, into)
    ensures ScanState(g, dead') && g.order == f.order
    decreases todo
  {
    if todo != [] {
      var f1, dead1 := ScanFirst(w, f, todo, dead, into, g, dead', 0);
      ScanKeepsState(w, f1, todo[1..], dead1, into[1..], g, dead');
    }
  }

  /** After n blocks the two runs look the same, and the scanned function is at the block the
      original one's block was renamed to. */
  /** Composing the first merge with the others, for configurations c, c1 and d. */
  lemma RenamedFirst(todo: seq<Label>, into: seq<Option<Label>>, c: Config, c1: Config, d: Config)
    requires |into| == |todo| > 0
    requires Look(c) == Look(c1) && Look(c1) == Look(d)
    requires c.At? ==> c1.cur == Sent(todo, into, c.cur)
    requires c1.At? ==> d.cur == Renamed(todo[1..], into[1..], c1.cur)
    ensures Look(c) == Look(d) && (c.At? ==> d.cur == Renamed(todo, into, c.cur))
  {
  }

  lemma {:induction false} ScanRuns(w: World, f: Func, todo: seq<Label>, dead: set<Label>, into: seq<Option<Label>>, g: Func, dead': set<Label>, n: nat)
    requires f.order != [] && Scanned(f, todo, dead, into, g, dead')
    requires ScanState(f, dead) && Fresh(todo, dead) && PhisMatched(f, todo, into)
    ensures g.order == f.order
    ensures Look(Run(w, f, n)) == Look(Run(w, g, n))
    ensures Run(w, f, n).At? ==> Run(w, g, n).cur == Renamed(todo, into, Run(w, f, n).cur)
    decreases todo
  {
    if todo != [] {
      var f1, dead1 := ScanFirst(w, f, todo, dead, into, g, dead', n);
      ScanRuns(w, f1, todo[1..], dead1, into[1..], g, dead', n);
      RenamedFirst(todo, into, Run(w, f, n), Run(w, f1, n), Run(w, g, n));
    }
  }

  // ----- The deletion -----

  lemma {:induction false} DropEntriesIs(inc: seq<(Label, Operand)>, d: Label)
    ensures forall e :: e in DropEntries(inc, d) <==> e in inc && e.0 != d
  {
    if inc != [] {
      DropEntriesIs(inc[1..], d);
      assert inc == [inc[0]] + inc[1..];
    }
  }

  lemma {:induction false} DropEntriesIncoming(inc: seq<(Label, Operand)>, d: Label, p: Label)
    requires p != d
    ensures Incoming(DropEntries(inc, d), p) == Incoming(inc, p)
  {
    if inc != [] {
      DropEntriesIncoming(inc[1..], d, p);
      var r := DropEntries(inc[1..], d);
      assert ([inc[0]] + r)[1..] == r && [] + r == r;
    }
  }

  lemma DropEntriesLists(inc: seq<(Label, Operand)>, d: Label, p: Label)
    ensures Lists(DropEntries(inc, d), p) <==> p != d && Lists(inc, p)
  {
    DropEntriesIs(inc, d);
    var r := DropEntries(inc, d);
    if Lists(r, p) {
      var i :| 0 <= i < |r| && r[i].0 == p;
      assert r[i] in r;
    }
    if p != d && Lists(inc, p) {
      var i :| 0 <= i < |inc| && inc[i].0 == p;
      assert inc[i] in inc;
      assert inc[i] in r;
    }
  }

  lemma {:induction false} WithoutIs(s: seq<Label>, a: Label)
    requires forall i, j :: 0 <= i < j < |s| ==> s[i] != s[j]
    ensures forall l :: l in Without(s, a) <==> l in s && l != a
    ensures forall i, j :: 0 <= i < j < |Without(s, a)| ==> Without(s, a)[i] != Without(s, a)[j]
    ensures s != [] && s[0] != a ==> Without(s, a) != [] && Without(s, a)[0] == s[0]
  {
    if s != [] {
      WithoutIs(s[1..], a);
      assert s == [s[0]] + s[1..];
      assert s[0] !in s[1..];
      var r := Without(s[1..], a);
      assert forall i :: 0 <= i < |r| ==> r[i] in r;
    }
  }

  lemma DropEdges(f: Func, d: Label, p: Label, s: Label)
    requires d in f.blocks
    ensures Drop(f, d).Edge(p, s) <==> p != d && f.Edge(p, s)
  {
  }

  /** The PHIs of blocks d does not branch to have no entry for d. */
  lemma NoEntryLeft(f: Func, dead: set<Label>, d: Label, l: Label, i: nat)
    requires ScanState(f, dead) && d in dead && l in f.blocks && l !in f.blocks[d].term.targets && i < |f.blocks[l].phis|
    ensures !Lists(f.blocks[l].phis[i].incoming, d)
  {
    assert Erased(f, d);
    if l in dead {
      assert Erased(f, l);
    } else {
      assert PhisCover(f, l) && !f.Edge(d, l);
    }
  }

  /** A use that is left names the same register, from the same position, as before. */
  lemma DropUse(f: Func, dead: set<Label>, d: Label, s: Site, r: Reg) returns (t: Site)
    requires ScanState(f, dead) && d in dead && UsedAt(Drop(f, d), s, r)
    ensures UsedAt(f, t, r) && t.l == s.l && t.i == s.i && s.l != d && !EntryFor(f, t, d)
    ensures forall e :: EntryFor(f, t, e) ==> EntryFor(Drop(f, d), s, e)
  {
    var g := Drop(f, d);
    var x, y := f.blocks[s.l], g.blocks[s.l];
    if IsPhiAt(x, s.i) {
      var inc, r' := x.phis[s.i].incoming, y.phis[s.i].incoming;
      if s.l in f.blocks[d].term.targets {
        DropEntriesIs(inc, d);
        assert r'[s.k] in r';
        var k :| 0 <= k < |inc| && inc[k] == r'[s.k];
        t := Site(s.l, s.i, k);
      } else {
        t := s;
        NoEntryLeft(f, dead, d, s.l, s.i);
      }
    } else {
      t := s;
      assert OperandsAt(x, s.i) == OperandsAt(y, s.i);
    }
  }

  lemma DropUnique(f: Func, d: Label)
    requires d in f.blocks && UniqueDefs(f)
    ensures UniqueDefs(Drop(f, d))
  {
    var g := Drop(f, d);
    forall l, i, m, j | Pos(g, l, i) && Pos(g, m, j) && DstAt(g.blocks[l], i) == DstAt(g.blocks[m], j)
      ensures l == m && i == j
    {
      OneDef(f, l, i, m, j);
    }
  }

  lemma DropUseDefined(f: Func, dead: set<Label>, d: Label, s: Site, r: Reg) returns (l: Label, i: nat)
    requires ScanState(f, dead) && d in dead && UsedAt(Drop(f, d), s, r)
    ensures DefinedAt(f, l, i, r) && l != d
  {
    var t := DropUse(f, dead, d, s, r);
    l, i :| DefinedAt(f, l, i, r);
    assert Erased(f, d);
  }

  lemma DropDefs(f: Func, dead: set<Label>, d: Label)
    requires ScanState(f, dead) && d in dead && d in f.blocks
    ensures RefsDefined(Drop(f, d))
  {
    var g := Drop(f, d);
    forall s, r | UsedAt(g, s, r)
      ensures exists l, i: nat :: DefinedAt(g, l, i, r)
    {
      var l, i := DropUseDefined(f, dead, d, s, r);
      assert DefinedAt(g, l, i, r);
    }
  }

  lemma DropCovers(f: Func, d: Label, l: Label)
    requires d in f.blocks && l in f.blocks && l != d && PhisCover(f, l)
    ensures PhisCover(Drop(f, d), l)
  {
    var g := Drop(f, d);
    forall i, p | 0 <= i < |g.blocks[l].phis|
      ensures Lists(g.blocks[l].phis[i].incoming, p) <==> g.Edge(p, l)
    {
      DropEdges(f, d, p, l);
      if l in f.blocks[d].term.targets {
        DropEntriesLists(f.blocks[l].phis[i].incoming, d, p);
      } else {
        assert !f.Edge(d, l);
      }
    }
  }

  lemma DropTerm(f: Func, d: Label, l: Label)
    requires f.order != [] && d in f.blocks && l in f.blocks && l != d && TermOk(f, f.blocks[l].term)
    requires !f.Edge(l, d) && Shape(Drop(f, d)) && Drop(f, d).order[0] == f.order[0]
    ensures TermOk(Drop(f, d), Drop(f, d).blocks[l].term)
  {
    forall s | s in f.blocks[l].term.targets
      ensures s != d
    {
      assert f.Edge(l, s);
    }
  }

  lemma DropUsedOnlyByEntries(f: Func, dead: set<Label>, d: Label, e: Label)
    requires ScanState(f, dead) && d in dead && e in f.blocks && UsedOnlyByEntries(f, e) && d != e
    ensures UsedOnlyByEntries(Drop(f, d), e)
  {
    var g := Drop(f, d);
    forall i, s | 0 <= i < Count(g.blocks[e]) && UsedAt(g, s, DstAt(g.blocks[e], i))
      ensures EntryFor(g, s, e)
    {
      assert DstAt(g.blocks[e], i) == DstAt(f.blocks[e], i);
      var t := DropUse(f, dead, d, s, DstAt(f.blocks[e], i));
      assert EntryFor(f, t, e);
    }
  }

  lemma DropListsNoBranch(f: Func, d: Label, e: Label)
    requires d in f.blocks && e in f.blocks && d != e && e !in f.blocks[d].term.targets && ListsNoBranch(f, e)
    ensures ListsNoBranch(Drop(f, d), e)
  {
    var g := Drop(f, d);
    forall i, p | 0 <= i < |g.blocks[e].phis| && Lists(g.blocks[e].phis[i].incoming, p) && p in g.blocks
      ensures !EndsInBranch(g, p)
    {
      assert g.blocks[e] == f.blocks[e] && g.blocks[p].term == f.blocks[p].term;
    }
  }

  lemma DropErased(f: Func, dead: set<Label>, d: Label, e: Label)
    requires ScanState(f, dead) && d in dead && e in dead && d != e
    requires Drop(f, d).order != [] && Drop(f, d).order[0] == f.order[0]
    ensures Erased(Drop(f, d), e)
  {
    assert Erased(f, e) && !f.Edge(d, e);
    DropUsedOnlyByEntries(f, dead, d, e);
    DropListsNoBranch(f, d, e);
    forall p
      ensures !Drop(f, d).Edge(p, e)
    {
      DropEdges(f, d, p, e);
    }
  }

  /** Deleting an erased block leaves no use of its values, and the others as they were. */
  lemma DropKeepsState(f: Func, dead: set<Label>, d: Label)
    requires ScanState(f, dead) && d in dead
    ensures ScanState(Drop(f, d), dead - {d}) && Drop(f, d).order[0] == f.order[0]
  {
    var g := Drop(f, d);
    assert Erased(f, d);
    WithoutIs(f.order, d);
    DropUnique(f, d);
    DropDefs(f, dead, d);
    forall l | l in g.blocks
      ensures TermOk(g, g.blocks[l].term)
      ensures l !in dead - {d} ==> PhisCover(g, l)
    {
      DropTerm(f, d, l);
      if l !in dead {
        DropCovers(f, d, l);
      }
    }
    forall e | e in dead - {d}
      ensures Erased(g, e)
    {
      DropErased(f, dead, d, e);
    }
  }

  lemma {:induction false} DroppedPhis(w: World, p: seq<Phi>, q: seq<Phi>, d: Label, prev: Label, src: Env, acc: Env)
    requires prev != d && |p| == |q|
    requires forall i :: 0 <= i < |p| ==> q[i] == p[i].(incoming := DropEntries(p[i].incoming, d))
    ensures EvalPhis(w, q, prev, src, acc) == EvalPhis(w, p, prev, src, acc)
  {
    if p != [] {
      DropEntriesIncoming(p[0].incoming, d, prev);
      DroppedPhis(w, p[1..], q[1..], d, prev, src, acc[p[0].dst := Val(w, Incoming(p[0].incoming, prev), src)]);
    }
  }

  /** No edge leads to d, which is not the entry. */
  ghost predicate Unentered(f: Func, d: Label) {
    && f.order != [] && d in f.blocks && d != f.order[0]
    && (forall p :: !f.Edge(p, d))
    && (forall l :: l in f.blocks ==> TermOk(f, f.blocks[l].term))
  }

  lemma DropStep(w: World, f: Func, d: Label, c: Config)
    requires Unentered(f, d) && c.At? && c.cur in f.blocks && c.cur != d && c.prev != d
    ensures Step(w, Drop(f, d), c) == Step(w, f, c)
    ensures Step(w, f, c).At? ==> Step(w, f, c).cur in f.blocks && Step(w, f, c).cur != d && Step(w, f, c).prev != d
  {
    TargetsExist(f, c.cur);
    if c.cur in f.blocks[d].term.targets {
      DroppedPhis(w, f.blocks[c.cur].phis, DropInBlock(f.blocks[c.cur], d).phis, d, c.prev, c.env, c.env);
    }
  }

  lemma {:induction false} DropRuns(w: World, f: Func, d: Label, n: nat)
    requires Unentered(f, d) && f.order[0] in f.blocks && Drop(f, d).order != [] && Drop(f, d).order[0] == f.order[0]
    ensures Run(w, Drop(f, d), n) == Run(w, f, n)
    ensures Run(w, f, n).At? ==> Run(w, f, n).cur in f.blocks && Run(w, f, n).cur != d && Run(w, f, n).prev != d
  {
    if n > 0 {
      DropRuns(w, f, d, n - 1);
      if Run(w, f, n - 1).At? {
        DropStep(w, f, d, Run(w, f, n - 1));
      }
    }
  }

  /** h is g without the blocks in ds, deleted one after the other. */
  ghost predicate Deleted(g: Func, ds: seq<Label>, h: Func)
    decreases ds
  {
    if ds == [] then h == g else ds[0] in g.blocks && Deleted(Drop(g, ds[0]), ds[1..], h)
  }

  lemma WithoutDead(f: Func)
    requires ScanState(f, {})
    ensures WellFormed(f)
  {
  }

  /** ds lists the blocks of dead, each once. */
  ghost predicate Listing(ds: seq<Label>, dead: set<Label>) {
    && (forall i, j :: 0 <= i < j < |ds| ==> ds[i] != ds[j])
    && (forall d :: d in ds <==> d in dead)
  }

  lemma ListingTail(ds: seq<Label>, dead: set<Label>)
    requires Listing(ds, dead)
    ensures ds == [] ==> dead == {}
    ensures ds != [] ==> ds[0] in dead && Listing(ds[1..], dead - {ds[0]})
  {
    if ds != [] {
      assert ds == [ds[0]] + ds[1..] && ds[0] !in ds[1..];
    }
  }

  lemma DeleteOne(w: World, g: Func, dead: set<Label>, d: Label, n: nat)
    requires ScanState(g, dead) && d in dead
    ensures d in g.blocks && ScanState(Drop(g, d), dead - {d})
    ensures Run(w, Drop(g, d), n) == Run(w, g, n)
  {
    assert Erased(g, d);
    DropKeepsState(g, dead, d);
    DropRuns(w, g, d, n);
  }

  /** The erased blocks may be deleted in any order: no run changes, and what is left is well formed
      without exception. */
  lemma {:induction false} DeletedRuns(w: World, g: Func, dead: set<Label>, ds: seq<Label>, h: Func, n: nat)
    requires ScanState(g, dead) && Deleted(g, ds, h) && Listing(ds, dead)
    ensures WellFormed(h) && Run(w, h, n) == Run(w, g, n)
    decreases ds
  {
    ListingTail(ds, dead);
    if ds == [] {
      WithoutDead(g);
    } else {
      DeleteOne(w, g, dead, ds[0], n);
      DeletedRuns(w, Drop(g, ds[0]), dead - {ds[0]}, ds[1..], h, n);
    }
  }

  // ----- The whole run -----

  /** What MergeBB::run does: scan the blocks in layout order, then delete the erased ones in some
      order. */
  ghost predicate MergeRun(f: Func, into: seq<Option<Label>>, dead: set<Label>, ds: seq<Label>, h: Func)
    requires f.order != []
  {
    && Listing(ds, dead)
    && exists g :: Scanned(f, f.order, {}, into, g, dead) && Deleted(g, ds, h)
  }

  lemma MergeRunAt(w: World, f: Func, into: seq<Option<Label>>, dead: set<Label>, ds: seq<Label>, h: Func, n: nat)
    requires WellFormed(f) && MergeRun(f, into, dead, ds, h)
    requires |into| == |f.order| && PhisMatched(f, f.order, into)
    ensures WellFormed(h) && Look(Run(w, f, n)) == Look(Run(w, h, n))
    ensures Run(w, f, n).At? ==> Run(w, h, n).cur == Renamed(f.order, into, Run(w, f, n).cur)
  {
    var g :| Scanned(f, f.order, {}, into, g, dead) && Deleted(g, ds, h);
    assert ScanState(f, {});
    ScanKeepsState(w, f, f.order, {}, into, g, dead);
    ScanRuns(w, f, f.order, {}, into, g, dead, n);
    DeletedRuns(w, g, dead, ds, h, n);
  }

  /** A whole run of MergeBB preserves the meaning of every well-formed function if the PHIs of each
      pair match when it is merged: after any number of blocks the result looks the same, and it is
      at the block the composed merges renamed the original one's block to. */
  lemma MergeRunPreserves(w: World, f: Func, into: seq<Option<Label>>, dead: set<Label>, ds: seq<Label>, h: Func)
    requires WellFormed(f) && MergeRun(f, into, dead, ds, h)
    requires |into| == |f.order| && PhisMatched(f, f.order, into)
    ensures WellFormed(h) && Lockstep(w, f, h)
    ensures forall n: nat :: Run(w, f, n).At? ==> Run(w, h, n).cur == Renamed(f.order, into, Run(w, f, n).cur)
  {
    MergeRunAt(w, f, into, dead, ds, h, 0);
    forall n: nat
      ensures Look(Run(w, f, n)) == Look(Run(w, h, n))
      ensures Run(w, f, n).At? ==> Run(w, h, n).cur == Renamed(f.order, into, Run(w, f, n).cur)
    {
      MergeRunAt(w, f, into, dead, ds, h, n);
    }
  }

  /** In particular if no erased block has PHIs. */
  lemma BareRunPreserves(w: World, f: Func, into: seq<Option<Label>>, dead: set<Label>, ds: seq<Label>, h: Func)
    requires WellFormed(f) && MergeRun(f, into, dead, ds, h)
    requires |into| == |f.order| && ErasedBare(f, f.order, into)
    ensures WellFormed(h) && Lockstep(w, f, h)
  {
    var g :| Scanned(f, f.order, {}, into, g, dead) && Deleted(g, ds, h);
    BareMatches(f, f.order, {}, into, g, dead);
    MergeRunPreserves(w, f, into, dead, ds, h);
  }
}
