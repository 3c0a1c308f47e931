/** Where a hoisted value may be read: on every path there, the loop has computed it since it was
    last entered. */
module LicmPaths {
  import opened IR
  import opened Paths
  import opened StrictSsa
  import opened LicmSpec
  import opened LicmSound

  /** The registers of h that the blocks in q have written since the last p. */
  ghost function Fresh(f: Func, p: Label, h: set<Reg>, q: seq<Label>): set<Reg>
    decreases |q|
  {
    if q == [] then {}
    else
      var l := q[|q| - 1];
      if l == p || l !in f.blocks then {} else Fresh(f, p, h, q[..|q| - 1]) + h * Made(f.blocks[l].body)
  }

  lemma {:induction false} FreshHas(f: Func, p: Label, h: set<Reg>, q: seq<Label>, i: nat, r: Reg)
    requires i < |q| && q[i] in f.blocks && r in h && r in Made(f.blocks[q[i]].body)
    requires forall j :: i <= j < |q| ==> q[j] != p && q[j] in f.blocks
    ensures r in Fresh(f, p, h, q)
    decreases |q|
  {
    if i < |q| - 1 {
      FreshHas(f, p, h, q[..|q| - 1], i, r);
    }
  }

  /** Every register of h is written by the body of a loop block. */
  ghost predicate HomesInLoop(f: Func, ls: seq<Label>, h: set<Reg>)
    requires forall l :: l in ls ==> l in f.blocks
  {
    forall r :: r in h ==> exists x :: InBody(f, ls, x) && x.dst == r
  }

  lemma Home(f: Func, ls: seq<Label>, h: set<Reg>, l: Label, r: Reg)
    requires forall l :: l in ls ==> l in f.blocks
    requires UniqueDefs(f) && HomesInLoop(f, ls, h) && r in h && DefinesValue(f, l, r)
    ensures l in ls && r in Made(f.blocks[l].body)
  {
    var x :| InBody(f, ls, x) && x.dst == r;
    var m :| m in ls && x in f.blocks[m].body;
    var j :| 0 <= j < |f.blocks[m].body| && f.blocks[m].body[j] == x;
    var i: nat :| DefinedAt(f, l, i, r);
    OneDef(f, l, i, m, |f.blocks[m].phis| + j);
  }

  /** A path enters the loop through the preheader. */
  lemma {:induction false} EnteredThrough(f: Func, loop: Loop, p: Label, q: seq<Label>, i: nat)
    requires f.order != [] && LoopOk(f, loop, p) && IsPath(f, q) && i < |q| && q[i] in loop.blocks
    ensures exists j :: 0 <= j < i && q[j] == p
    decreases i
  {
    if q[i - 1] in loop.blocks {
      EnteredThrough(f, loop, p, q, i - 1);
    } else {
      assert f.Edge(q[i - 1], q[i]);
    }
  }

  lemma {:induction false} FirstOf(q: seq<Label>, p: Label) returns (s: nat)
    requires p in q
    ensures s < |q| && q[s] == p && forall j :: 0 <= j < s ==> q[j] != p
  {
    if q[0] == p {
      s := 0;
    } else {
      s := FirstOf(q[1..], p);
      s := s + 1;
    }
  }

  lemma {:induction false} LastOf(q: seq<Label>, p: Label) returns (t: nat)
    requires p in q
    ensures t < |q| && q[t] == p && forall j :: t < j < |q| ==> q[j] != p
  {
    var n := |q| - 1;
    if q[n] == p {
      t := n;
    } else {
      t := LastOf(q[..n], p);
    }
  }

  /** Cutting out what happens between two visits of the same block leaves a path. */
  lemma Splice(f: Func, q: seq<Label>, s: nat, t: nat)
    requires f.order != [] && IsPath(f, q) && s <= t < |q| && q[s] == q[t]
    ensures PathTo(f, q[..s + 1] + q[t + 1..], q[|q| - 1])
  {
    var c := q[..s + 1] + q[t + 1..];
    forall i | 0 < i < |c|
      ensures f.Edge(c[i - 1], c[i])
    {
      if i > s + 1 {
        assert c[i - 1] == q[i - 1 + t - s] && c[i] == q[i + t - s];
      } else if i == s + 1 {
        assert c[i - 1] == q[t] && c[i] == q[t + 1];
      }
    }
  }

  ghost predicate PathInBlocks(f: Func, q: seq<Label>) { forall j :: 0 <= j < |q| ==> q[j] in f.blocks }

  lemma SpliceAt(q: seq<Label>, s: nat, t: nat, i: nat)
    requires s <= t < |q| && i < |q[..s + 1] + q[t + 1..]|
    ensures i <= s ==> (q[..s + 1] + q[t + 1..])[i] == q[i]
    ensures i > s ==> t < i + t - s < |q| && (q[..s + 1] + q[t + 1..])[i] == q[i + t - s]
  {
  }

  lemma NotBeforeFirst(f: Func, loop: Loop, p: Label, q: seq<Label>, s: nat, i: nat)
    requires f.order != [] && LoopOk(f, loop, p) && IsPath(f, q) && i < |q| && q[i] in loop.blocks
    requires s < |q| && forall j :: 0 <= j < s ==> q[j] != p
    ensures s < i
  {
    EnteredThrough(f, loop, p, q, i);
  }

  lemma OnCut(f: Func, q: seq<Label>, s: nat, t: nat, r: Reg) returns (i: nat)
    requires f.order != [] && IsPath(f, q) && s <= t < |q| && q[s] == q[t] && AtEnd(f, q[|q| - 1], r)
    ensures i < |q[..s + 1] + q[t + 1..]| && DefinesValue(f, (q[..s + 1] + q[t + 1..])[i], r)
  {
    Splice(f, q, s, t);
    var c := q[..s + 1] + q[t + 1..];
    i :| 0 <= i < |c| && DefinesValue(f, c[i], r);
  }

  /** A block on every path to the end of q has been visited since q last was at the preheader. */
  lemma VisitedSince(f: Func, loop: Loop, p: Label, h: set<Reg>, q: seq<Label>, r: Reg) returns (k: nat)
    requires f.order != [] && LoopOk(f, loop, p) && UniqueDefs(f) && HomesInLoop(f, loop.blocks, h)
    requires IsPath(f, q) && p in q && r in h && AtEnd(f, q[|q| - 1], r)
    ensures k < |q| && DefinesValue(f, q[k], r) && forall j :: k <= j < |q| ==> q[j] != p
  {
    var s := FirstOf(q, p);
    var t := LastOf(q, p);
    var i := OnCut(f, q, s, t, r);
    SpliceAt(q, s, t, i);
    if i <= s {
      Home(f, loop.blocks, h, q[i], r);
      NotBeforeFirst(f, loop, p, q, s, i);
    }
    k := i + t - s;
  }

  /** What is written on every path has been written since the last visit of the preheader. */
  lemma FreshAtEnd(f: Func, loop: Loop, p: Label, h: set<Reg>, q: seq<Label>, r: Reg)
    requires f.order != [] && LoopOk(f, loop, p) && UniqueDefs(f) && HomesInLoop(f, loop.blocks, h)
    requires IsPath(f, q) && PathInBlocks(f, q) && r in h && AtEnd(f, q[|q| - 1], r)
    ensures r in Fresh(f, p, h, q)
  {
    assert PathTo(f, q, q[|q| - 1]);
    var i :| 0 <= i < |q| && DefinesValue(f, q[i], r);
    Home(f, loop.blocks, h, q[i], r);
    EnteredThrough(f, loop, p, q, i);
    var k := VisitedSince(f, loop, p, h, q, r);
    Home(f, loop.blocks, h, q[k], r);
    FreshHas(f, p, h, q, k, r);
  }

  /** The state between two blocks: nothing has run, or the blocks in q have. */
  ghost predicate Arrived(f: Func, q: seq<Label>, prev: Label, cur: Label)
    requires f.order != []
  {
    if q == [] then cur == f.order[0] else PathTo(f, q, prev) && f.Edge(prev, cur)
  }

  lemma NothingAtEntry(f: Func, r: Reg)
    requires f.order != []
    ensures !Available(f, Ref(r), f.order[0])
  {
    assert PathTo(f, [f.order[0]], f.order[0]);
  }

  lemma FreshAtEntry(f: Func, loop: Loop, p: Label, h: set<Reg>, q: seq<Label>, prev: Label, cur: Label, r: Reg)
    requires f.order != [] && LoopOk(f, loop, p) && UniqueDefs(f) && HomesInLoop(f, loop.blocks, h)
    requires Arrived(f, q, prev, cur) && PathInBlocks(f, q) && r in h && Available(f, Ref(r), cur)
    ensures r in Fresh(f, p, h, q)
  {
    if q == [] {
      NothingAtEntry(f, r);
    } else {
      forall a | PathTo(f, a, prev)
        ensures exists i :: 0 <= i < |a| && DefinesValue(f, a[i], r)
      {
        assert PathTo(f, a + [cur], cur);
        var i :| 0 <= i < |a + [cur]| - 1 && DefinesValue(f, (a + [cur])[i], r);
        assert (a + [cur])[i] == a[i];
      }
      FreshAtEnd(f, loop, p, h, q, r);
    }
  }
}
