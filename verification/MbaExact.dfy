/** What MBAAdd and MBASub leave of a function, in terms of the functions before and after. */
module MbaExact {
  import opened IR
  import opened Renaming
  import opened MbaSpec

  /** An addition of two 8-bit integers. */
  ghost predicate IsByteAdd(x: Instr) { x.op.code == Add && x.op.ty == IntTy(8) && |x.args| == 2 && !x.op.dbg }

  /** A subtraction of two integers of any width. */
  ghost predicate IsSub(x: Instr) { x.op.code == Sub && x.op.ty.IntTy? && |x.args| == 2 && !x.op.dbg }

  /** s stands in the body from position i on. */
  ghost predicate HasAt(body: seq<Instr>, i: nat, s: seq<Instr>) { i + |s| <= |body| && body[i..i + |s|] == s }

  /** (((a ^ b) + 2 * (a & b)) * 39 + 23) * 151 + 111, in new registers from m on and at last in dst. */
  ghost function AddChain(dst: Reg, a: Operand, b: Operand, m: nat): seq<Instr> {
    [Instr(m, Op(Xor, IntTy(8), false, false, true, false), [a, b]),
     Instr(m + 1, Op(And, IntTy(8), false, false, true, false), [a, b]),
     Instr(m + 2, Op(Mul, IntTy(8), false, false, true, false), [Const(2), Ref(m + 1)]),
     Instr(m + 3, Op(Add, IntTy(8), false, false, true, false), [Ref(m), Ref(m + 2)]),
     Instr(m + 4, Op(Mul, IntTy(8), false, false, true, false), [Const(39), Ref(m + 3)]),
     Instr(m + 5, Op(Add, IntTy(8), false, false, true, false), [Const(23), Ref(m + 4)]),
     Instr(m + 6, Op(Mul, IntTy(8), false, false, true, false), [Const(151), Ref(m + 5)]),
     Instr(dst, Op(Add, IntTy(8), false, false, true, false), [Const(111), Ref(m + 6)])]
  }

  /** (a + ~b) + 1. */
  ghost function SubChain(dst: Reg, a: Operand, b: Operand, w: nat, m: nat): seq<Instr> {
    [Instr(m, Op(Xor, IntTy(w), false, false, true, false), [b, Const(-1)]),
     Instr(m + 1, Op(Add, IntTy(w), false, false, true, false), [a, Ref(m)]),
     Instr(dst, Op(Add, IntTy(w), false, false, true, false), [Ref(m + 1), Const(1)])]
  }

  ghost predicate ReplacedBy(rule: Rule, x: Instr) { if rule.AddRule? then IsByteAdd(x) else IsSub(x) }

  ghost function Chain(rule: Rule, x: Instr, m: nat): (s: seq<Instr>)
    requires ReplacedBy(rule, x)
  {
    if rule.AddRule? then AddChain(x.dst, x.args[0], x.args[1], m)
    else SubChain(x.dst, x.args[0], x.args[1], x.op.ty.width, m)
  }

  /** What takes the place of x, new registers from m on being free. */
  ghost function Place(rule: Rule, x: Instr, m: nat): seq<Instr> {
    if ReplacedBy(rule, x) then Chain(rule, x, m) else [x]
  }

  /** How many instructions come before the one that keeps the register. */
  ghost function Extra(rule: Rule, x: Instr): nat {
    if !ReplacedBy(rule, x) then 0 else if rule.AddRule? then 7 else 2
  }

  lemma ChainIs(rule: Rule, x: Instr, m: nat)
    ensures Matches(rule, x) <==> ReplacedBy(rule, x)
    ensures ReplacedBy(rule, x) ==> Expansion(rule, x, m) == Chain(rule, x, m) && Inserted(rule) == Extra(rule, x)
    ensures |Place(rule, x, m)| == 1 + Extra(rule, x)
  {
  }

  lemma HasAtAppend(p: seq<Instr>, q: seq<Instr>, s: seq<Instr>, i: nat, j: nat, x: seq<Instr>)
    requires s == p + q && HasAt(q, i, x) && j == |p| + i
    ensures HasAt(s, j, x)
  {
    assert s[j..j + |x|] == q[i..i + |x|];
  }

  /** The chains of the first i instructions, one after the other, and where the next one starts. */
  ghost function Before(rule: Rule, body: seq<Instr>, i: nat, n: nat): (nat, nat)
    requires i <= |body|
    decreases |body|
  {
    if i == 0 then (0, n)
    else
      var k := Extra(rule, body[0]);
      var t := Before(rule, body[1..], i - 1, n + k);
      (1 + k + t.0, t.1)
  }

  lemma {:induction false} BeforeIs(rule: Rule, body: seq<Instr>, i: nat, n: nat)
    requires i <= |body|
    ensures Before(rule, body, i, n).0 == i + Before(rule, body, i, n).1 - n && Before(rule, body, i, n).1 >= n
    decreases |body|
  {
    if i > 0 {
      BeforeIs(rule, body[1..], i - 1, n + Extra(rule, body[0]));
    }
  }

  lemma ExpandFirst(rule: Rule, body: seq<Instr>, n: nat)
    requires body != []
    ensures Expand(rule, body, n) == Place(rule, body[0], n) + Expand(rule, body[1..], n + Extra(rule, body[0]))
    ensures |Place(rule, body[0], n)| == 1 + Extra(rule, body[0])
  {
    ChainIs(rule, body[0], n);
  }

  lemma BeforeNext(rule: Rule, body: seq<Instr>, i: nat, n: nat) returns (j: nat, m: nat)
    requires 0 < i < |body|
    ensures (j, m) == Before(rule, body[1..], i - 1, n + Extra(rule, body[0]))
    ensures Before(rule, body, i, n) == (1 + Extra(rule, body[0]) + j, m) && body[1..][i - 1] == body[i]
  {
    var t := Before(rule, body[1..], i - 1, n + Extra(rule, body[0]));
    j, m := t.0, t.1;
  }

  /** In the expanded body the chains stand in the order of the instructions, and between them nothing
      but the instructions that are not replaced. */
  lemma {:induction false} ExpandedAt(rule: Rule, body: seq<Instr>, n: nat, i: nat)
    requires i < |body|
    ensures var t := Before(rule, body, i, n); HasAt(Expand(rule, body, n), t.0, Place(rule, body[i], t.1))
    decreases |body|
  {
    ExpandFirst(rule, body, n);
    var p, q := Place(rule, body[0], n), Expand(rule, body[1..], n + Extra(rule, body[0]));
    if i == 0 {
      assert (p + q)[0..|p|] == p;
    } else {
      ExpandedAt(rule, body[1..], n + Extra(rule, body[0]), i - 1);
      var j, m := BeforeNext(rule, body, i, n);
      HasAtAppend(p, q, Expand(rule, body, n), j, |p| + j, Place(rule, body[i], m));
    }
  }

  lemma {:induction false} ExpandedSize(rule: Rule, body: seq<Instr>, n: nat)
    ensures |Expand(rule, body, n)| == Before(rule, body, |body|, n).0
    decreases |body|
  {
    if body != [] {
      ExpandFirst(rule, body, n);
      ExpandedSize(rule, body[1..], n + Extra(rule, body[0]));
    }
  }

  // ----- The whole function -----

  /** Each block of g is a block of f with every instruction in its place. */
  ghost predicate InPlace(rule: Rule, b: Block, b': Block, n: nat) {
    && b'.phis == b.phis && b'.term == b.term
    && |b'.body| == Before(rule, b.body, |b.body|, n).0
    && forall i :: 0 <= i < |b.body| ==>
      HasAt(b'.body, Before(rule, b.body, i, n).0, Place(rule, b.body[i], Before(rule, b.body, i, n).1))
  }

  lemma BlockInPlace(rule: Rule, b: Block, n: nat)
    ensures InPlace(rule, b, ExpandBlock(rule, b, n), n)
  {
    forall i | 0 <= i < |b.body|
      ensures HasAt(Expand(rule, b.body, n), Before(rule, b.body, i, n).0, Place(rule, b.body[i], Before(rule, b.body, i, n).1))
    {
      ExpandedAt(rule, b.body, n, i);
    }
    ExpandedSize(rule, b.body, n);
  }

  ghost predicate ExpandedFrom(rule: Rule, f: Func, g: Func, n: nat, l: Label)
    requires l in f.blocks && l in g.blocks
  {
    exists k :: k >= n && InPlace(rule, f.blocks[l], g.blocks[l], k)
  }

  lemma ExpandLast(rule: Rule, f: Func, ls: seq<Label>, m: Label, n: nat)
    requires (forall l :: l in ls ==> l in f.blocks) && m in f.blocks
    ensures forall l :: l in ls + [m] ==> l in f.blocks
    ensures var t, u := ExpandBlocks(rule, f, ls, n), ExpandBlocks(rule, f, ls + [m], n);
      u.0.blocks == t.0.blocks[m := ExpandBlock(rule, t.0.blocks[m], t.1)] && u.1 >= t.1
  {
    assert (ls + [m])[..|ls|] == ls;
  }

  /** Every block that the pass visits is expanded, the others are as they were. */
  lemma {:induction false} AllExpanded(rule: Rule, f: Func, ls: seq<Label>, n: nat)
    requires (forall l :: l in ls ==> l in f.blocks) && forall i, j :: 0 <= i < j < |ls| ==> ls[i] != ls[j]
    ensures ExpandBlocks(rule, f, ls, n).1 >= n
    ensures forall l :: l in f.blocks && l in ls ==> ExpandedFrom(rule, f, ExpandBlocks(rule, f, ls, n).0, n, l)
    ensures forall l :: l in f.blocks && l !in ls ==> ExpandBlocks(rule, f, ls, n).0.blocks[l] == f.blocks[l]
    decreases |ls|
  {
    if ls != [] {
      var ks, m := ls[..|ls| - 1], ls[|ls| - 1];
      assert ls == ks + [m];
      AllExpanded(rule, f, ks, n);
      ExpandLast(rule, f, ks, m, n);
      BlockInPlace(rule, f.blocks[m], ExpandBlocks(rule, f, ks, n).1);
    }
  }

  /** After MBAAdd, in every block, each addition of two 8-bit integers is the chain of eight
      instructions that ends in its register. */
  lemma EveryByteAddExpanded(f: Func, n: nat, l: Label, i: nat)
    requires Shape(f) && l in f.blocks && i < |f.blocks[l].body| && IsByteAdd(f.blocks[l].body[i])
    ensures var g, x := ExpandBlocks(AddRule, f, f.order, n).0, f.blocks[l].body[i];
      exists j, m :: m >= n && HasAt(g.blocks[l].body, j, AddChain(x.dst, x.args[0], x.args[1], m))
  {
    var g, b := ExpandBlocks(AddRule, f, f.order, n).0, f.blocks[l];
    AllExpanded(AddRule, f, f.order, n);
    var k :| k >= n && InPlace(AddRule, b, g.blocks[l], k);
    var t := Before(AddRule, b.body, i, k);
    BeforeIs(AddRule, b.body, i, k);
    assert HasAt(g.blocks[l].body, t.0, Place(AddRule, b.body[i], t.1));
  }

  lemma EverySubExpanded(f: Func, n: nat, l: Label, i: nat)
    requires Shape(f) && l in f.blocks && i < |f.blocks[l].body| && IsSub(f.blocks[l].body[i])
    ensures var g, x := ExpandBlocks(SubRule, f, f.order, n).0, f.blocks[l].body[i];
      exists j, m :: m >= n && HasAt(g.blocks[l].body, j, SubChain(x.dst, x.args[0], x.args[1], x.op.ty.width, m))
  {
    var g, b := ExpandBlocks(SubRule, f, f.order, n).0, f.blocks[l];
    AllExpanded(SubRule, f, f.order, n);
    var k :| k >= n && InPlace(SubRule, b, g.blocks[l], k);
    var t := Before(SubRule, b.body, i, k);
    BeforeIs(SubRule, b.body, i, k);
    assert HasAt(g.blocks[l].body, t.0, Place(SubRule, b.body[i], t.1));
  }

  lemma HasOne(body: seq<Instr>, i: nat, x: Instr)
    requires HasAt(body, i, [x])
    ensures x in body
  {
    assert body[i..i + 1][0] == x;
  }

  /** What the rule does not replace stays as it is. */
  lemma OthersStay(rule: Rule, f: Func, n: nat, l: Label, i: nat)
    requires Shape(f) && l in f.blocks && i < |f.blocks[l].body| && !ReplacedBy(rule, f.blocks[l].body[i])
    ensures f.blocks[l].body[i] in ExpandBlocks(rule, f, f.order, n).0.blocks[l].body
  {
    var b, b' := f.blocks[l], ExpandBlocks(rule, f, f.order, n).0.blocks[l];
    AllExpanded(rule, f, f.order, n);
    var k :| k >= n && InPlace(rule, b, b', k);
    var t := Before(rule, b.body, i, k);
    assert HasAt(b'.body, t.0, Place(rule, b.body[i], t.1));
    HasOne(b'.body, t.0, b.body[i]);
  }

  lemma {:induction false} NoSubIn(body: seq<Instr>, n: nat)
    ensures forall x :: x in Expand(SubRule, body, n) ==> !IsSub(x)
    decreases body
  {
    if body != [] {
      ChainIs(SubRule, body[0], n);
      NoSubIn(body[1..], if IsSub(body[0]) then n + 2 else n);
      var s := Place(SubRule, body[0], n);
      assert forall x :: x in s ==> !IsSub(x);
    }
  }

  /** After MBASub no subtraction of integers is left, of whatever width. */
  lemma {:induction false} NoSubAnywhere(f: Func, ls: seq<Label>, n: nat, l: Label)
    requires (forall l :: l in ls ==> l in f.blocks) && (forall i, j :: 0 <= i < j < |ls| ==> ls[i] != ls[j]) && l in ls
    ensures forall x :: x in ExpandBlocks(SubRule, f, ls, n).0.blocks[l].body ==> !IsSub(x)
    decreases |ls|
  {
    var i := |ls| - 1;
    var t := ExpandBlocks(SubRule, f, ls[..i], n);
    assert ls == ls[..i] + [ls[i]];
    if l == ls[i] {
      NoSubIn(t.0.blocks[l].body, t.1);
    } else {
      NoSubAnywhere(f, ls[..i], n, l);
    }
  }
}
