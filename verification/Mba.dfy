/** The MBAAdd and MBASub passes: the in-place code, proved against MbaSpec. */
module Mba {
  import opened IR
  import opened FunctionState
  import opened MbaSpec

  /** The walk over a body: what is before position i is expanded, what follows is still as it was. */
  ghost predicate WalkPoint(rule: Rule, was: seq<Instr>, n: nat, body: seq<Instr>, i: nat, j: nat, k: nat) {
    && i <= |body| && j <= |was| && body[i..] == was[j..]
    && Expand(rule, was, n) == body[..i] + Expand(rule, was[j..], k)
    && n + Used(rule, was) == k + Used(rule, was[j..])
  }

  lemma WalkSkips(rule: Rule, was: seq<Instr>, n: nat, body: seq<Instr>, i: nat, j: nat, k: nat)
    requires WalkPoint(rule, was, n, body, i, j, k) && i < |body| && !Matches(rule, body[i])
    ensures WalkPoint(rule, was, n, body, i + 1, j + 1, k) && was[j] == body[i]
  {
    assert was[j..][0] == body[i..][0] == body[i] && was[j..][1..] == was[j + 1..] && body[i..][1..] == body[i + 1..];
    assert body[..i + 1] == body[..i] + [body[i]];
  }

  lemma WalkReplaces(rule: Rule, was: seq<Instr>, n: nat, body: seq<Instr>, i: nat, j: nat, k: nat, s: seq<Instr>)
    requires WalkPoint(rule, was, n, body, i, j, k) && i < |body| && Matches(rule, body[i]) && s == Expansion(rule, body[i], k)
    ensures WalkPoint(rule, was, n, body[..i] + s + body[i + 1..], i + |s|, j + 1, k + Inserted(rule)) && was[j] == body[i]
  {
    var after := body[..i] + s + body[i + 1..];
    assert was[j..][0] == body[i..][0] == body[i] && was[j..][1..] == was[j + 1..] && body[i..][1..] == body[i + 1..];
    assert after[i + |s|..] == body[i + 1..] && after[..i + |s|] == body[..i] + s;
  }

  lemma WalkEnds(rule: Rule, was: seq<Instr>, n: nat, body: seq<Instr>, i: nat, j: nat, k: nat)
    requires WalkPoint(rule, was, n, body, i, j, k) && i == |body|
    ensures body == Expand(rule, was, n) && k == n + Used(rule, was)
  {
    assert body[i..] == [] && |was[j..]| == 0 && was[j..] == [];
    assert body[..i] == body && body + [] == body;
  }

  lemma WalkShrinks(rule: Rule, was: seq<Instr>, n: nat, body: seq<Instr>, i: nat, j: nat, k: nat)
    requires WalkPoint(rule, was, n, body, i, j, k) && i < |body|
    ensures j < |was|
  {
    assert |was[j..]| == |body[i..]|;
  }

  lemma WalkStarts(rule: Rule, was: seq<Instr>, n: nat)
    ensures WalkPoint(rule, was, n, was, 0, 0, n)
  {
    assert was[0..] == was && was[..0] == [];
  }

  /** One instruction: if it matches, new ones go before it, and the last of them takes its place and
      its register; the walk goes on after it, so it never looks at an instruction it inserted. */
  method RewriteAt(ir: FunctionIR, bb: Label, rule: Rule, i: nat, k: nat, ghost was: seq<Instr>, ghost n: nat, ghost j: nat)
    returns (i': nat, k': nat)
    requires bb in ir.blocks && i < |ir.blocks[bb].body| && WalkPoint(rule, was, n, ir.blocks[bb].body, i, j, k)
    modifies ir`blocks
    ensures bb in ir.blocks && ir.blocks == old(ir.blocks)[bb := old(ir.blocks)[bb].(body := ir.blocks[bb].body)]
    ensures j < |was| && WalkPoint(rule, was, n, ir.blocks[bb].body, i', j + 1, k') && k <= k'
  {
    var body := ir.blocks[bb].body;
    WalkShrinks(rule, was, n, body, i, j, k);
    if !Matches(rule, body[i]) {
      WalkSkips(rule, was, n, body, i, j, k);
      return i + 1, k;
    }
    var newInsts := Expansion(rule, body[i], k);
    WalkReplaces(rule, was, n, body, i, j, k, newInsts);
    ir.blocks := ir.blocks[bb := ir.blocks[bb].(body := body[..i] + newInsts + body[i + 1..])];
    return i + |newInsts|, k + Inserted(rule);
  }

  /** MBAAdd::runOnBasicBlock and MBASub::runOnBasicBlock. */
  method RunOnBasicBlock(ir: FunctionIR, bb: Label, rule: Rule, n: nat) returns (changed: bool, n': nat)
    requires bb in ir.blocks
    modifies ir`blocks
    ensures ir.blocks == old(ir.blocks)[bb := ExpandBlock(rule, old(ir.blocks)[bb], n)]
    ensures n' == n + Used(rule, old(ir.blocks)[bb].body)
    ensures changed <==> Used(rule, old(ir.blocks)[bb].body) > 0
  {
    ghost var was := ir.blocks[bb];
    n' := n;
    var i: nat := 0;
    ghost var j: nat := 0;
    WalkStarts(rule, was.body, n);
    while i < |ir.blocks[bb].body|
      invariant bb in ir.blocks && ir.blocks == old(ir.blocks)[bb := was.(body := ir.blocks[bb].body)]
      invariant WalkPoint(rule, was.body, n, ir.blocks[bb].body, i, j, n') && n <= n'
      decreases |was.body| - j
    {
      i, n' := RewriteAt(ir, bb, rule, i, n', was.body, n, j);
      j := j + 1;
    }
    WalkEnds(rule, was.body, n, ir.blocks[bb].body, i, j, n');
    changed := n' > n;
  }

  lemma NothingExpanded(rule: Rule, b: Block, n: nat)
    ensures Used(rule, b.body) == 0 ==> ExpandBlock(rule, b, n) == b
  {
    ExpandedLength(rule, b.body, n);
  }

  /** One more block. */
  lemma ExpandNext(rule: Rule, f: Func, ls: seq<Label>, n: nat, i: nat, t: (Func, nat)) returns (u: (Func, nat))
    requires (forall l :: l in ls ==> l in f.blocks) && i < |ls| && (forall l :: l in ls[..i] ==> l in f.blocks)
    requires t == ExpandBlocks(rule, f, ls[..i], n)
    ensures (forall l :: l in ls[..i + 1] ==> l in f.blocks) && u == ExpandBlocks(rule, f, ls[..i + 1], n)
    ensures ls[i] in t.0.blocks && u.0.order == t.0.order
    ensures u.0.blocks == t.0.blocks[ls[i] := ExpandBlock(rule, t.0.blocks[ls[i]], t.1)]
    ensures u.1 == t.1 + Used(rule, t.0.blocks[ls[i]].body)
    ensures Used(rule, t.0.blocks[ls[i]].body) == 0 ==> u.0 == t.0
  {
    u := ExpandBlocks(rule, f, ls[..i + 1], n);
    assert ls[..i + 1][..i] == ls[..i];
    NothingExpanded(rule, t.0.blocks[ls[i]], t.1);
  }

  /** MBAAdd::run and MBASub::run. */
  method Run(ir: FunctionIR, rule: Rule, n: nat) returns (changed: bool, n': nat)
    requires Shape(ir.Value())
    modifies ir`blocks
    ensures (ir.Value(), n') == ExpandBlocks(rule, old(ir.Value()), old(ir.order), n)
    ensures !changed ==> ir.Value() == old(ir.Value())
  {
    changed, n' := false, n;
    ghost var f := ir.Value();
    ghost var t := (f, n);
    for i := 0 to |ir.order|
      invariant t == ExpandBlocks(rule, f, f.order[..i], n)
      invariant ir.Value() == t.0 && n' == t.1
      invariant !changed ==> t.0 == f
    {
      ghost var u := ExpandNext(rule, f, f.order, n, i, t);
      var c;
      c, n' := RunOnBasicBlock(ir, ir.order[i], rule, n');
      changed := changed || c;
      t := u;
    }
    assert f.order[..|f.order|] == f.order;
  }
}
