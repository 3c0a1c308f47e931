/** Replacing registers in operands. */
module Renaming {
  import opened IR

  function Image(m: map<Reg, Reg>, r: Reg): Reg { if r in m then m[r] else r }

  function SubOp(m: map<Reg, Reg>, x: Operand): Operand {
    if x.Ref? then Ref(Image(m, x.r)) else x
  }

  function SubOps(m: map<Reg, Reg>, xs: seq<Operand>): (ys: seq<Operand>)
    ensures |ys| == |xs|
  {
    seq(|xs|, i requires 0 <= i < |xs| => SubOp(m, xs[i]))
  }

  function SubInstr(m: map<Reg, Reg>, i: Instr): Instr { i.(args := SubOps(m, i.args)) }

  function SubBody(m: map<Reg, Reg>, body: seq<Instr>): (b: seq<Instr>)
    ensures |b| == |body|
  {
    seq(|body|, i requires 0 <= i < |body| => SubInstr(m, body[i]))
  }

  function SubIncoming(m: map<Reg, Reg>, inc: seq<(Label, Operand)>): (r: seq<(Label, Operand)>)
    ensures |r| == |inc|
  {
    seq(|inc|, i requires 0 <= i < |inc| => (inc[i].0, SubOp(m, inc[i].1)))
  }

  function SubPhis(m: map<Reg, Reg>, phis: seq<Phi>): (r: seq<Phi>)
    ensures |r| == |phis|
  {
    seq(|phis|, i requires 0 <= i < |phis| => phis[i].(incoming := SubIncoming(m, phis[i].incoming)))
  }

  function SubTerm(m: map<Reg, Reg>, t: Term): Term { t.(uses := SubOps(m, t.uses)) }

  function SubBlock(m: map<Reg, Reg>, b: Block): Block {
    Block(SubPhis(m, b.phis), SubBody(m, b.body), SubTerm(m, b.term))
  }

  lemma {:induction false} SubIncomingIs(m: map<Reg, Reg>, inc: seq<(Label, Operand)>, p: Label)
    ensures Incoming(SubIncoming(m, inc), p) == SubOp(m, Incoming(inc, p))
  {
    if inc != [] {
      assert SubIncoming(m, inc)[1..] == SubIncoming(m, inc[1..]);
      SubIncomingIs(m, inc[1..], p);
    }
  }

  // ----- Registers below a bound -----

  ghost predicate OperandsBelow(xs: seq<Operand>, n: nat) {
    forall i :: 0 <= i < |xs| && xs[i].Ref? ==> xs[i].r < n
  }

  ghost predicate IncomingBelow(inc: seq<(Label, Operand)>, n: nat) {
    forall i :: 0 <= i < |inc| && inc[i].1.Ref? ==> inc[i].1.r < n
  }

  ghost predicate BodyBelow(body: seq<Instr>, n: nat) {
    forall i :: 0 <= i < |body| ==> body[i].dst < n && OperandsBelow(body[i].args, n)
  }

  ghost predicate BlockBelow(b: Block, n: nat) {
    && BodyBelow(b.body, n) && OperandsBelow(b.term.uses, n)
    && (forall i :: 0 <= i < |b.phis| ==> b.phis[i].dst < n && IncomingBelow(b.phis[i].incoming, n))
  }

  /** Registers from n on are free. */
  ghost predicate RegsBelow(f: Func, n: nat) { forall l :: l in f.blocks ==> BlockBelow(f.blocks[l], n) }

  lemma BelowMore(b: Block, n: nat, k: nat)
    requires BlockBelow(b, n) && n <= k
    ensures BlockBelow(b, k)
  {
    forall i | 0 <= i < |b.phis|
      ensures IncomingBelow(b.phis[i].incoming, k)
    {
      assert IncomingBelow(b.phis[i].incoming, n);
    }
    forall i | 0 <= i < |b.body|
      ensures OperandsBelow(b.body[i].args, k)
    {
      assert OperandsBelow(b.body[i].args, n);
    }
  }

  function Range(a: nat, b: nat): (s: set<Reg>)
    ensures forall r: nat :: r in s <==> a <= r < b
    decreases b
  {
    if a < b then Range(a, b - 1) + {b - 1} else {}
  }
}
