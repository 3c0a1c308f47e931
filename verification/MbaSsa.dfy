/** MBAAdd and MBASub keep a function verified. */
module MbaSsa {
  import opened IR
  import opened Paths
  import opened Renaming
  import opened StrictSsa
  import opened BlockRewrite
  import opened MbaSpec

  // ----- Reads -----

  lemma Cons(k: iset<Reg>, x: Instr, rest: seq<Instr>)
    ensures After(k, [x] + rest) == After(k + MadeBy(x), rest)
    ensures DefUse(k, [x] + rest) <==> (x.op.dbg || ReadsIn(k, x.args)) && DefUse(k + MadeBy(x), rest)
  {
    assert ([x] + rest)[1..] == rest;
  }

  /** Three instructions, each reading k or the ones before. */
  lemma ThreeReads(k: iset<Reg>, x: Instr, y: Instr, z: Instr)
    requires Makes(x) && Makes(y) && Makes(z)
    requires ReadsIn(k, x.args) && ReadsIn(k + iset{x.dst}, y.args) && ReadsIn(k + iset{x.dst} + iset{y.dst}, z.args)
    ensures DefUse(k, [x, y, z]) && k <= After(k, [x, y, z]) && z.dst in After(k, [x, y, z])
  {
    Cons(k, x, [y, z]);
    Cons(k + MadeBy(x), y, [z]);
    OneInstr(k + MadeBy(x) + MadeBy(y), z);
    assert [x] + [y, z] == [x, y, z] && [y] + [z] == [y, z];
  }

  lemma FourReads(k: iset<Reg>, u: Instr, x: Instr, y: Instr, z: Instr)
    requires Makes(u) && Makes(x) && Makes(y) && Makes(z)
    requires ReadsIn(k, u.args) && ReadsIn(k + iset{u.dst}, x.args) && ReadsIn(k + iset{u.dst} + iset{x.dst}, y.args)
    requires ReadsIn(k + iset{u.dst} + iset{x.dst} + iset{y.dst}, z.args)
    ensures DefUse(k, [u, x, y, z]) && k <= After(k, [u, x, y, z]) && z.dst in After(k, [u, x, y, z])
  {
    Cons(k, u, [x, y, z]);
    ThreeReads(k + MadeBy(u), x, y, z);
    assert [u] + [x, y, z] == [u, x, y, z];
  }

  lemma SumReads(k: iset<Reg>, a: Operand, b: Operand, n: nat)
    requires ReadsIn(k, [a, b])
    ensures DefUse(k, SumPart(a, b, n)) && k <= After(k, SumPart(a, b, n)) && n + 3 in After(k, SumPart(a, b, n))
  {
    var s := SumPart(a, b, n);
    FourReads(k, s[0], s[1], s[2], s[3]);
  }

  lemma AffineReads(k: iset<Reg>, d: Reg, n: nat)
    requires n + 3 in k
    ensures DefUse(k, AffinePart(d, n)) && k <= After(k, AffinePart(d, n)) && d in After(k, AffinePart(d, n))
  {
    var s := AffinePart(d, n);
    FourReads(k, s[0], s[1], s[2], s[3]);
  }

  lemma AddReads(k: iset<Reg>, d: Reg, a: Operand, b: Operand, n: nat)
    requires ReadsIn(k, [a, b])
    ensures DefUse(k, AddExpansion(d, a, b, n)) && k <= After(k, AddExpansion(d, a, b, n)) && d in After(k, AddExpansion(d, a, b, n))
  {
    SumReads(k, a, b, n);
    AffineReads(After(k, SumPart(a, b, n)), d, n);
    DefUseAppend(k, SumPart(a, b, n), AffinePart(d, n));
  }

  lemma SubReads(k: iset<Reg>, d: Reg, a: Operand, b: Operand, w: nat, n: nat)
    requires ReadsIn(k, [a, b])
    ensures DefUse(k, SubExpansion(d, a, b, w, n)) && k <= After(k, SubExpansion(d, a, b, w, n)) && d in After(k, SubExpansion(d, a, b, w, n))
  {
    var s := SubExpansion(d, a, b, w, n);
    assert [a, b][0] == a && [a, b][1] == b;
    ThreeReads(k, s[0], s[1], s[2]);
  }

  /** An expansion reads what its instruction read, and leaves its register with a value. */
  lemma ExpansionReads(rule: Rule, x: Instr, n: nat, k: iset<Reg>)
    requires Matches(rule, x) && ReadsIn(k, x.args)
    ensures DefUse(k, Expansion(rule, x, n)) && k + iset{x.dst} <= After(k, Expansion(rule, x, n))
  {
    assert x.args == [x.args[0], x.args[1]];
    if rule.AddRule? {
      AddReads(k, x.dst, x.args[0], x.args[1], n);
    } else {
      SubReads(k, x.dst, x.args[0], x.args[1], x.op.ty.width, n);
    }
  }

  lemma {:induction false} ExpandReads(rule: Rule, body: seq<Instr>, n: nat, k: iset<Reg>, k': iset<Reg>)
    requires DefUse(k, body) && k <= k'
    ensures DefUse(k', Expand(rule, body, n)) && After(k, body) <= After(k', Expand(rule, body, n))
    decreases body
  {
    if body != [] {
      var x, rest := body[0], body[1..];
      if Matches(rule, x) {
        ExpansionReads(rule, x, n, k');
        ExpandReads(rule, rest, n + Inserted(rule), k + MadeBy(x), After(k', Expansion(rule, x, n)));
        DefUseAppend(k', Expansion(rule, x, n), Expand(rule, rest, n + Inserted(rule)));
      } else {
        ExpandReads(rule, rest, n, k + MadeBy(x), k' + MadeBy(x));
        Cons(k', x, Expand(rule, rest, n));
      }
    }
  }

  // ----- Definitions -----

  /** Registers of the body, or from n up to k. */
  ghost predicate NewOrOld(body: seq<Instr>, body': seq<Instr>, n: nat, k: nat) {
    forall i :: 0 <= i < |body'| ==> n <= body'[i].dst < k || Writes(body, body'[i].dst)
  }

  ghost predicate Writes(body: seq<Instr>, r: Reg) { exists j :: 0 <= j < |body| && body[j].dst == r }

  lemma ExpansionDsts(rule: Rule, x: Instr, n: nat)
    requires Matches(rule, x) && x.dst < n
    ensures DistinctDsts(Expansion(rule, x, n))
    ensures forall i :: 0 <= i < |Expansion(rule, x, n)| ==>
      Expansion(rule, x, n)[i].dst == x.dst || n <= Expansion(rule, x, n)[i].dst < n + Inserted(rule)
  {
  }

  lemma DistinctAppend(s: seq<Instr>, t: seq<Instr>)
    requires DistinctDsts(s) && DistinctDsts(t) && forall i, j :: 0 <= i < |s| && 0 <= j < |t| ==> s[i].dst != t[j].dst
    ensures DistinctDsts(s + t)
  {
  }

  lemma {:induction false} ExpandDsts(rule: Rule, body: seq<Instr>, lo: nat, n: nat)
    requires DistinctDsts(body) && lo <= n && forall i :: 0 <= i < |body| ==> body[i].dst < lo
    ensures DistinctDsts(Expand(rule, body, n)) && NewOrOld(body, Expand(rule, body, n), n, n + Used(rule, body))
    decreases body
  {
    if body != [] {
      var x, rest := body[0], body[1..];
      var m := if Matches(rule, x) then n + Inserted(rule) else n;
      var s, t := if Matches(rule, x) then Expansion(rule, x, n) else [x], Expand(rule, rest, m);
      ExpandDsts(rule, rest, lo, m);
      if Matches(rule, x) {
        ExpansionDsts(rule, x, n);
      }
      forall j | 0 <= j < |t|
        ensures m <= t[j].dst < n + Used(rule, body) || (t[j].dst < lo && t[j].dst != x.dst && Writes(body, t[j].dst))
      {
        WritesRest(body, t[j].dst);
      }
      DistinctAppend(s, t);
      assert Writes(body, x.dst);
    }
  }

  lemma WritesRest(body: seq<Instr>, r: Reg)
    requires body != [] && DistinctDsts(body)
    ensures Writes(body[1..], r) ==> Writes(body, r) && r != body[0].dst && exists j :: 0 <= j < |body| && body[j].dst == r
  {
    if Writes(body[1..], r) {
      var j :| 0 <= j < |body[1..]| && body[1..][j].dst == r;
      assert body[j + 1].dst == r;
    }
  }

  /** Every original instruction with a value still gives its register one. */
  lemma {:induction false} ExpandKeeps(rule: Rule, body: seq<Instr>, n: nat, i: nat) returns (j: nat)
    requires i < |body| && Makes(body[i])
    ensures j < |Expand(rule, body, n)| && Expand(rule, body, n)[j].dst == body[i].dst && Makes(Expand(rule, body, n)[j])
    decreases body
  {
    var m := if Matches(rule, body[0]) then Inserted(rule) else 0;
    if i == 0 {
      j := m;
    } else {
      j := ExpandKeeps(rule, body[1..], n + m, i - 1);
      j := j + m + 1;
    }
  }

  // ----- One block -----

  lemma BodyOf(f: Func, l: Label, n: nat)
    requires UniqueDefs(f) && RegsBelow(f, n) && l in f.blocks
    ensures DistinctDsts(f.blocks[l].body)
    ensures forall i :: 0 <= i < |f.blocks[l].body| ==> f.blocks[l].body[i].dst < n
    ensures forall i, j :: 0 <= i < |f.blocks[l].phis| && 0 <= j < |f.blocks[l].body| ==> f.blocks[l].phis[i].dst != f.blocks[l].body[j].dst
    ensures forall i, j :: 0 <= i < j < |f.blocks[l].phis| ==> f.blocks[l].phis[i].dst != f.blocks[l].phis[j].dst
  {
    BlockDefsDistinct(f, l);
    DistinctBody(f.blocks[l]);
    assert BlockBelow(f.blocks[l], n);
  }

  lemma WritesDst(b: Block, r: Reg)
    requires Writes(b.body, r)
    ensures HasDst(b, r)
  {
    var j :| 0 <= j < |b.body| && b.body[j].dst == r;
    assert DstAt(b, |b.phis| + j) == r;
  }

  lemma ExpandedDsts(rule: Rule, f: Func, l: Label, n: nat)
    requires UniqueDefs(f) && RegsBelow(f, n) && l in f.blocks
    ensures DstsFrom(f.blocks[l], ExpandBlock(rule, f.blocks[l], n), n)
  {
    var b, b' := f.blocks[l], ExpandBlock(rule, f.blocks[l], n);
    BodyOf(f, l, n);
    ExpandDsts(rule, b.body, n, n);
    assert BlockBelow(b, n);
    var m := |b.phis|;
    forall i | 0 <= i < Count(b')
      ensures DstAt(b', i) >= n || HasDst(b, DstAt(b', i))
    {
      if i < m {
        assert DstAt(b, i) == DstAt(b', i);
      } else if DstAt(b', i) < n {
        assert b'.body[i - m].dst < n;
        WritesDst(b, DstAt(b', i));
      }
    }
    forall i, j | 0 <= i < j < Count(b')
      ensures DstAt(b', i) != DstAt(b', j)
    {
      if i < m <= j && DstAt(b', j) < n {
        assert b'.body[j - m].dst < n;
        var h :| 0 <= h < |b.body| && b.body[h].dst == DstAt(b', j);
      }
    }
  }

  lemma ExpandedKeeps(rule: Rule, b: Block, n: nat)
    ensures Keeps(b, ExpandBlock(rule, b, n))
  {
    var b', m := ExpandBlock(rule, b, n), |b.phis|;
    forall r | Gives(b, r)
      ensures Gives(b', r)
    {
      var j :| 0 <= j < Count(b) && DstAt(b, j) == r && TyAt(b, j) != Void && !DbgAt(b, j);
      if j < m {
        assert DstAt(b', j) == r;
      } else {
        var h := ExpandKeeps(rule, b.body, n, j - m);
        assert DstAt(b', m + h) == r;
      }
    }
  }

  lemma ExpandedDefUse(rule: Rule, f: Func, l: Label, n: nat)
    requires f.order != [] && RefsDefined(f) && l in f.blocks && BodySsa(f, l)
    ensures var b' := ExpandBlock(rule, f.blocks[l], n);
      BlockReadsIn(Entering(Replaced(f, l, b'), l), b') && DefUse(Defined(Replaced(f, l, b')), b'.body)
  {
    var b, b' := f.blocks[l], ExpandBlock(rule, f.blocks[l], n);
    ExpandedKeeps(rule, b, n);
    BodySsaIs(f, l);
    ReplacedEntering(f, l, b', l);
    ExpandReads(rule, b.body, n, Entering(f, l), Entering(Replaced(f, l, b'), l));
    UsesAreDefined(f, l);
    forall r | r in Defined(f)
      ensures r in Defined(Replaced(f, l, b'))
    {
      ReplacedCarries(f, l, b', r);
    }
    ReadsOnlyDefUse(Defined(f), b.body);
    ExpandReads(rule, b.body, n, Defined(f), Defined(Replaced(f, l, b')));
  }

  lemma {:induction false} ExpandBelow(rule: Rule, body: seq<Instr>, lo: nat, n: nat, hi: nat)
    requires BodyBelow(body, lo) && lo <= n && n + Used(rule, body) <= hi
    ensures BodyBelow(Expand(rule, body, n), hi)
    decreases body
  {
    if body != [] {
      var x, rest := body[0], body[1..];
      assert OperandsBelow(x.args, lo);
      if Matches(rule, x) {
        ExpansionBelow(rule, x, lo, n, hi);
        ExpandBelow(rule, rest, lo, n + Inserted(rule), hi);
      } else {
        ExpandBelow(rule, rest, lo, n, hi);
      }
    }
  }

  lemma ExpansionBelow(rule: Rule, x: Instr, lo: nat, n: nat, hi: nat)
    requires Matches(rule, x) && x.dst < lo <= n && n + Inserted(rule) <= hi && OperandsBelow(x.args, lo)
    ensures BodyBelow(Expansion(rule, x, n), hi)
  {
  }

  lemma ExpandedBelow(rule: Rule, f: Func, l: Label, n: nat)
    requires RegsBelow(f, n) && l in f.blocks
    ensures RegsBelow(Replaced(f, l, ExpandBlock(rule, f.blocks[l], n)), n + Used(rule, f.blocks[l].body))
  {
    var b, k := f.blocks[l], n + Used(rule, f.blocks[l].body);
    forall m | m in f.blocks
      ensures BlockBelow(Replaced(f, l, ExpandBlock(rule, b, n)).blocks[m], k)
    {
      BelowMore(f.blocks[m], n, k);
      if m == l {
        ExpandBelow(rule, b.body, n, n, k);
      }
    }
  }

  /** The IR verifier accepts a function with one expanded block. */
  lemma OneExpanded(rule: Rule, f: Func, l: Label, n: nat)
    requires Verified(f) && RegsBelow(f, n) && l in f.blocks
    ensures Verified(Replaced(f, l, ExpandBlock(rule, f.blocks[l], n)))
  {
    ExpandedDsts(rule, f, l, n);
    ExpandedKeeps(rule, f.blocks[l], n);
    ExpandedDefUse(rule, f, l, n);
    ReplacedVerified(f, l, ExpandBlock(rule, f.blocks[l], n), n);
  }

  lemma ExpandLast(rule: Rule, f: Func, ls: seq<Label>, n: nat) returns (g: Func, k: nat, l: Label)
    requires (forall l :: l in ls ==> l in f.blocks) && ls != []
    ensures (g, k) == ExpandBlocks(rule, f, ls[..|ls| - 1], n) && l in g.blocks
    ensures ExpandBlocks(rule, f, ls, n) == (Replaced(g, l, ExpandBlock(rule, g.blocks[l], k)), k + Used(rule, g.blocks[l].body))
  {
    l := ls[|ls| - 1];
    var t := ExpandBlocks(rule, f, ls[..|ls| - 1], n);
    g, k := t.0, t.1;
  }

  lemma {:induction false} AllBelow(rule: Rule, f: Func, ls: seq<Label>, n: nat)
    requires RegsBelow(f, n) && forall l :: l in ls ==> l in f.blocks
    ensures var t := ExpandBlocks(rule, f, ls, n); RegsBelow(t.0, t.1)
    decreases |ls|
  {
    if ls != [] {
      AllBelow(rule, f, ls[..|ls| - 1], n);
      var g, k, l := ExpandLast(rule, f, ls, n);
      ExpandedBelow(rule, g, l, k);
    }
  }

  /** The IR verifier accepts what MBAAdd and MBASub make of a function it accepts. */
  lemma {:induction false} MbaVerified(rule: Rule, f: Func, ls: seq<Label>, n: nat)
    requires Verified(f) && RegsBelow(f, n) && forall l :: l in ls ==> l in f.blocks
    ensures Verified(ExpandBlocks(rule, f, ls, n).0)
    decreases |ls|
  {
    if ls != [] {
      MbaVerified(rule, f, ls[..|ls| - 1], n);
      AllBelow(rule, f, ls[..|ls| - 1], n);
      var g, k, l := ExpandLast(rule, f, ls, n);
      OneExpanded(rule, g, l, k);
    }
  }
}
