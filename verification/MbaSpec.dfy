/** What MBAAdd and MBASub turn a function into. */
module MbaSpec {
  import opened IR
  import opened Renaming

  /** MBAAdd rewrites 8-bit additions, MBASub integer subtractions of every width. */
  datatype Rule = AddRule | SubRule

  predicate Matches(rule: Rule, x: Instr) {
    && |x.args| == 2 && !x.op.dbg && x.op.ty.IntTy?
    && if rule.AddRule? then x.op.code == Add && x.op.ty.width == 8 else x.op.code == Sub
  }

  /** How many instructions go before the one that takes the original's place. */
  function Inserted(rule: Rule): nat { if rule.AddRule? then 7 else 2 }

  /** (a ^ b) + 2 * (a & b) in register n + 3. */
  function SumPart(a: Operand, b: Operand, n: nat): seq<Instr> {
    [Instr(n, Arith(Xor, 8), [a, b]),
     Instr(n + 1, Arith(And, 8), [a, b]),
     Instr(n + 2, Arith(Mul, 8), [Const(2), Ref(n + 1)]),
     Instr(n + 3, Arith(Add, 8), [Ref(n), Ref(n + 2)])]
  }

  /** (s * 39 + 23) * 151 + 111 for the s in register n + 3. */
  function AffinePart(dst: Reg, n: nat): seq<Instr> {
    [Instr(n + 4, Arith(Mul, 8), [Const(39), Ref(n + 3)]),
     Instr(n + 5, Arith(Add, 8), [Const(23), Ref(n + 4)]),
     Instr(n + 6, Arith(Mul, 8), [Const(151), Ref(n + 5)]),
     Instr(dst, Arith(Add, 8), [Const(111), Ref(n + 6)])]
  }

  function AddExpansion(dst: Reg, a: Operand, b: Operand, n: nat): seq<Instr> { SumPart(a, b, n) + AffinePart(dst, n) }

  function SubExpansion(dst: Reg, a: Operand, b: Operand, w: nat, n: nat): seq<Instr> {
    [Instr(n, Arith(Xor, w), [b, Const(-1)]),
     Instr(n + 1, Arith(Add, w), [a, Ref(n)]),
     Instr(dst, Arith(Add, w), [Ref(n + 1), Const(1)])]
  }

  function Expansion(rule: Rule, x: Instr, n: nat): (s: seq<Instr>)
    requires Matches(rule, x)
    ensures |s| == Inserted(rule) + 1 && s[Inserted(rule)].dst == x.dst
  {
    if rule.AddRule? then AddExpansion(x.dst, x.args[0], x.args[1], n)
    else SubExpansion(x.dst, x.args[0], x.args[1], x.op.ty.width, n)
  }

  /** A body in which every matching instruction is expanded; registers from n on are free. */
  function Expand(rule: Rule, body: seq<Instr>, n: nat): seq<Instr> {
    if body == [] then []
    else if Matches(rule, body[0]) then Expansion(rule, body[0], n) + Expand(rule, body[1..], n + Inserted(rule))
    else [body[0]] + Expand(rule, body[1..], n)
  }

  /** How many registers the expansion takes. */
  function Used(rule: Rule, body: seq<Instr>): nat {
    if body == [] then 0 else (if Matches(rule, body[0]) then Inserted(rule) else 0) + Used(rule, body[1..])
  }

  function ExpandBlock(rule: Rule, b: Block, n: nat): Block { b.(body := Expand(rule, b.body, n)) }

  /** The blocks in ls, one after the other. */
  function ExpandBlocks(rule: Rule, f: Func, ls: seq<Label>, n: nat): (r: (Func, nat))
    requires forall l :: l in ls ==> l in f.blocks
    ensures r.0.blocks.Keys == f.blocks.Keys && r.0.order == f.order
  {
    if ls == [] then (f, n)
    else
      var l := ls[|ls| - 1];
      var t := ExpandBlocks(rule, f, ls[..|ls| - 1], n);
      (Func(f.order, t.0.blocks[l := ExpandBlock(rule, t.0.blocks[l], t.1)]), t.1 + Used(rule, t.0.blocks[l].body))
  }

  // ----- What is rewritten -----

  lemma {:induction false} ExpandedLength(rule: Rule, body: seq<Instr>, n: nat)
    ensures |Expand(rule, body, n)| == |body| + Used(rule, body)
    ensures Used(rule, body) == 0 <==> forall x :: x in body ==> !Matches(rule, x)
    ensures Used(rule, body) == 0 ==> Expand(rule, body, n) == body
    decreases body
  {
    if body != [] {
      ExpandedLength(rule, body[1..], if Matches(rule, body[0]) then n + Inserted(rule) else n);
      assert body == [body[0]] + body[1..];
    }
  }

  /** The registers below n that a body writes, in order. */
  function Results(body: seq<Instr>, n: nat): seq<Reg> {
    if body == [] then [] else (if body[0].dst < n then [body[0].dst] else []) + Results(body[1..], n)
  }

  lemma {:induction false} ResultsAppend(s: seq<Instr>, t: seq<Instr>, n: nat)
    ensures Results(s + t, n) == Results(s, n) + Results(t, n)
    decreases s
  {
    if s == [] {
      assert s + t == t;
    } else {
      assert (s + t)[0] == s[0] && (s + t)[1..] == s[1..] + t;
      ResultsAppend(s[1..], t, n);
    }
  }

  lemma {:induction false} NoResults(s: seq<Instr>, n: nat)
    requires forall x :: x in s ==> x.dst >= n
    ensures Results(s, n) == []
    decreases s
  {
    if s != [] {
      NoResults(s[1..], n);
    }
  }

  lemma ExpansionResults(rule: Rule, x: Instr, k: nat, n: nat)
    requires Matches(rule, x) && x.dst < n <= k
    ensures Results(Expansion(rule, x, k), n) == [x.dst]
  {
    var s, i := Expansion(rule, x, k), Inserted(rule);
    assert s == s[..i] + [s[i]];
    NoResults(s[..i], n);
    ResultsAppend(s[..i], [s[i]], n);
    assert [s[i]][1..] == [];
  }

  lemma ExpansionThen(rule: Rule, x: Instr, k: nat, n: nat, t: seq<Instr>)
    requires Matches(rule, x) && x.dst < n <= k
    ensures Results(Expansion(rule, x, k) + t, n) == [x.dst] + Results(t, n)
  {
    ExpansionResults(rule, x, k, n);
    ResultsAppend(Expansion(rule, x, k), t, n);
  }

  lemma OneThen(x: Instr, n: nat, t: seq<Instr>)
    requires x.dst < n
    ensures Results([x] + t, n) == [x.dst] + Results(t, n)
  {
    assert ([x] + t)[1..] == t;
  }

  /** Every original instruction keeps its place and its register: one instruction of the result for
      each, in the same order. */
  lemma {:induction false} SameResults(rule: Rule, body: seq<Instr>, k: nat, n: nat)
    requires n <= k && forall x :: x in body ==> x.dst < n
    ensures Results(Expand(rule, body, k), n) == Results(body, n) && |Results(body, n)| == |body|
    decreases body
  {
    if body != [] {
      var x := body[0];
      assert x in body;
      OneThen(x, n, body[1..]);
      assert [x] + body[1..] == body;
      if Matches(rule, x) {
        SameResults(rule, body[1..], k + Inserted(rule), n);
        ExpansionThen(rule, x, k, n, Expand(rule, body[1..], k + Inserted(rule)));
      } else {
        SameResults(rule, body[1..], k, n);
        OneThen(x, n, Expand(rule, body[1..], k));
      }
    }
  }

  /** No subtraction is left. */
  lemma {:induction false} NoSubLeft(body: seq<Instr>, n: nat)
    ensures forall x :: x in Expand(SubRule, body, n) ==> !Matches(SubRule, x)
    decreases body
  {
    if body != [] {
      NoSubLeft(body[1..], if Matches(SubRule, body[0]) then n + Inserted(SubRule) else n);
    }
  }
}
