/** The reachable-integer-values analysis: a stack walk over the dominator tree. */
module RIV {
  import opened IR
  import opened Paths

  datatype Tree = Node(block: Label, children: seq<Tree>)

  type Values = set<Operand>

  /** Position i of block l, PHIs included, makes the integer v. */
  ghost predicate IntegerAt(f: Func, l: Label, i: int, v: Operand) {
    Pos(f, l, i) && TyAt(f.blocks[l], i).IntTy? && v == Ref(DstAt(f.blocks[l], i))
  }

  lemma DefsIs(f: Func, l: Label, v: Operand)
    ensures v in Defs(f, l) <==> exists i :: IntegerAt(f, l, i, v)
  {
    if exists i :: IntegerAt(f, l, i, v) {
      var i :| IntegerAt(f, l, i, v);
      assert 0 <= i < Count(f.blocks[l]);
    }
    if v in Defs(f, l) {
      var i :| 0 <= i < Count(f.blocks[l]) && TyAt(f.blocks[l], i).IntTy? && v == Ref(DstAt(f.blocks[l], i));
      assert IntegerAt(f, l, i, v);
    }
  }

  /** The integer values block l defines, PHIs included. */
  function Defs(f: Func, l: Label): Values {
    if l in f.blocks then
      set i | 0 <= i < Count(f.blocks[l]) && TyAt(f.blocks[l], i).IntTy? :: Ref(DstAt(f.blocks[l], i))
    else {}
  }

  function Labels(t: Tree): seq<Label> { [t.block] + AllLabels(t.children) }

  function AllLabels(ts: seq<Tree>): seq<Label> {
    if ts == [] then [] else Labels(ts[0]) + AllLabels(ts[1..])
  }

  function Size(ts: seq<Tree>): nat {
    if ts == [] then 0 else 1 + Size(ts[0].children) + Size(ts[1..])
  }

  ghost predicate Distinct(ls: seq<Label>) {
    forall i, j :: 0 <= i < j < |ls| ==> ls[i] != ls[j]
  }

  // ----- What the walk should compute -----

  /** A node has the values it inherits; its children inherit those and the node's own. */
  function Below(f: Func, t: Tree, inherited: Values): map<Label, Values>
    decreases t, 1
  {
    map[t.block := inherited] + AllBelow(f, t.children, inherited + Defs(f, t.block))
  }

  function AllBelow(f: Func, ts: seq<Tree>, inherited: Values): map<Label, Values>
    decreases ts, 0
  {
    if ts == [] then map[] else Below(f, ts[0], inherited) + AllBelow(f, ts[1..], inherited)
  }

  /** a is a proper ancestor of l in t. */
  ghost predicate Ancestor(t: Tree, a: Label, l: Label)
    decreases t, 1
  {
    (a == t.block && l in AllLabels(t.children)) || AncestorIn(t.children, a, l)
  }

  ghost predicate AncestorIn(ts: seq<Tree>, a: Label, l: Label)
    decreases ts, 0
  {
    ts != [] && (Ancestor(ts[0], a, l) || AncestorIn(ts[1..], a, l))
  }

  lemma {:induction false} AncestorBelow(t: Tree, a: Label, l: Label)
    requires Ancestor(t, a, l)
    ensures l in AllLabels(t.children)
    decreases t, 1
  {
    if AncestorIn(t.children, a, l) {
      AncestorInBelow(t.children, a, l);
    }
  }

  lemma {:induction false} AncestorInBelow(ts: seq<Tree>, a: Label, l: Label)
    requires AncestorIn(ts, a, l)
    ensures l in AllLabels(ts)
    decreases ts, 0
  {
    if Ancestor(ts[0], a, l) {
      AncestorBelow(ts[0], a, l);
    } else {
      AncestorInBelow(ts[1..], a, l);
    }
  }

  lemma {:induction false} BelowKeys(f: Func, t: Tree, inherited: Values)
    ensures forall l :: l in Below(f, t, inherited) <==> l in Labels(t)
    decreases t, 1
  {
    AllBelowKeys(f, t.children, inherited + Defs(f, t.block));
  }

  lemma {:induction false} AllBelowKeys(f: Func, ts: seq<Tree>, inherited: Values)
    ensures forall l :: l in AllBelow(f, ts, inherited) <==> l in AllLabels(ts)
    decreases ts, 0
  {
    if ts != [] {
      BelowKeys(f, ts[0], inherited);
      AllBelowKeys(f, ts[1..], inherited);
    }
  }

  lemma SplitDistinct(s: seq<Label>, t: seq<Label>)
    requires Distinct(s + t)
    ensures Distinct(s) && Distinct(t)
    ensures forall l :: l in s ==> l !in t
  {
    forall i, j | 0 <= i < j < |t|
      ensures t[i] != t[j]
    {
      assert (s + t)[|s| + i] == t[i] && (s + t)[|s| + j] == t[j];
    }
    forall i, j | 0 <= i < j < |s|
      ensures s[i] != s[j]
    {
      assert (s + t)[i] == s[i] && (s + t)[j] == s[j];
    }
    forall i, j | 0 <= i < |s| && 0 <= j < |t|
      ensures s[i] != t[j]
    {
      assert (s + t)[i] == s[i] && (s + t)[|s| + j] == t[j];
    }
  }

  /** A node's values are those inherited at the root and those its proper ancestors define. */
  lemma {:induction false} BelowIs(f: Func, t: Tree, inherited: Values, l: Label, v: Operand)
    requires Distinct(Labels(t)) && l in Labels(t)
    ensures l in Below(f, t, inherited)
    ensures v in Below(f, t, inherited)[l] <==> v in inherited || exists a :: Ancestor(t, a, l) && v in Defs(f, a)
    decreases t, 1
  {
    SplitDistinct([t.block], AllLabels(t.children));
    AllBelowKeys(f, t.children, inherited + Defs(f, t.block));
    if l == t.block {
      forall a
        ensures !Ancestor(t, a, l)
      {
        if Ancestor(t, a, l) {
          AncestorBelow(t, a, l);
        }
      }
    } else {
      AllBelowIs(f, t.children, inherited + Defs(f, t.block), l, v);
      if v in Defs(f, t.block) {
        assert Ancestor(t, t.block, l);
      }
      if exists a :: AncestorIn(t.children, a, l) && v in Defs(f, a) {
        var a :| AncestorIn(t.children, a, l) && v in Defs(f, a);
        assert Ancestor(t, a, l);
      }
    }
  }

  lemma {:induction false} AllBelowIs(f: Func, ts: seq<Tree>, inherited: Values, l: Label, v: Operand)
    requires Distinct(AllLabels(ts)) && l in AllLabels(ts)
    ensures l in AllBelow(f, ts, inherited)
    ensures v in AllBelow(f, ts, inherited)[l] <==> v in inherited || exists a :: AncestorIn(ts, a, l) && v in Defs(f, a)
    decreases ts, 0
  {
    SplitDistinct(Labels(ts[0]), AllLabels(ts[1..]));
    BelowKeys(f, ts[0], inherited);
    AllBelowKeys(f, ts[1..], inherited);
    if l in Labels(ts[0]) {
      BelowIs(f, ts[0], inherited, l, v);
      forall a
        ensures !AncestorIn(ts[1..], a, l)
        ensures AncestorIn(ts, a, l) <==> Ancestor(ts[0], a, l)
      {
        if AncestorIn(ts[1..], a, l) {
          AncestorInBelow(ts[1..], a, l);
        }
      }
    } else {
      AllBelowIs(f, ts[1..], inherited, l, v);
      forall a
        ensures !Ancestor(ts[0], a, l)
        ensures AncestorIn(ts, a, l) <==> AncestorIn(ts[1..], a, l)
      {
        if Ancestor(ts[0], a, l) {
          AncestorBelow(ts[0], a, l);
        }
      }
    }
  }

  // ----- The walk -----

  /** What the result becomes when the trees on the stack are walked, the last first. */
  ghost function Finish(f: Func, stack: seq<Tree>, m: map<Label, Values>): map<Label, Values> {
    if stack == [] then m
    else
      var t := stack[|stack| - 1];
      Finish(f, stack[..|stack| - 1], m + Below(f, t, if t.block in m then m[t.block] else {}))
  }

  lemma {:induction false} AllLabelsAppend(s: seq<Tree>, t: seq<Tree>)
    ensures AllLabels(s + t) == AllLabels(s) + AllLabels(t)
    ensures Size(s + t) == Size(s) + Size(t)
  {
    if s == [] {
      assert s + t == t;
    } else {
      assert (s + t)[0] == s[0] && (s + t)[1..] == s[1..] + t;
      AllLabelsAppend(s[1..], t);
    }
  }

  lemma MapAssoc(a: map<Label, Values>, b: map<Label, Values>, c: map<Label, Values>)
    ensures (a + b) + c == a + (b + c)
  {
  }

  lemma MapCommutes(a: map<Label, Values>, b: map<Label, Values>)
    requires a.Keys !! b.Keys
    ensures a + b == b + a
  {
  }

  lemma MapCovers(m: map<Label, Values>, m': map<Label, Values>, a: map<Label, Values>)
    requires forall l :: l !in a ==> (l in m <==> l in m') && (l in m ==> m[l] == m'[l])
    ensures m + a == m' + a
  {
  }

  lemma {:induction false} AllBelowAppend(f: Func, s: seq<Tree>, t: seq<Tree>, inherited: Values)
    ensures AllBelow(f, s + t, inherited) == AllBelow(f, s, inherited) + AllBelow(f, t, inherited)
  {
    if s == [] {
      assert s + t == t;
    } else {
      assert (s + t)[0] == s[0] && (s + t)[1..] == s[1..] + t;
      AllBelowAppend(f, s[1..], t, inherited);
      MapAssoc(Below(f, s[0], inherited), AllBelow(f, s[1..], inherited), AllBelow(f, t, inherited));
    }
  }

  lemma OneTree(f: Func, t: Tree, inherited: Values)
    ensures AllLabels([t]) == Labels(t) && AllBelow(f, [t], inherited) == Below(f, t, inherited)
    ensures Size([t]) == 1 + Size(t.children)
  {
    assert [t][1..] == [];
  }

  lemma {:induction false} RootsHave(f: Func, ts: seq<Tree>, inherited: Values, i: nat)
    requires i < |ts| && Distinct(AllLabels(ts))
    ensures ts[i].block in AllLabels(ts) && ts[i].block in AllBelow(f, ts, inherited)
    ensures AllBelow(f, ts, inherited)[ts[i].block] == inherited
  {
    SplitDistinct(Labels(ts[0]), AllLabels(ts[1..]));
    BelowKeys(f, ts[0], inherited);
    AllBelowKeys(f, ts[1..], inherited);
    if i == 0 {
      SplitDistinct([ts[0].block], AllLabels(ts[0].children));
      AllBelowKeys(f, ts[0].children, inherited + Defs(f, ts[0].block));
    } else {
      RootsHave(f, ts[1..], inherited, i - 1);
    }
  }

  /** Walking sibling subtrees that all inherit the same values adds what AllBelow says. */
  lemma {:induction false} FinishSiblings(f: Func, s: seq<Tree>, kids: seq<Tree>, m: map<Label, Values>, inherited: Values)
    requires Distinct(AllLabels(kids))
    requires forall i :: 0 <= i < |kids| ==> kids[i].block in m && m[kids[i].block] == inherited
    ensures Finish(f, s + kids, m) == Finish(f, s, m + AllBelow(f, kids, inherited))
    decreases |kids|
  {
    if kids == [] {
      assert s + kids == s && m + AllBelow(f, kids, inherited) == m;
    } else {
      var t, rest := kids[|kids| - 1], kids[..|kids| - 1];
      assert kids == rest + [t] && (s + kids)[..|s + kids| - 1] == s + rest;
      AllLabelsAppend(rest, [t]);
      AllBelowAppend(f, rest, [t], inherited);
      OneTree(f, t, inherited);
      SplitDistinct(AllLabels(rest), AllLabels([t]));
      SiblingKept(f, rest, t, m, inherited);
      var b, a := Below(f, t, inherited), AllBelow(f, rest, inherited);
      FinishSiblings(f, s, rest, m + b, inherited);
      BelowKeys(f, t, inherited);
      AllBelowKeys(f, rest, inherited);
      MapCommutes(a, b);
      MapAssoc(m, b, a);
    }
  }

  lemma SiblingKept(f: Func, rest: seq<Tree>, t: Tree, m: map<Label, Values>, inherited: Values)
    requires Distinct(AllLabels(rest)) && forall l :: l in AllLabels(rest) ==> l !in Labels(t)
    requires forall i :: 0 <= i < |rest| ==> rest[i].block in m && m[rest[i].block] == inherited
    ensures var m' := m + Below(f, t, inherited);
      forall i :: 0 <= i < |rest| ==> rest[i].block in m' && m'[rest[i].block] == inherited
  {
    BelowKeys(f, t, inherited);
    forall i | 0 <= i < |rest|
      ensures rest[i].block !in Labels(t)
    {
      RootsHave(f, rest, inherited, i);
    }
  }

  /** m with every sibling's values set. */
  function WithKids(m: map<Label, Values>, kids: seq<Tree>, inherited: Values): map<Label, Values> {
    if kids == [] then m
    else WithKids(m, kids[..|kids| - 1], inherited)[kids[|kids| - 1].block := inherited]
  }

  lemma {:induction false} WithKidsIs(m: map<Label, Values>, kids: seq<Tree>, inherited: Values)
    ensures forall i :: 0 <= i < |kids| ==> kids[i].block in WithKids(m, kids, inherited) && WithKids(m, kids, inherited)[kids[i].block] == inherited
    ensures forall l :: (forall i :: 0 <= i < |kids| ==> kids[i].block != l) ==>
      (l in WithKids(m, kids, inherited) <==> l in m) && (l in m ==> WithKids(m, kids, inherited)[l] == m[l])
  {
    if kids != [] {
      WithKidsIs(m, kids[..|kids| - 1], inherited);
    }
  }

  lemma KidsMap(f: Func, kids: seq<Tree>, m: map<Label, Values>, inherited: Values)
    requires Distinct(AllLabels(kids))
    ensures WithKids(m, kids, inherited) + AllBelow(f, kids, inherited) == m + AllBelow(f, kids, inherited)
  {
    WithKidsIs(m, kids, inherited);
    forall i | 0 <= i < |kids|
      ensures kids[i].block in AllBelow(f, kids, inherited)
    {
      RootsHave(f, kids, inherited, i);
    }
    MapCovers(m, WithKids(m, kids, inherited), AllBelow(f, kids, inherited));
  }

  lemma RootMap(f: Func, t: Tree, m: map<Label, Values>)
    requires t.block in m
    ensures m + Below(f, t, m[t.block]) == m + AllBelow(f, t.children, m[t.block] + Defs(f, t.block))
  {
    MapAssoc(m, map[t.block := m[t.block]], AllBelow(f, t.children, m[t.block] + Defs(f, t.block)));
    assert m + map[t.block := m[t.block]] == m;
  }

  lemma PopStep(f: Func, s: seq<Tree>, t: Tree, m: map<Label, Values>)
    requires t.block in m && Distinct(AllLabels(t.children))
    ensures Finish(f, s + t.children, WithKids(m, t.children, m[t.block] + Defs(f, t.block))) == Finish(f, s + [t], m)
  {
    var inherited := m[t.block] + Defs(f, t.block);
    WithKidsIs(m, t.children, inherited);
    FinishSiblings(f, s, t.children, WithKids(m, t.children, inherited), inherited);
    assert (s + [t])[..|s + [t]| - 1] == s;
    KidsMap(f, t.children, m, inherited);
    RootMap(f, t, m);
  }

  lemma WalkStarts(f: Func, root: Tree, init: Values)
    ensures Finish(f, [root], map[root.block := init]) == Below(f, root, init)
  {
    assert [root][..0] == [];
    assert map[root.block := init] + Below(f, root, init) == Below(f, root, init);
  }

  // ----- The code -----

  /** Step 1: the integer values every block defines. */
  method DefinedValues(f: Func) returns (defined: map<Label, Values>)
    requires Shape(f)
    ensures forall l :: l in f.blocks ==> l in defined && defined[l] == Defs(f, l)
    ensures forall l, v :: l in f.blocks ==> (v in defined[l] <==> exists i :: IntegerAt(f, l, i, v))
  {
    defined := map[];
    for i := 0 to |f.order|
      invariant forall l :: l in f.order[..i] ==> l in defined && defined[l] == Defs(f, l)
    {
      var l := f.order[i];
      var b := f.blocks[l];
      var values: Values := {};
      for j := 0 to Count(b)
        invariant values == set h | 0 <= h < j && TyAt(b, h).IntTy? :: Ref(DstAt(b, h))
      {
        if TyAt(b, j).IntTy? {
          values := values + {Ref(DstAt(b, j))};
        }
      }
      defined := defined[l := values];
    }
    assert f.order[..|f.order|] == f.order;
    forall l, v | l in f.blocks
      ensures v in defined[l] <==> exists i :: IntegerAt(f, l, i, v)
    {
      DefsIs(f, l, v);
    }
  }

  /** Step 2: the values that reach the entry. */
  function EntryValues(args: seq<(nat, Ty)>, globals: seq<(nat, Ty)>): Values {
    (set i | 0 <= i < |args| && args[i].1.IntTy? :: Arg(args[i].0)) +
    (set i | 0 <= i < |globals| && globals[i].1.IntTy? :: Global(globals[i].0))
  }

  /** v is one of the integer arguments or globals. */
  ghost predicate IntegerInput(args: seq<(nat, Ty)>, globals: seq<(nat, Ty)>, v: Operand) {
    || (exists i :: 0 <= i < |args| && args[i].1.IntTy? && v == Arg(args[i].0))
    || (exists i :: 0 <= i < |globals| && globals[i].1.IntTy? && v == Global(globals[i].0))
  }

  method EntryRIV(args: seq<(nat, Ty)>, globals: seq<(nat, Ty)>) returns (values: Values)
    ensures values == EntryValues(args, globals)
    ensures forall v :: v in values <==> IntegerInput(args, globals, v)
  {
    values := {};
    for i := 0 to |globals|
      invariant values == set h | 0 <= h < i && globals[h].1.IntTy? :: Global(globals[h].0)
    {
      if globals[i].1.IntTy? {
        values := values + {Global(globals[i].0)};
      }
    }
    for i := 0 to |args|
      invariant values == (set h | 0 <= h < i && args[h].1.IntTy? :: Arg(args[h].0)) +
        (set h | 0 <= h < |globals| && globals[h].1.IntTy? :: Global(globals[h].0))
    {
      if args[i].1.IntTy? {
        values := values + {Arg(args[i].0)};
      }
    }
  }

  /** The nodes under the stack have no values yet. */
  ghost predicate ChildrenNew(stack: seq<Tree>, m: map<Label, Values>) {
    forall i :: 0 <= i < |stack| ==> NoneIn(AllLabels(stack[i].children), m)
  }

  ghost predicate NoneIn(ls: seq<Label>, m: map<Label, Values>) {
    forall l :: l in ls ==> l !in m
  }

  /** What the walk keeps. */
  ghost predicate WalkPoint(f: Func, root: Tree, init: Values, stack: seq<Tree>, m: map<Label, Values>, popped: seq<Label>) {
    && Finish(f, stack, m) == Below(f, root, init)
    && Distinct(AllLabels(stack))
    && (forall i :: 0 <= i < |stack| ==> stack[i].block in m)
    && ChildrenNew(stack, m)
    && multiset(popped) + multiset(AllLabels(stack)) == multiset(Labels(root))
  }

  lemma {:induction false} RootsListed(ts: seq<Tree>, i: nat)
    requires i < |ts|
    ensures ts[i].block in AllLabels(ts)
  {
    if i > 0 {
      RootsListed(ts[1..], i - 1);
    }
  }

  lemma {:induction false} ChildrenListed(ts: seq<Tree>, i: nat, l: Label)
    requires i < |ts| && l in AllLabels(ts[i].children)
    ensures l in AllLabels(ts)
  {
    if i > 0 {
      ChildrenListed(ts[1..], i - 1, l);
    }
  }

  lemma {:induction false} ChildIsNoRoot(ts: seq<Tree>, i: nat, l: Label, j: nat)
    requires i < |ts| && j < |ts| && Distinct(AllLabels(ts)) && l in AllLabels(ts[i].children)
    ensures ts[j].block != l
  {
    SplitDistinct(Labels(ts[0]), AllLabels(ts[1..]));
    if i > 0 {
      ChildrenListed(ts[1..], i - 1, l);
    }
    if j > 0 {
      RootsListed(ts[1..], j - 1);
    }
    if i > 0 && j > 0 {
      ChildIsNoRoot(ts[1..], i - 1, l, j - 1);
    } else if i == 0 && j == 0 {
      SplitDistinct([ts[0].block], AllLabels(ts[0].children));
    }
  }

  lemma WalkCounts(rest: seq<Tree>, t: Tree, popped: seq<Label>)
    ensures multiset(popped + [t.block]) + multiset(AllLabels(rest + t.children)) == multiset(popped) + multiset(AllLabels(rest + [t]))
    ensures Distinct(AllLabels(rest + [t])) ==> Distinct(AllLabels(rest + t.children)) && Distinct(AllLabels(t.children))
    ensures Size(rest + t.children) < Size(rest + [t])
  {
    AllLabelsAppend(rest, [t]);
    AllLabelsAppend(rest, t.children);
    assert [t][1..] == [];
    assert AllLabels([t]) == [t.block] + AllLabels(t.children);
    if Distinct(AllLabels(rest + [t])) {
      DistinctTail(AllLabels(rest), t.block, AllLabels(t.children));
      SplitDistinct(AllLabels(rest), AllLabels(t.children));
    }
  }

  /** Values are set for t's children only, which are under no other node. */
  lemma KeepsChildrenNew(rest: seq<Tree>, t: Tree, m: map<Label, Values>, inherited: Values)
    requires ChildrenNew(rest + [t], m) && Distinct(AllLabels(rest + t.children))
    ensures ChildrenNew(rest + t.children, WithKids(m, t.children, inherited))
  {
    var stack, kids := rest + t.children, t.children;
    WithKidsIs(m, kids, inherited);
    assert (rest + [t])[|rest|] == t;
    forall i, l | 0 <= i < |stack| && l in AllLabels(stack[i].children)
      ensures l !in WithKids(m, kids, inherited)
    {
      forall h | 0 <= h < |kids|
        ensures kids[h].block != l
      {
        ChildIsNoRoot(stack, i, l, |rest| + h);
      }
      if i < |rest| {
        assert (rest + [t])[i] == stack[i];
      } else {
        ChildrenListed(kids, i - |rest|, l);
      }
    }
  }

  /** Siblings with distinct labels under them, and no values yet. */
  ghost predicate KidsNew(kids: seq<Tree>, m: map<Label, Values>) {
    Distinct(AllLabels(kids)) && forall h :: 0 <= h < |kids| ==> kids[h].block !in m
  }

  lemma TopKidsNew(rest: seq<Tree>, t: Tree, m: map<Label, Values>, popped: seq<Label>)
    requires ChildrenNew(rest + [t], m) && Distinct(AllLabels(rest + [t]))
    ensures KidsNew(t.children, m)
  {
    WalkCounts(rest, t, popped);
    assert (rest + [t])[|rest|] == t;
    forall h | 0 <= h < |t.children|
      ensures t.children[h].block !in m
    {
      RootsListed(t.children, h);
    }
  }

  lemma RootsKept(rest: seq<Tree>, t: Tree, m: map<Label, Values>, inherited: Values)
    requires forall i :: 0 <= i < |rest + [t]| ==> (rest + [t])[i].block in m
    ensures forall i :: 0 <= i < |rest + t.children| ==> (rest + t.children)[i].block in WithKids(m, t.children, inherited)
  {
    WithKidsIs(m, t.children, inherited);
    forall i | 0 <= i < |rest|
      ensures rest[i].block in m
    {
      assert (rest + [t])[i] == rest[i];
    }
  }

  lemma WalkAdvances(f: Func, root: Tree, init: Values, rest: seq<Tree>, t: Tree, m: map<Label, Values>, popped: seq<Label>)
    requires WalkPoint(f, root, init, rest + [t], m, popped) && t.block in m
    ensures WalkPoint(f, root, init, rest + t.children, WithKids(m, t.children, m[t.block] + Defs(f, t.block)), popped + [t.block])
    ensures Size(rest + t.children) < Size(rest + [t])
  {
    var inherited := m[t.block] + Defs(f, t.block);
    WalkCounts(rest, t, popped);
    PopStep(f, rest, t, m);
    RootsKept(rest, t, m, inherited);
    KeepsChildrenNew(rest, t, m, inherited);
  }

  lemma WalkBegins(f: Func, root: Tree, init: Values)
    requires Distinct(Labels(root))
    ensures WalkPoint(f, root, init, [root], map[root.block := init], [])
  {
    WalkStarts(f, root, init);
    OneTree(f, root, init);
    SplitDistinct([root.block], AllLabels(root.children));
  }

  lemma DistinctTail(s: seq<Label>, x: Label, t: seq<Label>)
    requires Distinct(s + ([x] + t))
    ensures Distinct(s + t)
  {
    var a, b := s + ([x] + t), s + t;
    forall i, j | 0 <= i < j < |b|
      ensures b[i] != b[j]
    {
      assert b[i] == a[if i < |s| then i else i + 1] && b[j] == a[if j < |s| then j else j + 1];
    }
  }

  /** More values for l, which may have some or none. */
  function Insert(m: map<Label, Values>, l: Label, values: Values): map<Label, Values> {
    m[l := (if l in m then m[l] else {}) + values]
  }

  lemma {:induction false} RootsDistinct(ts: seq<Tree>, i: nat, j: nat)
    requires Distinct(AllLabels(ts)) && i < j < |ts|
    ensures ts[i].block != ts[j].block
  {
    SplitDistinct(Labels(ts[0]), AllLabels(ts[1..]));
    if i == 0 {
      RootsListed(ts[1..], j - 1);
    } else {
      RootsDistinct(ts[1..], i - 1, j - 1);
    }
  }

  lemma NextIsNew(kids: seq<Tree>, m: map<Label, Values>, inherited: Values, i: nat)
    requires Distinct(AllLabels(kids)) && i < |kids| && kids[i].block !in m
    ensures kids[i].block !in WithKids(m, kids[..i], inherited)
  {
    WithKidsIs(m, kids[..i], inherited);
    forall h | 0 <= h < i
      ensures kids[..i][h].block != kids[i].block
    {
      RootsDistinct(kids, h, i);
    }
  }

  /** The loop over the children of a node: push them, and add the node's own values and those that
      reach it to theirs, of which there are none yet. */
  method PushChildren(rest: seq<Tree>, kids: seq<Tree>, m: map<Label, Values>, defs: Values, rivs: Values)
    returns (stack: seq<Tree>, result: map<Label, Values>)
    requires KidsNew(kids, m)
    ensures stack == rest + kids && result == WithKids(m, kids, rivs + defs)
  {
    stack, result := rest, m;
    for i := 0 to |kids|
      invariant stack == rest + kids[..i]
      invariant result == WithKids(m, kids[..i], rivs + defs)
    {
      NextIsNew(kids, m, rivs + defs, i);
      assert kids[..i + 1][..i] == kids[..i];
      stack := stack + [kids[i]];
      result := Insert(result, kids[i].block, defs);
      result := Insert(result, kids[i].block, rivs);
      assert ({} + defs) + rivs == rivs + defs;
    }
    assert kids[..|kids|] == kids;
  }

  /** RIV::buildRIV. */
  method BuildRIV(f: Func, root: Tree, args: seq<(nat, Ty)>, globals: seq<(nat, Ty)>)
    returns (result: map<Label, Values>, ghost popped: seq<Label>)
    requires Shape(f) && root.block == f.order[0] && Distinct(Labels(root))
    requires forall l :: l in Labels(root) ==> l in f.blocks
    ensures result == Below(f, root, EntryValues(args, globals))
    ensures DominatorTree(f, root) ==> forall l :: l in Labels(root) ==> l in result
    ensures DominatorTree(f, root) ==> forall l, v :: l in Labels(root) ==> (v in result[l] <==> ReachableInteger(f, args, globals, l, v))
    ensures multiset(popped) == multiset(Labels(root))
  {
    var stack := [root];
    var defined := DefinedValues(f);
    var init := EntryRIV(args, globals);
    result, popped := map[f.order[0] := init], [];
    WalkBegins(f, root, init);
    while stack != []
      invariant WalkPoint(f, root, init, stack, result, popped)
      decreases Size(stack)
    {
      var parent := stack[|stack| - 1];
      PoppedIsInTree(f, root, init, stack, result, popped);
      ghost var rest, m := stack[..|stack| - 1], result;
      assert stack == rest + [parent];
      TopKidsNew(rest, parent, m, popped);
      WalkAdvances(f, root, init, rest, parent, m, popped);
      stack := stack[..|stack| - 1];
      popped := popped + [parent.block];
      stack, result := PushChildren(stack, parent.children, result, defined[parent.block], result[parent.block]);
    }
    if DominatorTree(f, root) {
      RivIsComplete(f, root, args, globals);
    }
  }

  lemma PoppedIsInTree(f: Func, root: Tree, init: Values, stack: seq<Tree>, m: map<Label, Values>, popped: seq<Label>)
    requires WalkPoint(f, root, init, stack, m, popped) && stack != []
    ensures stack[|stack| - 1].block in Labels(root)
  {
    RootsListed(stack, |stack| - 1);
    assert stack[|stack| - 1].block in multiset(AllLabels(stack));
    assert stack[|stack| - 1].block in multiset(Labels(root));
  }

  // ----- What the result means -----

  /** t is the dominator tree of f: its nodes are the reachable blocks, and its proper ancestors are
      the strict dominators. */
  ghost predicate DominatorTree(f: Func, t: Tree)
    requires f.order != []
  {
    && t.block == f.order[0] && Distinct(Labels(t))
    && (forall l :: l in Labels(t) <==> l in f.blocks && Reachable(f, l))
    && (forall a, l :: l in Labels(t) ==> (Ancestor(t, a, l) <==> StrictlyDominates(f, a, l)))
  }

  /** The reachable integer values of a block are the integer arguments, the integer globals and the
      integer instructions of its strict dominators. */
  lemma RivIsExact(f: Func, t: Tree, init: Values, l: Label, v: Operand)
    requires f.order != [] && DominatorTree(f, t) && l in Labels(t)
    ensures l in Below(f, t, init)
    ensures v in Below(f, t, init)[l] <==> v in init || exists a :: StrictlyDominates(f, a, l) && v in Defs(f, a)
  {
    BelowIs(f, t, init, l, v);
    if exists a :: StrictlyDominates(f, a, l) && v in Defs(f, a) {
      var a :| StrictlyDominates(f, a, l) && v in Defs(f, a);
      assert Ancestor(t, a, l);
    }
  }

  /** v is an integer argument, an integer global, or an integer that a strict dominator of l makes. */
  ghost predicate ReachableInteger(f: Func, args: seq<(nat, Ty)>, globals: seq<(nat, Ty)>, l: Label, v: Operand)
    requires f.order != []
  {
    IntegerInput(args, globals, v) || exists d, i :: StrictlyDominates(f, d, l) && IntegerAt(f, d, i, v)
  }

  lemma EntryValuesAre(args: seq<(nat, Ty)>, globals: seq<(nat, Ty)>, v: Operand)
    ensures v in EntryValues(args, globals) <==> IntegerInput(args, globals, v)
  {
  }

  lemma ReachableAt(f: Func, t: Tree, args: seq<(nat, Ty)>, globals: seq<(nat, Ty)>, l: Label, v: Operand)
    requires f.order != [] && DominatorTree(f, t) && l in Labels(t)
    ensures l in Below(f, t, EntryValues(args, globals))
    ensures v in Below(f, t, EntryValues(args, globals))[l] <==> ReachableInteger(f, args, globals, l, v)
  {
    EntryValuesAre(args, globals, v);
    RivIsExact(f, t, EntryValues(args, globals), l, v);
    if exists d :: StrictlyDominates(f, d, l) && v in Defs(f, d) {
      var d :| StrictlyDominates(f, d, l) && v in Defs(f, d);
      DefsIs(f, d, v);
    }
    if exists d, i :: StrictlyDominates(f, d, l) && IntegerAt(f, d, i, v) {
      var d, i :| StrictlyDominates(f, d, l) && IntegerAt(f, d, i, v);
      DefsIs(f, d, v);
    }
  }

  /** The reachable integer values of every block, in terms of the function alone. */
  lemma RivIsComplete(f: Func, t: Tree, args: seq<(nat, Ty)>, globals: seq<(nat, Ty)>)
    requires f.order != [] && DominatorTree(f, t)
    ensures forall l :: l in Labels(t) ==> l in Below(f, t, EntryValues(args, globals))
    ensures forall l, v :: l in Labels(t) ==>
      (v in Below(f, t, EntryValues(args, globals))[l] <==> ReachableInteger(f, args, globals, l, v))
  {
    forall l | l in Labels(t)
      ensures l in Below(f, t, EntryValues(args, globals))
    {
      ReachableAt(f, t, args, globals, l, Const(0));
    }
    forall l, v | l in Labels(t)
      ensures v in Below(f, t, EntryValues(args, globals))[l] <==> ReachableInteger(f, args, globals, l, v)
    {
      ReachableAt(f, t, args, globals, l, v);
    }
  }

  ghost predicate DebugIsVoid(f: Func) {
    forall l, i :: l in f.blocks && 0 <= i < |f.blocks[l].body| && f.blocks[l].body[i].op.dbg ==> f.blocks[l].body[i].op.ty == Void
  }

  /** Every reachable value has been computed on every path to the block, and none is computed by
      the block itself. */
  lemma RivIsSound(f: Func, t: Tree, init: Values, l: Label, v: Operand)
    requires f.order != [] && DominatorTree(f, t) && l in Labels(t) && DebugIsVoid(f) && UniqueDefs(f)
    requires l in Below(f, t, init) && v in Below(f, t, init)[l] && v !in init
    ensures v.Ref? && Available(f, v, l)
    ensures forall i :: 0 <= i < Count(f.blocks[l]) ==> DstAt(f.blocks[l], i) != v.r
  {
    RivIsExact(f, t, init, l, v);
    var a :| StrictlyDominates(f, a, l) && v in Defs(f, a);
    var j :| 0 <= j < Count(f.blocks[a]) && TyAt(f.blocks[a], j).IntTy? && v == Ref(DstAt(f.blocks[a], j));
    assert DefinedAt(f, a, j, v.r);
    forall p | PathTo(f, p, l)
      ensures exists i :: 0 <= i < |p| - 1 && DefinesValue(f, p[i], v.r)
    {
      assert a in p;
      var i :| 0 <= i < |p| && p[i] == a;
      assert DefinesValue(f, p[i], v.r);
    }
    forall i | 0 <= i < Count(f.blocks[l])
      ensures DstAt(f.blocks[l], i) != v.r
    {
      if DstAt(f.blocks[l], i) == v.r {
        OneDef(f, l, i, a, j);
      }
    }
  }
}
