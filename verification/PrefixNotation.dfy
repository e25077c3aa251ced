/** Filters as prefix notation: what parses are the expressions of and, or, not and conditions, one after the other. */
module PrefixNotation {
  import opened Wrappers
  import opened RecordRules

  datatype Expr = Single(leaf: Token) | Both(l: Expr, r: Expr) | Either(l: Expr, r: Expr) | Except(e: Expr)

  predicate Proper(e: Expr)
  {
    match e
    case Single(leaf) => leaf.Leaf?
    case Both(l, r) => Proper(l) && Proper(r)
    case Either(l, r) => Proper(l) && Proper(r)
    case Except(x) => Proper(x)
  }

  predicate Holds(e: Expr, holds: Token -> bool)
  {
    match e
    case Single(leaf) => holds(leaf)
    case Both(l, r) => Holds(l, holds) && Holds(r, holds)
    case Either(l, r) => Holds(l, holds) || Holds(r, holds)
    case Except(x) => !Holds(x, holds)
  }

  /** An operator and then its operands. */
  function Prefix(e: Expr): Filter
  {
    match e
    case Single(leaf) => [leaf]
    case Both(l, r) => [And] + Prefix(l) + Prefix(r)
    case Either(l, r) => [Or] + Prefix(l) + Prefix(r)
    case Except(x) => [Not] + Prefix(x)
  }

  function PrefixAll(es: seq<Expr>): Filter
  {
    if es == [] then [] else Prefix(es[0]) + PrefixAll(es[1..])
  }

  /** An expression leaves one term on the stack, which means the same. */
  lemma {:induction false} PrefixStack(base: seq<Node>, e: Expr, holds: Token -> bool) returns (n: Node)
    requires Proper(e)
    ensures StackOn(base, Prefix(e)) == Ok(base + [n])
    ensures Passes(n, holds) <==> Holds(e, holds)
    decreases e
  {
    match e
    case Single(leaf) =>
      n := Condition(leaf);
      assert [leaf][1..] == [];
    case Except(x) =>
      var m := PrefixStack(base, x, holds);
      n := Negated(m);
      StackOnConcat(base, [Not], Prefix(x));
      OneItem(base + [m], Not);
      assert (base + [m])[..|base|] == base;
    case Both(l, r) =>
      var y := PrefixStack(base, r, holds);
      var x := PrefixStack(base + [y], l, holds);
      n := All([y, x]);
      TwoOperands(base, And, l, r, y, x);
      assert [y, x][0] == y && [y, x][1] == x;
    case Either(l, r) =>
      var y := PrefixStack(base, r, holds);
      var x := PrefixStack(base + [y], l, holds);
      n := Any([y, x]);
      TwoOperands(base, Or, l, r, y, x);
      assert [y, x][0] == y && [y, x][1] == x;
  }

  lemma OneItem(stack: seq<Node>, t: Token)
    ensures StackOn(stack, [t]) == Push(stack, t)
  {
    assert [t][1..] == [];
  }

  lemma TwoOperands(base: seq<Node>, op: Token, l: Expr, r: Expr, y: Node, x: Node)
    requires op == And || op == Or
    requires StackOn(base, Prefix(r)) == Ok(base + [y]) && StackOn(base + [y], Prefix(l)) == Ok(base + [y] + [x])
    ensures StackOn(base, [op] + Prefix(l) + Prefix(r)) == Ok(base + [if op == And then All([y, x]) else Any([y, x])])
  {
    StackOnConcat(base, [op] + Prefix(l), Prefix(r));
    StackOnConcat(base + [y], [op], Prefix(l));
    OneItem(base + [y] + [x], op);
    assert (base + [y] + [x])[..|base|] == base;
  }

  lemma {:induction false} PrefixStackAll(es: seq<Expr>, holds: Token -> bool)
    requires forall i :: 0 <= i < |es| ==> Proper(es[i])
    ensures StackOn([], PrefixAll(es)).Ok?
    ensures AllPass(StackOn([], PrefixAll(es)).value, holds) <==> forall i :: 0 <= i < |es| ==> Holds(es[i], holds)
  {
    hide Holds, Proper;
    if es != [] {
      PrefixStackAll(es[1..], holds);
      var rest := StackOn([], PrefixAll(es[1..])).value;
      var n := PrefixStack(rest, es[0], holds);
      StackOnConcat([], Prefix(es[0]), PrefixAll(es[1..]));
      hide StackOn, Prefix;
      var stack := rest + [n];
      assert AllPass(stack, holds) <==> AllPass(rest, holds) && Passes(n, holds) by { AllPassOne(rest, n, holds); }
      assert (forall i :: 0 <= i < |es| ==> Holds(es[i], holds))
        <==> Holds(es[0], holds) && (forall i :: 0 <= i < |es[1..]| ==> Holds(es[1..][i], holds)) by { AllOfRest(es, holds); }
    }
  }

  lemma AllPassOne(rest: seq<Node>, n: Node, holds: Token -> bool)
    ensures AllPass(rest + [n], holds) <==> AllPass(rest, holds) && Passes(n, holds)
  {
    AllPassConcat(rest, [n], holds);
    assert [n][0] == n;
  }

  lemma AllOfRest(es: seq<Expr>, holds: Token -> bool)
    requires es != []
    ensures (forall i :: 0 <= i < |es| ==> Holds(es[i], holds))
        <==> Holds(es[0], holds) && (forall i :: 0 <= i < |es[1..]| ==> Holds(es[1..][i], holds))
  {
    hide Holds;
    if Holds(es[0], holds) && forall i :: 0 <= i < |es[1..]| ==> Holds(es[1..][i], holds) {
      forall i | 0 <= i < |es| ensures Holds(es[i], holds) {
        assert i > 0 ==> es[i] == es[1..][i - 1];
      }
    }
    if forall i :: 0 <= i < |es| ==> Holds(es[i], holds) {
      forall i | 0 <= i < |es[1..]| ensures Holds(es[1..][i], holds) {
        assert es[1..][i] == es[i + 1];
      }
    }
  }

  /** Expressions one after the other parse, and mean that all of them hold. */
  lemma PrefixMeansAll(es: seq<Expr>, holds: Token -> bool)
    requires forall i :: 0 <= i < |es| ==> Proper(es[i])
    ensures Parses(PrefixAll(es))
    ensures Meaning(PrefixAll(es), holds) <==> forall i :: 0 <= i < |es| ==> Holds(es[i], holds)
  {
    PrefixStackAll(es, holds);
    MeaningIsAllPass(PrefixAll(es), holds);
  }

  lemma {:induction false} StackIsPrefix(d: Filter) returns (es: seq<Expr>)
    requires StackOn([], d).Ok?
    ensures (forall i :: 0 <= i < |es| ==> Proper(es[i])) && d == PrefixAll(es)
    ensures |es| == |StackOn([], d).value|
  {
    if d == [] {
      es := [];
    } else {
      var rest := StackIsPrefix(d[1..]);
      hide StackOn;
      Unfold(d);
      assert d == [d[0]] + PrefixAll(rest);
      es := Joined(d[0], rest);
      JoinedPrefix(d[0], rest);
    }
  }

  /** The expressions once a further item is read. */
  function Joined(t: Token, rest: seq<Expr>): seq<Expr>
    requires (t.Not? ==> |rest| >= 1) && (t.And? || t.Or? ==> |rest| >= 2)
  {
    match t
    case And => [Both(rest[0], rest[1])] + rest[2..]
    case Or => [Either(rest[0], rest[1])] + rest[2..]
    case Not => [Except(rest[0])] + rest[1..]
    case _ => [Single(t)] + rest
  }

  lemma JoinedPrefix(t: Token, rest: seq<Expr>)
    requires !t.Junk? && (t.Not? ==> |rest| >= 1) && (t.And? || t.Or? ==> |rest| >= 2)
    requires forall i :: 0 <= i < |rest| ==> Proper(rest[i])
    ensures forall i :: 0 <= i < |Joined(t, rest)| ==> Proper(Joined(t, rest)[i])
    ensures PrefixAll(Joined(t, rest)) == [t] + PrefixAll(rest)
    ensures |Joined(t, rest)| == if t.Leaf? then |rest| + 1 else if t.Not? then |rest| else |rest| - 1
  {
    if t.Leaf? {
      FirstOf(Single(t), rest);
    } else if t.Not? {
      FirstOf(Except(rest[0]), rest[1..]);
      assert [Not] + Prefix(rest[0]) + PrefixAll(rest[1..]) == [Not] + (Prefix(rest[0]) + PrefixAll(rest[1..]));
    } else {
      var x, y, z := Prefix(rest[0]), Prefix(rest[1]), PrefixAll(rest[2..]);
      FirstOf(if t.And? then Both(rest[0], rest[1]) else Either(rest[0], rest[1]), rest[2..]);
      assert rest[1..][0] == rest[1] && rest[1..][1..] == rest[2..];
      assert PrefixAll(rest) == x + (y + z);
      assert [t] + x + y + z == [t] + (x + (y + z));
    }
  }

  lemma FirstOf(e: Expr, rest: seq<Expr>)
    ensures PrefixAll([e] + rest) == Prefix(e) + PrefixAll(rest)
  {
    assert ([e] + rest)[1..] == rest;
  }

  lemma Unfold(d: Filter)
    requires d != [] && StackOn([], d).Ok?
    ensures StackOn([], d[1..]).Ok? && !d[0].Junk?
    ensures var n := |StackOn([], d[1..]).value|;
            && (d[0].Not? ==> n >= 1) && (d[0].And? || d[0].Or? ==> n >= 2)
            && |StackOn([], d).value| == if d[0].Leaf? then n + 1 else if d[0].Not? then n else n - 1
  {
  }

  /** And nothing else parses. */
  lemma ParsesIsPrefix(d: Filter) returns (es: seq<Expr>)
    requires Parses(d)
    ensures (forall i :: 0 <= i < |es| ==> Proper(es[i])) && d == PrefixAll(es)
  {
    MeaningIsAllPass(d, _ => true);
    es := StackIsPrefix(d);
  }
}
