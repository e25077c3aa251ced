/** Record rules: which filter a user's rules combine to, and what that filter means once it is parsed. */
module RecordRules {
  import opened Wrappers

  datatype Value = Int(i: int) | Text(s: string) | Null | Bool(b: bool) | List(values: seq<Value>)

  /** An item of a domain: a prefix operator, a condition, or something that is neither. */
  datatype Token = And | Or | Not | Leaf(field: string, op: string, value: Value) | Junk

  type Filter = seq<Token>

  // ----- parsing: a stack, filled from the right

  datatype Node = Condition(leaf: Token) | All(children: seq<Node>) | Any(children: seq<Node>) | Negated(child: Node)

  datatype ParseError = MissingOperand | NotAnItem

  function Push(stack: seq<Node>, t: Token): Result<seq<Node>, ParseError>
  {
    var n := |stack|;
    match t
    case And => if n < 2 then Err(MissingOperand) else Ok(stack[..n - 2] + [All([stack[n - 2], stack[n - 1]])])
    case Or => if n < 2 then Err(MissingOperand) else Ok(stack[..n - 2] + [Any([stack[n - 2], stack[n - 1]])])
    case Not => if n < 1 then Err(MissingOperand) else Ok(stack[..n - 1] + [Negated(stack[n - 1])])
    case Leaf(_, _, _) => Ok(stack + [Condition(t)])
    case Junk => Err(NotAnItem)
  }

  /** The stack after reading the items of d, the last one first, on top of base. */
  function StackOn(base: seq<Node>, d: Filter): Result<seq<Node>, ParseError>
  {
    if d == [] then Ok(base)
    else
      var stack :- StackOn(base, d[1..]);
      Push(stack, d[0])
  }

  /** Terms that are left over are joined by an implicit AND. */
  function Parse(d: Filter): Result<Node, ParseError>
  {
    var stack :- StackOn([], d);
    Ok(if |stack| == 1 then stack[0] else All(stack))
  }

  method ParseDomain(d: Filter) returns (r: Result<Node, ParseError>)
    ensures r == Parse(d)
  {
    var stack: seq<Node> := [];
    var i := |d|;
    while i > 0
      invariant 0 <= i <= |d|
      invariant StackOn([], d[i..]) == Ok(stack)
    {
      i := i - 1;
      assert d[i..][0] == d[i] && d[i..][1..] == d[i + 1..];
      var next := Push(stack, d[i]);
      if next.Err? {
        StackFails([], d, i);
        return Err(next.error);
      }
      stack := next.value;
    }
    assert d[i..] == d;
    return Ok(if |stack| == 1 then stack[0] else All(stack));
  }

  lemma {:induction false} StackFails(base: seq<Node>, d: Filter, i: nat)
    requires i <= |d| && StackOn(base, d[i..]).Err?
    ensures StackOn(base, d) == StackOn(base, d[i..])
  {
    if i == 0 {
      assert d[0..] == d;
    } else {
      assert d[i - 1..][1..] == d[i..];
      StackFails(base, d, i - 1);
    }
  }

  // ----- meaning

  /** Whether a record passes, given which conditions hold of it. */
  predicate Passes(n: Node, holds: Token -> bool)
  {
    match n
    case Condition(leaf) => holds(leaf)
    case All(children) => forall i :: 0 <= i < |children| ==> Passes(children[i], holds)
    case Any(children) => exists i :: 0 <= i < |children| && Passes(children[i], holds)
    case Negated(child) => !Passes(child, holds)
  }

  predicate AllPass(stack: seq<Node>, holds: Token -> bool)
  {
    forall i :: 0 <= i < |stack| ==> Passes(stack[i], holds)
  }

  predicate Parses(d: Filter)
  {
    Parse(d).Ok?
  }

  /** The records that a parsed filter lets through. */
  predicate Meaning(d: Filter, holds: Token -> bool)
    requires Parses(d)
  {
    Passes(Parse(d).value, holds)
  }

  lemma MeaningIsAllPass(d: Filter, holds: Token -> bool)
    ensures Parses(d) <==> StackOn([], d).Ok?
    ensures Parses(d) ==> (Meaning(d, holds) <==> AllPass(StackOn([], d).value, holds))
  {
  }

  // ----- the combinators

  function AndOf(a: Filter, b: Filter): Filter
  {
    a + b
  }

  /** n times the operator "&". */
  function Amps(n: nat): (r: Filter)
    ensures |r| == n
  {
    if n == 0 then [] else [And] + Amps(n - 1)
  }

  function OrOf(a: Filter, b: Filter): Filter
  {
    if a == [] then b else if b == [] then a else [Or] + Amps(|a| - 1) + a + Amps(|b| - 1) + b
  }

  method DomainAnd(a: Filter, b: Filter) returns (result: Filter)
    ensures result == AndOf(a, b)
  {
    if a == [] {
      assert a + b == b;
      return b;
    }
    if b == [] {
      assert a + b == a;
      return a;
    }
    result := a;
    for i := 0 to |b|
      invariant result == a + b[..i]
    {
      result := result + [b[i]];
      assert b[..i + 1] == b[..i] + [b[i]];
    }
    assert b[..|b|] == b;
  }

  method DomainOr(a: Filter, b: Filter) returns (result: Filter)
    ensures result == OrOf(a, b)
  {
    if a == [] {
      return b;
    }
    if b == [] {
      return a;
    }
    result := AddGroup([Or], a);
    result := AddGroup(result, b);
    assert result == [Or] + Amps(|a| - 1) + a + Amps(|b| - 1) + b;
  }

  /** Append the items of d, grouped by as many "&" as d has items beyond the first. */
  method AddGroup(before: Filter, d: Filter) returns (result: Filter)
    requires d != []
    ensures result == before + Amps(|d| - 1) + d
  {
    result := before;
    for i := 0 to |d| - 1
      invariant result + Amps(|d| - 1 - i) == before + Amps(|d| - 1)
    {
      assert result + ([And] + Amps(|d| - 2 - i)) == (result + [And]) + Amps(|d| - 2 - i);
      result := result + [And];
    }
    assert result == before + Amps(|d| - 1);
    for i := 0 to |d|
      invariant result == before + Amps(|d| - 1) + d[..i]
    {
      result := result + [d[i]];
      assert d[..i + 1] == d[..i] + [d[i]];
    }
    assert d[..|d|] == d;
  }

  // ----- rules

  datatype RuleOp = Read | Write | Create | Unlink

  datatype Rule = Rule(domain: Filter, permRead: bool, permWrite: bool, permCreate: bool, permUnlink: bool,
                       isGlobal: bool, active: bool, groups: seq<int>)

  datatype Context = Context(uid: int, companyId: int, partnerId: int, isAdmin: bool, groups: set<int>)

  predicate AppliesTo(r: Rule, op: RuleOp)
  {
    match op
    case Read => r.permRead
    case Write => r.permWrite
    case Create => r.permCreate
    case Unlink => r.permUnlink
  }

  function SubstitutedToken(t: Token, ctx: Context): Token
  {
    if t.Leaf? && t.value == Text("user.id") then t.(value := Int(ctx.uid))
    else if t.Leaf? && t.value == Text("user.company_id") then t.(value := Int(ctx.companyId))
    else if t.Leaf? && t.value == Text("user.partner_id") then t.(value := Int(ctx.partnerId))
    else t
  }

  function Substituted(d: Filter, ctx: Context): (r: Filter)
    ensures |r| == |d| && forall i :: 0 <= i < |d| ==> r[i] == SubstitutedToken(d[i], ctx)
  {
    seq(|d|, i requires 0 <= i < |d| => SubstitutedToken(d[i], ctx))
  }

  method SubstituteVars(d: Filter, ctx: Context) returns (domain: Filter)
    ensures domain == Substituted(d, ctx)
  {
    domain := d;
    for i := 0 to |d|
      invariant |domain| == |d|
      invariant forall j :: 0 <= j < |d| ==> domain[j] == if j < i then SubstitutedToken(d[j], ctx) else d[j]
    {
      var t := domain[i];
      if t.Leaf? {
        if t.value == Text("user.id") {
          domain := domain[i := t.(value := Int(ctx.uid))];
        } else if t.value == Text("user.company_id") {
          domain := domain[i := t.(value := Int(ctx.companyId))];
        } else if t.value == Text("user.partner_id") {
          domain := domain[i := t.(value := Int(ctx.partnerId))];
        }
      }
    }
  }

  predicate Matches(r: Rule, ctx: Context)
  {
    exists i :: 0 <= i < |r.groups| && r.groups[i] in ctx.groups
  }

  /** The filters of the global rules that apply. */
  function Globals(rules: seq<Rule>, op: RuleOp, ctx: Context): seq<Filter>
  {
    if rules == [] then []
    else
      var r := rules[|rules| - 1];
      Globals(rules[..|rules| - 1], op, ctx)
      + if r.active && AppliesTo(r, op) && r.isGlobal then [Substituted(r.domain, ctx)] else []
  }

  /** The filters of the group rules that apply and that one of the user's groups selects. */
  function Groups(rules: seq<Rule>, op: RuleOp, ctx: Context): seq<Filter>
  {
    if rules == [] then []
    else
      var r := rules[|rules| - 1];
      Groups(rules[..|rules| - 1], op, ctx)
      + if r.active && AppliesTo(r, op) && !r.isGlobal && Matches(r, ctx) then [Substituted(r.domain, ctx)] else []
  }

  function AndAll(ds: seq<Filter>): Filter
  {
    if ds == [] then [] else AndOf(AndAll(ds[..|ds| - 1]), ds[|ds| - 1])
  }

  function OrAll(ds: seq<Filter>): Filter
  {
    if ds == [] then [] else OrOf(OrAll(ds[..|ds| - 1]), ds[|ds| - 1])
  }

  function RuleDomain(rules: seq<Rule>, op: RuleOp, ctx: Context): Filter
  {
    if ctx.isAdmin then [] else AndOf(AndAll(Globals(rules, op, ctx)), OrAll(Groups(rules, op, ctx)))
  }

  method BuildRuleDomain(rules: seq<Rule>, op: RuleOp, ctx: Context) returns (result: Filter)
    ensures result == RuleDomain(rules, op, ctx)
    ensures ctx.isAdmin ==> result == []
  {
    if ctx.isAdmin {
      return [];
    }
    var globalDomains, groupDomains := Collect(rules, op, ctx);
    hide Globals, Groups, AndAll, OrAll;
    result := JoinAll(globalDomains);
    if groupDomains != [] {
      var grp := JoinAny(groupDomains);
      result := DomainAnd(result, grp);
    } else {
      NoGroups();
      assert result + [] == result;
    }
  }

  lemma NoGroups()
    ensures OrAll([]) == []
  {
  }

  method JoinAll(ds: seq<Filter>) returns (result: Filter)
    ensures result == AndAll(ds)
  {
    result := [];
    for i := 0 to |ds|
      invariant result == AndAll(ds[..i])
    {
      assert ds[..i + 1][..i] == ds[..i];
      result := DomainAnd(result, ds[i]);
    }
    assert ds[..|ds|] == ds;
  }

  method JoinAny(ds: seq<Filter>) returns (grp: Filter)
    requires ds != []
    ensures grp == OrAll(ds)
  {
    hide OrOf;
    grp := ds[0];
    assert ds[..1][..0] == [];
    assert OrAll(ds[..1]) == grp by { OrOfNothing(grp); }
    for i := 1 to |ds|
      invariant grp == OrAll(ds[..i])
    {
      assert ds[..i + 1][..i] == ds[..i];
      grp := DomainOr(grp, ds[i]);
    }
    assert ds[..|ds|] == ds;
  }

  method Collect(rules: seq<Rule>, op: RuleOp, ctx: Context) returns (globals: seq<Filter>, groups: seq<Filter>)
    ensures globals == Globals(rules, op, ctx) && groups == Groups(rules, op, ctx)
  {
    hide Substituted;
    globals, groups := [], [];
    for i := 0 to |rules|
      invariant globals == Globals(rules[..i], op, ctx) && groups == Groups(rules[..i], op, ctx)
    {
      var r := rules[i];
      assert rules[..i + 1][..i] == rules[..i];
      if r.active && AppliesTo(r, op) {
        var dom := SubstituteVars(r.domain, ctx);
        if r.isGlobal {
          globals := globals + [dom];
        } else {
          var matches := false;
          for g := 0 to |r.groups|
            invariant matches <==> exists j :: 0 <= j < g && r.groups[j] in ctx.groups
          {
            if r.groups[g] in ctx.groups {
              matches := true;
              break;
            }
          }
          if matches {
            groups := groups + [dom];
          }
        }
      }
    }
    assert rules[..|rules|] == rules;
  }

  lemma OrOfNothing(d: Filter)
    ensures OrOf([], d) == d
  {
  }

  // ----- stacks of concatenated filters

  /** Reading a on top of what b left. */
  lemma {:induction false} StackOnConcat(base: seq<Node>, a: Filter, b: Filter)
    ensures StackOn(base, a + b)
         == if StackOn(base, b).Ok? then StackOn(StackOn(base, b).value, a) else Err(StackOn(base, b).error)
  {
    if a == [] {
      assert a + b == b;
    } else {
      assert (a + b)[0] == a[0] && (a + b)[1..] == a[1..] + b;
      hide Push;
      StackOnConcat(base, a[1..], b);
    }
  }

  lemma PushOnTop(base: seq<Node>, stack: seq<Node>, t: Token)
    requires Push(stack, t).Ok?
    ensures Push(base + stack, t) == Ok(base + Push(stack, t).value)
  {
    var n, m := |stack|, |base + stack|;
    if t.Leaf? {
      assert base + stack + [Condition(t)] == base + (stack + [Condition(t)]);
    } else if t.Not? {
      assert (base + stack)[..m - 1] + [Negated(stack[n - 1])] == base + (stack[..n - 1] + [Negated(stack[n - 1])]);
    } else {
      var top := if t.And? then All([stack[n - 2], stack[n - 1]]) else Any([stack[n - 2], stack[n - 1]]);
      assert (base + stack)[..m - 2] + [top] == base + (stack[..n - 2] + [top]);
    }
  }

  /** What lies below does not matter to a filter that parses by itself. */
  lemma {:induction false} StackOnTop(base: seq<Node>, stack: seq<Node>, d: Filter)
    requires StackOn(stack, d).Ok?
    ensures StackOn(base + stack, d) == Ok(base + StackOn(stack, d).value)
  {
    if d != [] {
      hide Push;
      StackOnTop(base, stack, d[1..]);
      PushOnTop(base, StackOn(stack, d[1..]).value, d[0]);
    }
  }

  lemma BaseAlone(base: seq<Node>, d: Filter)
    requires StackOn([], d).Ok?
    ensures StackOn(base, d) == Ok(base + StackOn([], d).value)
  {
    StackOnTop(base, [], d);
    assert base + [] == base;
  }

  // ----- conjunction

  lemma AllPassConcat(a: seq<Node>, b: seq<Node>, holds: Token -> bool)
    ensures AllPass(a + b, holds) <==> AllPass(a, holds) && AllPass(b, holds)
  {
    if AllPass(a + b, holds) {
      forall i | 0 <= i < |a| ensures Passes(a[i], holds) {
        assert (a + b)[i] == a[i];
      }
      forall i | 0 <= i < |b| ensures Passes(b[i], holds) {
        assert (a + b)[|a| + i] == b[i];
      }
    }
  }

  /** Joining filters that parse gives one that parses, and means both. */
  lemma AndMeansBoth(a: Filter, b: Filter, holds: Token -> bool)
    requires Parses(a) && Parses(b)
    ensures Parses(AndOf(a, b))
    ensures Meaning(AndOf(a, b), holds) <==> Meaning(a, holds) && Meaning(b, holds)
  {
    StackOnConcat([], a, b);
    BaseAlone(StackOn([], b).value, a);
    MeaningIsAllPass(a, holds);
    MeaningIsAllPass(b, holds);
    MeaningIsAllPass(a + b, holds);
    hide Parses, Meaning, AllPass, StackOn;
    AllPassConcat(StackOn([], b).value, StackOn([], a).value, holds);
  }

  lemma NothingMeansTrue(holds: Token -> bool)
    ensures Parses([]) && Meaning([], holds)
  {
  }

  ghost predicate AllParse(ds: seq<Filter>)
  {
    forall i :: 0 <= i < |ds| ==> Parses(ds[i])
  }

  ghost predicate AllMean(ds: seq<Filter>, holds: Token -> bool)
    requires AllParse(ds)
  {
    forall i :: 0 <= i < |ds| ==> Meaning(ds[i], holds)
  }

  lemma {:induction false} AndAllMeansAll(ds: seq<Filter>, holds: Token -> bool)
    requires AllParse(ds)
    ensures Parses(AndAll(ds)) && (Meaning(AndAll(ds), holds) <==> AllMean(ds, holds))
  {
    NothingMeansTrue(holds);
    hide Parses, Meaning, AndOf;
    if ds != [] {
      AndAllMeansAll(ds[..|ds| - 1], holds);
      AndMeansBoth(AndAll(ds[..|ds| - 1]), ds[|ds| - 1], holds);
    }
  }

  // ----- disjunction

  /** Conditions only: no operator, nothing unknown. */
  predicate LeavesOnly(d: Filter)
  {
    forall i :: 0 <= i < |d| ==> d[i].Leaf?
  }

  /** The number of terms that a filter adds to the stack. */
  function Net(d: Filter): (n: int)
    ensures n <= |d|
  {
    if d == [] then 0
    else Net(d[1..]) + match d[0]
                       case And => -1
                       case Or => -1
                       case Not => 0
                       case Leaf(_, _, _) => 1
                       case Junk => 0
  }

  lemma {:induction false} NetCounts(base: seq<Node>, d: Filter)
    requires StackOn(base, d).Ok?
    ensures |StackOn(base, d).value| == |base| + Net(d)
  {
    if d != [] {
      NetCounts(base, d[1..]);
    }
  }

  /** A filter has as many terms as items only if it has no operators. */
  lemma {:induction false} NetOfLeaves(d: Filter)
    ensures Net(d) == |d| <==> LeavesOnly(d)
  {
    if d != [] {
      NetOfLeaves(d[1..]);
      assert LeavesOnly(d) <==> d[0].Leaf? && LeavesOnly(d[1..]) by {
        if d[0].Leaf? && LeavesOnly(d[1..]) {
          forall i | 0 <= i < |d| ensures d[i].Leaf? {
            assert i > 0 ==> d[i] == d[1..][i - 1];
          }
        }
        if LeavesOnly(d) {
          forall i | 0 <= i < |d| - 1 ensures d[1..][i].Leaf? {
            assert d[1..][i] == d[i + 1];
          }
        }
      }
    }
  }

  lemma {:induction false} LeavesParse(base: seq<Node>, d: Filter)
    requires LeavesOnly(d)
    ensures StackOn(base, d).Ok?
  {
    if d != [] {
      LeavesParse(base, d[1..]);
    }
  }

  lemma AmpsInside(n: nat)
    requires n > 0
    ensures Amps(n)[0] == And && Amps(n)[1..] == Amps(n - 1)
  {
  }

  /** n operators "&" join the last n + 1 terms into one. */
  lemma {:induction false} AmpsJoin(stack: seq<Node>, n: nat, holds: Token -> bool)
    ensures StackOn(stack, Amps(n)).Ok? <==> n == 0 || |stack| > n
    ensures StackOn(stack, Amps(n)).Ok? ==>
              var r := StackOn(stack, Amps(n)).value;
              |r| == |stack| - n && (AllPass(r, holds) <==> AllPass(stack, holds))
  {
    if n > 0 {
      AmpsInside(n);
      AmpsJoin(stack, n - 1, holds);
      hide AllPass;
      var before := StackOn(stack, Amps(n - 1));
      if before.Ok? && |before.value| >= 2 {
        JoinTopTwo(before.value, holds);
      }
    }
  }

  lemma JoinTopTwo(stack: seq<Node>, holds: Token -> bool)
    requires |stack| >= 2
    ensures var r := Push(stack, And).value;
            |r| == |stack| - 1 && (AllPass(r, holds) <==> AllPass(stack, holds))
  {
    var n := |stack|;
    var pair := [stack[n - 2], stack[n - 1]];
    var top := All(pair);
    PassesPair(pair[0], pair[1], holds);
    assert AllPass([top], holds) <==> AllPass(pair, holds) by {
      assert [top][0] == top;
    }
    AllPassConcat(stack[..n - 2], [top], holds);
    AllPassConcat(stack[..n - 2], stack[n - 2..], holds);
    assert stack == stack[..n - 2] + stack[n - 2..];
    assert stack[n - 2..] == [stack[n - 2], stack[n - 1]];
  }

  lemma PassesPair(l: Node, r: Node, holds: Token -> bool)
    ensures Passes(All([l, r]), holds) <==> Passes(l, holds) && Passes(r, holds)
    ensures Passes(Any([l, r]), holds) <==> Passes(l, holds) || Passes(r, holds)
  {
    assert [l, r][0] == l && [l, r][1] == r;
  }

  /** A side of the disjunction with its grouping operators. */
  function Group(d: Filter): Filter
    requires d != []
  {
    Amps(|d| - 1) + d
  }

  /** A group of conditions leaves one term, which means what the conditions mean together. */
  lemma GroupJoins(d: Filter, holds: Token -> bool)
    requires d != [] && LeavesOnly(d)
    ensures Parses(d)
    ensures StackOn([], Group(d)).Ok? && |StackOn([], Group(d)).value| == 1
    ensures Passes(StackOn([], Group(d)).value[0], holds) <==> Meaning(d, holds)
  {
    LeavesParse([], d);
    NetCounts([], d);
    NetOfLeaves(d);
    MeaningIsAllPass(d, holds);
    AmpsJoin(StackOn([], d).value, |d| - 1, holds);
    StackOnConcat([], Amps(|d| - 1), d);
    hide StackOn, Parses, Meaning, LeavesOnly, Amps, Net;
  }

  /** Two groups that leave one term each leave the disjunction of the two. */
  lemma OrStack(a: Filter, b: Filter, l: Node, r: Node)
    requires a != [] && b != []
    requires StackOn([], Group(a)) == Ok([r]) && StackOn([], Group(b)) == Ok([l])
    ensures StackOn([], OrOf(a, b)) == Ok([Any([l, r])])
  {
    OrIsGrouped(a, b);
    hide StackOn, Group, OrOf;
    StackOnConcat([], Group(a), Group(b));
    BaseAlone([l], Group(a));
    assert [l] + [r] == [l, r];
    OneOperator(Group(a) + Group(b), [l, r]);
  }

  lemma OrIsGrouped(a: Filter, b: Filter)
    requires a != [] && b != []
    ensures OrOf(a, b) == [Or] + (Group(a) + Group(b))
  {
  }

  /** The disjunction of two filters made of conditions parses and means either. */
  lemma OrMeansEither(a: Filter, b: Filter, holds: Token -> bool)
    requires a != [] && b != [] && LeavesOnly(a) && LeavesOnly(b)
    ensures Parses(a) && Parses(b) && Parses(OrOf(a, b))
    ensures Meaning(OrOf(a, b), holds) <==> Meaning(a, holds) || Meaning(b, holds)
  {
    hide StackOn, LeavesOnly, Group, OrOf, Passes;
    GroupJoins(a, holds);
    GroupJoins(b, holds);
    var l, r := StackOn([], Group(b)).value[0], StackOn([], Group(a)).value[0];
    assert StackOn([], Group(a)).value == [r] && StackOn([], Group(b)).value == [l];
    OrStack(a, b, l, r);
    PassesPair(l, r, holds);
    var top := [Any([l, r])];
    assert Parse(OrOf(a, b)) == Ok(top[0]);
  }

  lemma OneOperator(rest: Filter, u: seq<Node>)
    requires StackOn([], rest) == Ok(u) && |u| == 2
    ensures StackOn([], [Or] + rest) == Ok([Any([u[0], u[1]])])
  {
    assert ([Or] + rest)[1..] == rest;
    assert u[..0] + [Any([u[0], u[1]])] == [Any([u[0], u[1]])];
  }

  /**
   The disjunction counts items, not terms, when it groups: with anything but conditions on either side the operators
   run out of operands.
   */
  lemma OrNeedsLeaves(a: Filter, b: Filter)
    requires a != [] && b != [] && Parses(b) && Parses(OrOf(a, b))
    ensures LeavesOnly(a) && LeavesOnly(b)
  {
    var rest := Group(a) + Group(b);
    assert OrOf(a, b) == [Or] + rest && ([Or] + rest)[1..] == rest && ([Or] + rest)[0] == Or;
    assert StackOn([], rest).Ok? && |StackOn([], rest).value| >= 2;
    StackOnConcat([], Group(a), Group(b));
    GroupNeeds([], b);
    GroupNeeds(StackOn([], Group(b)).value, a);
    NetOfLeaves(a);
    NetOfLeaves(b);
  }

  lemma GroupNeeds(base: seq<Node>, d: Filter)
    requires d != [] && StackOn(base, Group(d)).Ok?
    ensures |StackOn(base, Group(d)).value| == |base| + Net(d) - |d| + 1
    ensures |d| > 1 ==> |base| + Net(d) >= |d|
  {
    StackOnConcat(base, Amps(|d| - 1), d);
    NetCounts(base, d);
    AmpsJoin(StackOn(base, d).value, |d| - 1, _ => true);
  }

  // ----- any number of group rules

  function NonEmpty(ds: seq<Filter>): (r: seq<Filter>)
    ensures forall i :: 0 <= i < |r| ==> r[i] != [] && r[i] in ds
    ensures forall d :: d in ds && d != [] ==> d in r
  {
    if ds == [] then []
    else
      var last := ds[|ds| - 1];
      var r := NonEmpty(ds[..|ds| - 1]);
      assert forall d :: d in ds ==> d in ds[..|ds| - 1] || d == last;
      if last == [] then r else r + [last]
  }

  /** Empty filters are dropped from the disjunction. */
  lemma {:induction false} OrAllDropsEmpty(ds: seq<Filter>)
    ensures OrAll(NonEmpty(ds)) == OrAll(ds)
  {
    hide Amps;
    if ds != [] {
      var init, last := ds[..|ds| - 1], ds[|ds| - 1];
      OrAllDropsEmpty(init);
      if last != [] {
        assert (NonEmpty(init) + [last])[..|NonEmpty(init)|] == NonEmpty(init);
      }
    }
  }

  /** The filters that the combinator can join: at most one, or two made of conditions only. */
  predicate Combinable(ds: seq<Filter>)
  {
    |ds| <= 1 || (|ds| == 2 && LeavesOnly(ds[0]) && LeavesOnly(ds[1]))
  }

  ghost predicate SomeMeans(ds: seq<Filter>, holds: Token -> bool)
  {
    exists i :: 0 <= i < |ds| && Parses(ds[i]) && Meaning(ds[i], holds)
  }

  lemma OrStartsWithOperator(ds: seq<Filter>)
    requires |ds| >= 2 && forall i :: 0 <= i < |ds| ==> ds[i] != []
    ensures OrAll(ds) != [] && !LeavesOnly(OrAll(ds))
  {
    var init, last := ds[..|ds| - 1], ds[|ds| - 1];
    OrAllNotEmpty(init);
    assert last != [];
    var d := OrAll(ds);
    assert d == [Or] + Amps(|OrAll(init)| - 1) + OrAll(init) + Amps(|last| - 1) + last;
    assert d[0] == Or;
  }

  lemma {:induction false} OrAllNotEmpty(ds: seq<Filter>)
    requires ds != [] && forall i :: 0 <= i < |ds| ==> ds[i] != []
    ensures OrAll(ds) != []
  {
    assert ds[|ds| - 1] != [];
    if |ds| > 1 {
      OrAllNotEmpty(ds[..|ds| - 1]);
    }
  }

  lemma OrAllOfOne(d: Filter)
    ensures OrAll([d]) == d
  {
    assert [d][..0] == [];
  }

  /** The disjunction parses exactly when the filters are combinable; then it means that one of them holds. */
  lemma OrAllMeansSome(ds: seq<Filter>, holds: Token -> bool)
    requires AllParse(ds) && ds != [] && forall i :: 0 <= i < |ds| ==> ds[i] != []
    ensures Parses(OrAll(ds)) <==> Combinable(ds)
    ensures Parses(OrAll(ds)) ==> (Meaning(OrAll(ds), holds) <==> SomeMeans(ds, holds))
  {
    hide Parses, Meaning, OrOf, LeavesOnly;
    var init, last := ds[..|ds| - 1], ds[|ds| - 1];
    if |ds| == 1 {
      OrAllOfOne(ds[0]);
      assert ds == [ds[0]];
    } else if |ds| == 2 {
      OrAllOfOne(ds[0]);
      assert init == [ds[0]];
      assert OrAll(ds) == OrOf(ds[0], ds[1]);
      if LeavesOnly(ds[0]) && LeavesOnly(ds[1]) {
        OrMeansEither(ds[0], ds[1], holds);
      } else if Parses(OrAll(ds)) {
        OrNeedsLeaves(ds[0], ds[1]);
      }
    } else {
      OrStartsWithOperator(init);
      assert OrAll(ds) == OrOf(OrAll(init), last);
      if Parses(OrAll(ds)) {
        OrNeedsLeaves(OrAll(init), last);
      }
    }
  }

  // ----- the rules of a model

  /** Every rule that applies has a filter that parses. */
  ghost predicate WellFormed(rules: seq<Rule>, op: RuleOp, ctx: Context)
  {
    AllParse(Globals(rules, op, ctx)) && AllParse(Groups(rules, op, ctx))
  }

  lemma NonEmptyParse(ds: seq<Filter>)
    requires AllParse(ds)
    ensures AllParse(NonEmpty(ds))
  {
    var r := NonEmpty(ds);
    forall i | 0 <= i < |r| ensures Parses(r[i]) {
      assert r[i] in ds;
    }
  }

  /**
   The combined filter of a user who is no administrator parses exactly when the matching group rules that have
   conditions are combinable. It then passes a record exactly when every global rule does and, if there is such a
   group rule, at least one of them does.
   */
  lemma RuleMeaning(rules: seq<Rule>, op: RuleOp, ctx: Context, holds: Token -> bool)
    requires WellFormed(rules, op, ctx) && !ctx.isAdmin
    ensures AllParse(NonEmpty(Groups(rules, op, ctx)))
    ensures var groups := NonEmpty(Groups(rules, op, ctx));
            && (Parses(RuleDomain(rules, op, ctx)) <==> Combinable(groups))
            && (Parses(RuleDomain(rules, op, ctx)) ==>
                 (Meaning(RuleDomain(rules, op, ctx), holds) <==>
                   AllMean(Globals(rules, op, ctx), holds) && (groups == [] || SomeMeans(groups, holds))))
  {
    var globals, groups := Globals(rules, op, ctx), Groups(rules, op, ctx);
    hide Globals, Groups, Combinable;
    NonEmptyParse(groups);
    var some := NonEmpty(groups);
    OrAllDropsEmpty(groups);
    AndAllMeansAll(globals, holds);
    if some == [] {
      NothingMeansTrue(holds);
      NoneIsCombinable();
    } else {
      OrAllMeansSome(some, holds);
    }
    var a, b := AndAll(globals), OrAll(groups);
    assert OrAll(some) == b;
    hide AndAll, OrAll, NonEmpty, SomeMeans, AllMean;
    if Parses(b) {
      AndMeansBoth(a, b, holds);
    } else {
      MeaningIsAllPass(b, holds);
      MeaningIsAllPass(a + b, holds);
      StackOnConcat([], a, b);
    }
  }

  lemma NoneIsCombinable()
    ensures Combinable([])
  {
  }

  /** The documented rule: all global rules, and one of the matching group rules if any matches. */
  ghost predicate Documented(rules: seq<Rule>, op: RuleOp, ctx: Context, holds: Token -> bool)
    requires WellFormed(rules, op, ctx)
  {
    && AllMean(Globals(rules, op, ctx), holds)
    && (Groups(rules, op, ctx) == [] || SomeMeans(Groups(rules, op, ctx), holds))
  }

  /** A matching group rule without conditions lets everything through, but other group rules override it. */
  ghost predicate UnconditionalIsOverridden(rules: seq<Rule>, op: RuleOp, ctx: Context, holds: Token -> bool)
    requires WellFormed(rules, op, ctx)
  {
    var groups := Groups(rules, op, ctx);
    && AllMean(Globals(rules, op, ctx), holds)
    && [] in groups && NonEmpty(groups) != [] && !SomeMeans(NonEmpty(groups), holds)
  }

  /** The combined filter does what is documented on all records but those. */
  lemma DocumentedExactly(rules: seq<Rule>, op: RuleOp, ctx: Context, holds: Token -> bool)
    requires WellFormed(rules, op, ctx) && !ctx.isAdmin && Parses(RuleDomain(rules, op, ctx))
    ensures (Meaning(RuleDomain(rules, op, ctx), holds) <==> Documented(rules, op, ctx, holds))
       <==> !UnconditionalIsOverridden(rules, op, ctx, holds)
  {
    RuleMeaning(rules, op, ctx, holds);
    var groups := Groups(rules, op, ctx);
    hide Globals, Groups, RuleDomain;
    NonEmptyMeans(groups, holds);
    NothingMeansTrue(holds);
    hide NonEmpty, Parses, Meaning;
    if [] in groups {
      var i :| 0 <= i < |groups| && groups[i] == [];
      assert SomeMeans(groups, holds);
    }
  }

  /** The filters are all unconditional, or none of them is. */
  predicate Uniform(ds: seq<Filter>)
  {
    (forall i :: 0 <= i < |ds| ==> ds[i] == []) || (forall i :: 0 <= i < |ds| ==> ds[i] != [])
  }

  lemma UniformMeans(ds: seq<Filter>)
    requires Uniform(ds)
    ensures !([] in ds && NonEmpty(ds) != [])
  {
  }

  /** Code and documentation agree on every record when the matching group rules are all unconditional or none is. */
  lemma DocumentedForUniformGroups(rules: seq<Rule>, op: RuleOp, ctx: Context, holds: Token -> bool)
    requires WellFormed(rules, op, ctx) && !ctx.isAdmin && Parses(RuleDomain(rules, op, ctx))
    requires Uniform(Groups(rules, op, ctx))
    ensures Meaning(RuleDomain(rules, op, ctx), holds) <==> Documented(rules, op, ctx, holds)
  {
    hide Globals, Groups, RuleDomain, Documented, Meaning, Parses, NonEmpty, Uniform;
    DocumentedExactly(rules, op, ctx, holds);
    UniformMeans(Groups(rules, op, ctx));
  }

  lemma NonEmptyMeans(groups: seq<Filter>, holds: Token -> bool)
    requires AllParse(groups)
    ensures AllParse(NonEmpty(groups))
    ensures [] !in groups ==> (SomeMeans(groups, holds) <==> SomeMeans(NonEmpty(groups), holds))
    ensures SomeMeans(NonEmpty(groups), holds) ==> SomeMeans(groups, holds)
    ensures [] !in groups ==> (NonEmpty(groups) == [] <==> groups == [])
    ensures groups == [] ==> NonEmpty(groups) == []
  {
    NonEmptyParse(groups);
    var some := NonEmpty(groups);
    hide Parses, Meaning;
    if SomeMeans(some, holds) {
      var i :| 0 <= i < |some| && Parses(some[i]) && Meaning(some[i], holds);
      assert some[i] in groups;
      var j :| 0 <= j < |groups| && groups[j] == some[i];
    }
    if [] !in groups {
      if groups != [] {
        assert groups[0] in groups && groups[0] in some;
      }
      if SomeMeans(groups, holds) {
        var i :| 0 <= i < |groups| && Parses(groups[i]) && Meaning(groups[i], holds);
        assert groups[i] in groups && groups[i] in some;
        var j :| 0 <= j < |some| && some[j] == groups[i];
      }
    }
  }

  /** Substitution changes values only, so it changes nothing about parsing. */
  lemma {:induction false} SubstitutionKeepsShape(d: Filter, ctx: Context)
    ensures Parses(Substituted(d, ctx)) <==> Parses(d)
    ensures LeavesOnly(Substituted(d, ctx)) <==> LeavesOnly(d)
  {
    SubstitutedStack(d, ctx);
    assert forall i :: 0 <= i < |d| ==> (Substituted(d, ctx)[i].Leaf? <==> d[i].Leaf?);
  }

  lemma {:induction false} SubstitutedStack(d: Filter, ctx: Context)
    ensures StackOn([], Substituted(d, ctx)).Ok? <==> StackOn([], d).Ok?
    ensures StackOn([], d).Ok? ==> |StackOn([], Substituted(d, ctx)).value| == |StackOn([], d).value|
  {
    if d != [] {
      SubstitutedStack(d[1..], ctx);
      assert Substituted(d, ctx)[1..] == Substituted(d[1..], ctx);
      assert Substituted(d, ctx)[0] == SubstitutedToken(d[0], ctx);
      hide Push, Substituted, SubstitutedToken;
      var a, b := StackOn([], d[1..]), StackOn([], Substituted(d[1..], ctx));
      if a.Ok? {
        SamePush(a.value, b.value, d[0], ctx);
      }
    }
  }

  lemma SamePush(a: seq<Node>, b: seq<Node>, t: Token, ctx: Context)
    requires |a| == |b|
    ensures var u := SubstitutedToken(t, ctx);
            && (Push(a, t).Ok? <==> Push(b, u).Ok?)
            && (Push(a, t).Ok? ==> |Push(a, t).value| == |Push(b, u).value|)
  {
  }
}
