/** Rule lists on which the combined filter is not what the rules say together. */
module RuleExamples {
  import opened Wrappers
  import opened RecordRules

  /** An active rule for reading, for the members of group 1. */
  function GroupRule(d: Filter): Rule
  {
    Rule(d, true, true, true, true, false, true, [1])
  }

  function State(i: int): Token
  {
    Leaf("state", "=", Int(i))
  }

  lemma OneMoreRule(rules: seq<Rule>, d: Filter, ctx: Context)
    requires 1 in ctx.groups && d in {[], [State(1)], [State(2)], [State(3)]}
    ensures Globals(rules + [GroupRule(d)], Read, ctx) == Globals(rules, Read, ctx)
    ensures Groups(rules + [GroupRule(d)], Read, ctx) == Groups(rules, Read, ctx) + [d]
  {
    var r := GroupRule(d);
    assert (rules + [r])[..|rules|] == rules;
    assert r.groups[0] in ctx.groups;
    assert Matches(r, ctx);
    assert Substituted(d, ctx) == d;
    assert Globals(rules, Read, ctx) + [] == Globals(rules, Read, ctx);
  }

  lemma LeafParses(t: Token)
    requires t.Leaf?
    ensures Parses([t]) && StackOn([], [t]) == Ok([Condition(t)])
  {
    assert [t][1..] == [] && [] + [Condition(t)] == [Condition(t)];
    assert StackOn([], []) == Ok([]);
  }

  /** Three group rules of one condition each for a member of the group: the combined filter does not parse. */
  lemma ThreeGroupRules(ctx: Context)
    requires !ctx.isAdmin && 1 in ctx.groups
    ensures var rules := [GroupRule([State(1)]), GroupRule([State(2)]), GroupRule([State(3)])];
            WellFormed(rules, Read, ctx) && !Parses(RuleDomain(rules, Read, ctx))
  {
    ThreeSelected(ctx);
    LeafParses(State(1));
    LeafParses(State(2));
    LeafParses(State(3));
    hide Groups, Globals, Parses, RuleDomain, GroupRule, State;
    NothingDropped([State(1)], [State(2)], [State(3)]);
    RuleMeaning([GroupRule([State(1)]), GroupRule([State(2)]), GroupRule([State(3)])], Read, ctx, _ => true);
  }

  lemma ThreeSelected(ctx: Context)
    requires 1 in ctx.groups
    ensures var rules := [GroupRule([State(1)]), GroupRule([State(2)]), GroupRule([State(3)])];
            Globals(rules, Read, ctx) == [] && Groups(rules, Read, ctx) == [[State(1)], [State(2)], [State(3)]]
  {
    NoRules(ctx);
    hide Groups, Globals, GroupRule, State;
    var a, b, c := [State(1)], [State(2)], [State(3)];
    var x, y, z := GroupRule(a), GroupRule(b), GroupRule(c);
    OneMoreRule([], a, ctx);
    OneMoreRule([x], b, ctx);
    OneMoreRule([x, y], c, ctx);
    assert [] + [x] == [x] && [x] + [y] == [x, y] && [x, y] + [z] == [x, y, z];
  }

  lemma NoRules(ctx: Context)
    ensures Globals([], Read, ctx) == [] && Groups([], Read, ctx) == []
  {
  }

  lemma NothingDropped(a: Filter, b: Filter, c: Filter)
    requires a != [] && b != [] && c != []
    ensures NonEmpty([a, b, c]) == [a, b, c]
  {
    assert [a, b, c][..2] == [a, b] && [a, b][..1] == [a] && [a][..0] == [];
    assert NonEmpty([]) == [] && NonEmpty([a]) == [] + [a];
    assert NonEmpty([a, b]) == [a] + [b];
    assert NonEmpty([a, b, c]) == [a, b] + [c];
  }

  /**
   A group rule without conditions and one with the condition that the state is 1: a record in another state is
   forbidden, though the first rule alone lets it through.
   */
  lemma UnconditionalRuleIsLost(ctx: Context)
    requires !ctx.isAdmin && 1 in ctx.groups
    ensures var rules, holds := [GroupRule([]), GroupRule([State(1)])], (t: Token) => t != State(1);
            && WellFormed(rules, Read, ctx) && Parses(RuleDomain(rules, Read, ctx))
            && Documented(rules, Read, ctx, holds) && !Meaning(RuleDomain(rules, Read, ctx), holds)
  {
    var rules, holds := [GroupRule([]), GroupRule([State(1)])], (t: Token) => t != State(1);
    OneMoreRule([], [], ctx);
    OneMoreRule([GroupRule([])], [State(1)], ctx);
    assert [] + [GroupRule([])] + [GroupRule([State(1)])] == rules;
    var groups, some := Groups(rules, Read, ctx), [[State(1)]];
    assert groups == [[], [State(1)]];
    assert Globals(rules, Read, ctx) == [];
    NothingMeansTrue(holds);
    LeafParses(State(1));
    assert NonEmpty(groups) == some by { OneDropped(State(1)); }
    hide Groups, Globals, RuleDomain, NonEmpty, GroupRule;
    OnlyTheSecond(groups, holds);
    RuleMeaning(rules, Read, ctx, holds);
  }

  lemma OneDropped(t: Token)
    ensures NonEmpty([[], [t]]) == [[t]]
  {
    var groups: seq<Filter> := [[], [t]];
    assert groups[..1][..0] == [];
    assert NonEmpty(groups[..1]) == [];
  }

  lemma OnlyTheSecond(groups: seq<Filter>, holds: Token -> bool)
    requires groups == [[], [State(1)]] && !holds(State(1))
    ensures AllParse(groups) && SomeMeans(groups, holds)
    ensures AllParse([[State(1)]]) && !SomeMeans([[State(1)]], holds)
  {
    NothingMeansTrue(holds);
    LeafParses(State(1));
    MeaningIsAllPass([State(1)], holds);
    hide StackOn, Meaning;
    assert Parses(groups[0]) && Meaning(groups[0], holds);
  }
}
