/** The documented meaning of record rules, over the rules themselves: their flags, their groups, and the user's values. */
module DocumentedRules {
  import opened Wrappers
  import opened RecordRules

  // ----- which rules count

  /** The rule is switched on, and meant for the operation. */
  predicate Counts(r: Rule, op: RuleOp)
  {
    && r.active
    && (op == Read ==> r.permRead) && (op == Write ==> r.permWrite)
    && (op == Create ==> r.permCreate) && (op == Unlink ==> r.permUnlink)
  }

  ghost predicate InGroupOf(r: Rule, ctx: Context)
  {
    exists g :: g in r.groups && g in ctx.groups
  }

  /** What a value stands for: three texts stand for values of the user, everything else for itself. */
  function UserValue(v: Value, ctx: Context): Value
  {
    if !v.Text? then v
    else if v.s == "user.id" then Int(ctx.uid)
    else if v.s == "user.company_id" then Int(ctx.companyId)
    else if v.s == "user.partner_id" then Int(ctx.partnerId)
    else v
  }

  /** Whether a condition of a rule holds of a record for this user. */
  function ForUser(holds: Token -> bool, ctx: Context): Token -> bool
  {
    (t: Token) => if t.Leaf? then holds(Leaf(t.field, t.op, UserValue(t.value, ctx))) else holds(t)
  }

  /** A rule's own filter lets the record through. */
  ghost predicate Permits(r: Rule, ctx: Context, holds: Token -> bool)
  {
    Parses(r.domain) && Meaning(r.domain, ForUser(holds, ctx))
  }

  /** The rules that this user is subject to have filters that parse. */
  ghost predicate RulesParse(rules: seq<Rule>, op: RuleOp, ctx: Context)
  {
    forall r :: r in rules && Counts(r, op) && (r.isGlobal || InGroupOf(r, ctx)) ==> Parses(r.domain)
  }

  ghost predicate GlobalsPermit(rules: seq<Rule>, op: RuleOp, ctx: Context, holds: Token -> bool)
  {
    forall r :: r in rules && Counts(r, op) && r.isGlobal ==> Permits(r, ctx, holds)
  }

  ghost predicate OfGroup(rules: seq<Rule>, op: RuleOp, ctx: Context, r: Rule)
  {
    r in rules && Counts(r, op) && !r.isGlobal && InGroupOf(r, ctx)
  }

  /** The documented rule: all global rules, and one of the rules for the user's groups if there are any. */
  ghost predicate Allowed(rules: seq<Rule>, op: RuleOp, ctx: Context, holds: Token -> bool)
  {
    && GlobalsPermit(rules, op, ctx, holds)
    && ((exists r :: OfGroup(rules, op, ctx, r)) ==> exists r :: OfGroup(rules, op, ctx, r) && Permits(r, ctx, holds))
  }

  /** A group rule without conditions would let the record through, but those with conditions forbid it. */
  ghost predicate Overridden(rules: seq<Rule>, op: RuleOp, ctx: Context, holds: Token -> bool)
  {
    && GlobalsPermit(rules, op, ctx, holds)
    && (exists r :: OfGroup(rules, op, ctx, r) && r.domain == [])
    && (exists r :: OfGroup(rules, op, ctx, r) && r.domain != [])
    && (forall r :: OfGroup(rules, op, ctx, r) && r.domain != [] ==> !Permits(r, ctx, holds))
  }

  // ----- substitution is reading a condition for the user

  lemma TokenForUser(t: Token, ctx: Context, holds: Token -> bool)
    ensures holds(SubstitutedToken(t, ctx)) == ForUser(holds, ctx)(t)
    ensures t.Leaf? <==> SubstitutedToken(t, ctx).Leaf?
    ensures !t.Leaf? ==> SubstitutedToken(t, ctx) == t
  {
    if t.Leaf? {
      assert t == Leaf(t.field, t.op, t.value);
      if t.value.Text? {
        assert t.value == Text(t.value.s);
      }
      assert SubstitutedToken(t, ctx) == Leaf(t.field, t.op, UserValue(t.value, ctx));
    }
  }

  ghost predicate SameTerms(a: seq<Node>, b: seq<Node>, holds: Token -> bool, ctx: Context)
  {
    |a| == |b| && forall i :: 0 <= i < |a| ==> (Passes(b[i], holds) <==> Passes(a[i], ForUser(holds, ctx)))
  }

  lemma PushSame(a: seq<Node>, b: seq<Node>, t: Token, holds: Token -> bool, ctx: Context)
    requires SameTerms(a, b, holds, ctx)
    ensures Push(a, t).Ok? <==> Push(b, SubstitutedToken(t, ctx)).Ok?
    ensures Push(a, t).Ok? ==> SameTerms(Push(a, t).value, Push(b, SubstitutedToken(t, ctx)).value, holds, ctx)
  {
    TokenForUser(t, ctx, holds);
    var n := |a|;
    if (t.And? || t.Or?) && n >= 2 {
      PairSame(a[n - 2..], b[n - 2..], holds, ctx);
      assert a[n - 2..] == [a[n - 2], a[n - 1]] && b[n - 2..] == [b[n - 2], b[n - 1]];
    }
    hide SubstitutedToken, ForUser;
  }

  lemma PairSame(a: seq<Node>, b: seq<Node>, holds: Token -> bool, ctx: Context)
    requires |a| == |b| == 2 && SameTerms(a, b, holds, ctx)
    ensures Passes(All(b), holds) <==> Passes(All(a), ForUser(holds, ctx))
    ensures Passes(Any(b), holds) <==> Passes(Any(a), ForUser(holds, ctx))
  {
    hide ForUser;
  }

  lemma {:induction false} StackSame(d: Filter, holds: Token -> bool, ctx: Context)
    ensures StackOn([], d).Ok? <==> StackOn([], Substituted(d, ctx)).Ok?
    ensures StackOn([], d).Ok? ==> SameTerms(StackOn([], d).value, StackOn([], Substituted(d, ctx)).value, holds, ctx)
  {
    if d != [] {
      StackSame(d[1..], holds, ctx);
      assert Substituted(d, ctx)[1..] == Substituted(d[1..], ctx);
      assert Substituted(d, ctx)[0] == SubstitutedToken(d[0], ctx);
      hide Push, Substituted, SubstitutedToken, SameTerms;
      var a, b := StackOn([], d[1..]), StackOn([], Substituted(d[1..], ctx));
      if a.Ok? {
        PushSame(a.value, b.value, d[0], holds, ctx);
      }
    }
  }

  /** A substituted filter means the filter read for the user. */
  lemma SubstitutedMeans(d: Filter, holds: Token -> bool, ctx: Context)
    ensures Parses(Substituted(d, ctx)) <==> Parses(d)
    ensures Parses(d) ==> (Meaning(Substituted(d, ctx), holds) <==> Meaning(d, ForUser(holds, ctx)))
  {
    StackSame(d, holds, ctx);
    MeaningIsAllPass(d, ForUser(holds, ctx));
    MeaningIsAllPass(Substituted(d, ctx), holds);
    hide StackOn, Substituted, ForUser, Parses, Meaning;
  }

  // ----- the selected filters

  lemma CountsIsApplies(r: Rule, op: RuleOp, ctx: Context)
    ensures Counts(r, op) <==> r.active && AppliesTo(r, op)
    ensures InGroupOf(r, ctx) <==> Matches(r, ctx)
  {
    if InGroupOf(r, ctx) {
      var g :| g in r.groups && g in ctx.groups;
      var i :| 0 <= i < |r.groups| && r.groups[i] == g;
    }
    if Matches(r, ctx) {
      var i :| 0 <= i < |r.groups| && r.groups[i] in ctx.groups;
      var g := r.groups[i];
      assert g in r.groups && g in ctx.groups;
    }
  }

  /** The filters of the rules that are selected, and no others. */
  lemma {:induction false} FiltersOfRules(rules: seq<Rule>, op: RuleOp, ctx: Context, d: Filter)
    ensures d in Globals(rules, op, ctx) <==>
            exists r :: r in rules && Counts(r, op) && r.isGlobal && d == Substituted(r.domain, ctx)
    ensures d in Groups(rules, op, ctx) <==> exists r :: OfGroup(rules, op, ctx, r) && d == Substituted(r.domain, ctx)
  {
    if rules != [] {
      var init, last := rules[..|rules| - 1], rules[|rules| - 1];
      FiltersOfRules(init, op, ctx, d);
      CountsIsApplies(last, op, ctx);
      assert rules == init + [last];
      hide Substituted, Counts, InGroupOf, AppliesTo, Matches;
      assert forall r :: r in rules <==> r in init || r == last;
    }
  }

  // ----- the documented meaning over filters and over rules

  lemma WellFormedIsParse(rules: seq<Rule>, op: RuleOp, ctx: Context)
    ensures WellFormed(rules, op, ctx) <==> RulesParse(rules, op, ctx)
  {
    var globals, groups := Globals(rules, op, ctx), Groups(rules, op, ctx);
    forall r | r in rules ensures Parses(Substituted(r.domain, ctx)) <==> Parses(r.domain) {
      SubstitutedMeans(r.domain, _ => true, ctx);
    }
    forall d: Filter ensures
      (d in globals <==> exists r :: r in rules && Counts(r, op) && r.isGlobal && d == Substituted(r.domain, ctx))
      && (d in groups <==> exists r :: OfGroup(rules, op, ctx, r) && d == Substituted(r.domain, ctx))
    {
      FiltersOfRules(rules, op, ctx, d);
    }
    hide Globals, Groups, Substituted, Parses, Counts, InGroupOf;
    if RulesParse(rules, op, ctx) {
      forall i | 0 <= i < |globals| ensures Parses(globals[i]) {
        assert globals[i] in globals;
      }
      forall i | 0 <= i < |groups| ensures Parses(groups[i]) {
        assert groups[i] in groups;
      }
    }
    if WellFormed(rules, op, ctx) {
      forall r | r in rules && Counts(r, op) && (r.isGlobal || InGroupOf(r, ctx)) ensures Parses(r.domain) {
        var d := Substituted(r.domain, ctx);
        if r.isGlobal {
          assert d in globals;
        } else {
          assert OfGroup(rules, op, ctx, r);
          assert d in groups;
        }
      }
    }
  }

  lemma PermitsIsMeaning(r: Rule, ctx: Context, holds: Token -> bool)
    requires Parses(Substituted(r.domain, ctx))
    ensures Permits(r, ctx, holds) <==> Meaning(Substituted(r.domain, ctx), holds)
  {
    SubstitutedMeans(r.domain, holds, ctx);
  }

  lemma GlobalsAreFilters(rules: seq<Rule>, op: RuleOp, ctx: Context, holds: Token -> bool)
    requires AllParse(Globals(rules, op, ctx))
    ensures GlobalsPermit(rules, op, ctx, holds) <==> AllMean(Globals(rules, op, ctx), holds)
  {
    var globals := Globals(rules, op, ctx);
    forall d: Filter ensures
      d in globals <==> exists r :: r in rules && Counts(r, op) && r.isGlobal && d == Substituted(r.domain, ctx)
    {
      FiltersOfRules(rules, op, ctx, d);
    }
    forall r | r in rules && Counts(r, op) && r.isGlobal
      ensures var d := Substituted(r.domain, ctx); d in globals && Parses(d) && (Permits(r, ctx, holds) <==> Meaning(d, holds))
    {
      var d := Substituted(r.domain, ctx);
      assert d in globals;
      PermitsIsMeaning(r, ctx, holds);
    }
    hide Globals, Substituted, Parses, Meaning, Permits, Counts;
    if GlobalsPermit(rules, op, ctx, holds) {
      forall i | 0 <= i < |globals| ensures Meaning(globals[i], holds) {
        assert globals[i] in globals;
      }
    }
  }

  /** One of the group filters passes the record exactly when one of the group rules permits it. */
  lemma GroupsAreFilters(rules: seq<Rule>, op: RuleOp, ctx: Context, holds: Token -> bool)
    requires AllParse(Groups(rules, op, ctx))
    ensures SomeMeans(Groups(rules, op, ctx), holds) <==> exists r :: OfGroup(rules, op, ctx, r) && Permits(r, ctx, holds)
    ensures Groups(rules, op, ctx) == [] <==> !exists r :: OfGroup(rules, op, ctx, r)
    ensures [] in Groups(rules, op, ctx) <==> exists r :: OfGroup(rules, op, ctx, r) && r.domain == []
    ensures NonEmpty(Groups(rules, op, ctx)) != [] <==> exists r :: OfGroup(rules, op, ctx, r) && r.domain != []
    ensures SomeMeans(NonEmpty(Groups(rules, op, ctx)), holds)
       <==> exists r :: OfGroup(rules, op, ctx, r) && r.domain != [] && Permits(r, ctx, holds)
  {
    var groups := Groups(rules, op, ctx);
    var some := NonEmpty(groups);
    forall d: Filter ensures d in groups <==> exists r :: OfGroup(rules, op, ctx, r) && d == Substituted(r.domain, ctx) {
      FiltersOfRules(rules, op, ctx, d);
    }
    forall r | OfGroup(rules, op, ctx, r)
      ensures var d := Substituted(r.domain, ctx);
              d in groups && Parses(d) && (Permits(r, ctx, holds) <==> Meaning(d, holds)) && (d == [] <==> r.domain == [])
    {
      var d := Substituted(r.domain, ctx);
      assert d in groups;
      PermitsIsMeaning(r, ctx, holds);
    }
    hide Groups, Substituted, Parses, Meaning, Permits, OfGroup, NonEmpty;
    SomeMeansIn(groups, holds);
    SomeMeansIn(some, holds);
    assert forall d :: d in some <==> d in groups && d != [];
    assert groups != [] ==> groups[0] in groups;
    assert some != [] ==> some[0] in some;
  }

  lemma SomeMeansIn(ds: seq<Filter>, holds: Token -> bool)
    ensures SomeMeans(ds, holds) <==> exists d :: d in ds && Parses(d) && Meaning(d, holds)
  {
    hide Parses, Meaning;
    if SomeMeans(ds, holds) {
      var i :| 0 <= i < |ds| && Parses(ds[i]) && Meaning(ds[i], holds);
      assert ds[i] in ds;
    }
    if exists d :: d in ds && Parses(d) && Meaning(d, holds) {
      var d :| d in ds && Parses(d) && Meaning(d, holds);
      var i :| 0 <= i < |ds| && ds[i] == d;
    }
  }

  /**
   A user who is no administrator gets what the documentation says, over the rules and their flags, exactly on the records
   on which no group rule without conditions is overridden.
   */
  lemma DocumentedByRules(rules: seq<Rule>, op: RuleOp, ctx: Context, holds: Token -> bool)
    requires RulesParse(rules, op, ctx) && !ctx.isAdmin && Parses(RuleDomain(rules, op, ctx))
    ensures (Meaning(RuleDomain(rules, op, ctx), holds) <==> Allowed(rules, op, ctx, holds))
       <==> !Overridden(rules, op, ctx, holds)
  {
    WellFormedIsParse(rules, op, ctx);
    hide RulesParse, Globals, Groups, RuleDomain, Parses, Meaning, OfGroup, Permits, GlobalsPermit, NonEmpty, SomeMeans, AllMean;
    DocumentedExactly(rules, op, ctx, holds);
    GlobalsAreFilters(rules, op, ctx, holds);
    GroupsAreFilters(rules, op, ctx, holds);
  }
}
