/**
 What happens to the record rules when their filter is appended to the filter of a request and only the whole is
 parsed: whether every record that passes the whole passes the rules.
 */
module RuleNarrowing {
  import opened Wrappers
  import opened RecordRules

  // ----- what a term says about the rules inside it

  /** Whether a term of the rules inside a term may be false when the term is true, and when it is false. */
  datatype Mode = Mode(whenTrue: bool, whenFalse: bool)

  /** A term of the request's own, and a term of the rules. */
  const OWN := Mode(false, false)
  const RULE := Mode(false, true)

  predicate May(m: Mode, value: bool)
  {
    if value then m.whenTrue else m.whenFalse
  }

  function Both(l: Mode, r: Mode): Mode
  {
    Mode(l.whenTrue || r.whenTrue, l.whenTrue || l.whenFalse || r.whenTrue || r.whenFalse)
  }

  function Either(l: Mode, r: Mode): Mode
  {
    Mode(l.whenTrue || l.whenFalse || r.whenTrue || r.whenFalse, l.whenFalse || r.whenFalse)
  }

  function PushMode(stack: seq<Mode>, t: Token): Result<seq<Mode>, ParseError>
  {
    var n := |stack|;
    match t
    case And => if n < 2 then Err(MissingOperand) else Ok(stack[..n - 2] + [Both(stack[n - 2], stack[n - 1])])
    case Or => if n < 2 then Err(MissingOperand) else Ok(stack[..n - 2] + [Either(stack[n - 2], stack[n - 1])])
    case Not =>
      if n < 1 then Err(MissingOperand)
      else Ok(stack[..n - 1] + [Mode(stack[n - 1].whenFalse, stack[n - 1].whenTrue)])
    case Leaf(_, _, _) => Ok(stack + [OWN])
    case Junk => Err(NotAnItem)
  }

  function ModesOn(base: seq<Mode>, d: Filter): Result<seq<Mode>, ParseError>
  {
    if d == [] then Ok(base)
    else
      var stack :- ModesOn(base, d[1..]);
      PushMode(stack, d[0])
  }

  function RuleModes(k: nat): (r: seq<Mode>)
    ensures |r| == k && forall i :: 0 <= i < k ==> r[i] == RULE
  {
    seq(k, _ => RULE)
  }

  predicate NoneSlips(modes: seq<Mode>)
  {
    forall i :: 0 <= i < |modes| ==> !modes[i].whenTrue
  }

  /** The request takes terms from below its own only where they stay binding; k is how many there are below. */
  predicate Keeps(request: Filter, k: nat)
  {
    var modes := ModesOn(RuleModes(k), request);
    modes.Ok? && NoneSlips(modes.value)
  }

  /** The number of terms that a filter leaves on the stack. */
  function Terms(d: Filter): nat
    requires Parses(d)
  {
    |StackOn([], d).value|
  }

  ghost predicate NarrowsOn(request: Filter, rules: Filter, holds: Token -> bool)
  {
    Parses(rules) && Parses(request + rules) && Meaning(request + rules, holds) ==> Meaning(rules, holds)
  }

  // ----- truth values, and whether a false term of the rules is inside

  datatype Sight = Sight(value: bool, slipped: bool)

  function PushSight(stack: seq<Sight>, t: Token, v: bool): Result<seq<Sight>, ParseError>
  {
    var n := |stack|;
    if t.Junk? then Err(NotAnItem)
    else if t.Leaf? then Ok(stack + [Sight(v, false)])
    else if n < 1 || (n < 2 && !t.Not?) then Err(MissingOperand)
    else
      var r := stack[n - 1];
      if t.Not? then Ok(stack[..n - 1] + [Sight(!r.value, r.slipped)])
      else
        var l := stack[n - 2];
        Ok(stack[..n - 2] + [Sight(if t.And? then l.value && r.value else l.value || r.value, l.slipped || r.slipped)])
  }

  /** The truth values of the terms, when the i-th item of d is a condition with truth value values[i]. */
  function SightsOn(base: seq<Sight>, d: Filter, values: seq<bool>): Result<seq<Sight>, ParseError>
    requires |values| == |d|
  {
    if d == [] then Ok(base)
    else
      var stack :- SightsOn(base, d[1..], values[1..]);
      PushSight(stack, d[0], values[0])
  }

  /** Terms and truth values correspond. */
  predicate Track(stack: seq<Node>, sights: seq<Sight>, holds: Token -> bool)
  {
    |stack| == |sights| && forall i :: 0 <= i < |stack| ==> Passes(stack[i], holds) == sights[i].value
  }

  predicate ValuesOf(d: Filter, values: seq<bool>, holds: Token -> bool)
  {
    |values| == |d| && forall i :: 0 <= i < |d| && d[i].Leaf? ==> values[i] == holds(d[i])
  }

  lemma PushTracks(stack: seq<Node>, sights: seq<Sight>, t: Token, v: bool, holds: Token -> bool)
    requires Track(stack, sights, holds) && (t.Leaf? ==> v == holds(t))
    ensures Push(stack, t).Ok? <==> PushSight(sights, t, v).Ok?
    ensures Push(stack, t).Ok? ==> Track(Push(stack, t).value, PushSight(sights, t, v).value, holds)
  {
    var n := |stack|;
    if n >= 2 {
      var l, r := stack[n - 2], stack[n - 1];
      PassesPair(l, r, holds);
    }
  }

  lemma {:induction false} StackTracks(base: seq<Node>, sights: seq<Sight>, d: Filter, values: seq<bool>, holds: Token -> bool)
    requires Track(base, sights, holds) && ValuesOf(d, values, holds)
    ensures StackOn(base, d).Ok? <==> SightsOn(sights, d, values).Ok?
    ensures StackOn(base, d).Ok? ==> Track(StackOn(base, d).value, SightsOn(sights, d, values).value, holds)
  {
    hide Push, PushSight, Track;
    if d != [] {
      assert d[0].Leaf? ==> values[0] == holds(d[0]);
      assert ValuesOf(d[1..], values[1..], holds);
      StackTracks(base, sights, d[1..], values[1..], holds);
      var a, b := StackOn(base, d[1..]), SightsOn(sights, d[1..], values[1..]);
      if a.Ok? {
        PushTracks(a.value, b.value, d[0], values[0], holds);
      }
    }
  }

  predicate Slipped(sights: seq<Sight>)
  {
    exists i :: 0 <= i < |sights| && sights[i].slipped
  }

  /** The modes cover the sights: a false term of the rules is inside only where the mode says so. */
  predicate Covers(modes: seq<Mode>, sights: seq<Sight>)
  {
    |modes| == |sights| && forall i :: 0 <= i < |modes| && sights[i].slipped ==> May(modes[i], sights[i].value)
  }

  lemma PushCovers(modes: seq<Mode>, sights: seq<Sight>, t: Token, v: bool)
    requires Covers(modes, sights)
    ensures PushMode(modes, t).Ok? <==> PushSight(sights, t, v).Ok?
    ensures PushMode(modes, t).Ok? ==> Covers(PushMode(modes, t).value, PushSight(sights, t, v).value)
  {
  }

  lemma PushKeepsSlipped(sights: seq<Sight>, t: Token, v: bool)
    requires PushSight(sights, t, v).Ok?
    ensures Slipped(PushSight(sights, t, v).value) <==> Slipped(sights)
  {
    var n, after := |sights|, PushSight(sights, t, v).value;
    if Slipped(sights) {
      var i :| 0 <= i < n && sights[i].slipped;
      assert after[if i < |after| then i else |after| - 1].slipped;
    }
    if Slipped(after) {
      var i :| 0 <= i < |after| && after[i].slipped;
      assert sights[i].slipped || (i < n - 1 && sights[i + 1].slipped);
    }
  }

  lemma {:induction false} ModesCover(base: seq<Mode>, sights: seq<Sight>, d: Filter, values: seq<bool>)
    requires Covers(base, sights) && |values| == |d|
    ensures ModesOn(base, d).Ok? <==> SightsOn(sights, d, values).Ok?
    ensures ModesOn(base, d).Ok? ==> Covers(ModesOn(base, d).value, SightsOn(sights, d, values).value)
    ensures ModesOn(base, d).Ok? ==> (Slipped(SightsOn(sights, d, values).value) <==> Slipped(sights))
  {
    hide PushMode, PushSight, Covers, Slipped;
    if d != [] {
      ModesCover(base, sights, d[1..], values[1..]);
      var a, b := ModesOn(base, d[1..]), SightsOn(sights, d[1..], values[1..]);
      if a.Ok? {
        PushCovers(a.value, b.value, d[0], values[0]);
        if PushMode(a.value, d[0]).Ok? {
          PushKeepsSlipped(b.value, d[0], values[0]);
        }
      }
    }
  }

  // ----- what keeps the rules binding

  function RuleSights(truths: seq<bool>): (r: seq<Sight>)
    ensures |r| == |truths| && forall i :: 0 <= i < |r| ==> r[i] == Sight(truths[i], !truths[i])
  {
    seq(|truths|, i requires 0 <= i < |truths| => Sight(truths[i], !truths[i]))
  }

  function TruthsOf(stack: seq<Node>, holds: Token -> bool): (r: seq<bool>)
    ensures |r| == |stack| && forall i :: 0 <= i < |r| ==> r[i] == Passes(stack[i], holds)
  {
    seq(|stack|, i requires 0 <= i < |stack| => Passes(stack[i], holds))
  }

  function Held(d: Filter, holds: Token -> bool): (r: seq<bool>)
    ensures ValuesOf(d, r, holds)
  {
    seq(|d|, i requires 0 <= i < |d| => holds(d[i]))
  }

  lemma RuleModesCover(truths: seq<bool>)
    ensures Covers(RuleModes(|truths|), RuleSights(truths))
    ensures Slipped(RuleSights(truths)) <==> exists i :: 0 <= i < |truths| && !truths[i]
  {
    var sights := RuleSights(truths);
    if exists i :: 0 <= i < |truths| && !truths[i] {
      var i :| 0 <= i < |truths| && !truths[i];
      assert sights[i].slipped;
    }
  }

  /** The stack of the whole, as truth values above those of the rules. */
  lemma WholeSights(request: Filter, rules: Filter, holds: Token -> bool)
    requires Parses(rules)
    ensures var base, values := TruthsOf(StackOn([], rules).value, holds), Held(request, holds);
            var modes, sights := ModesOn(RuleModes(Terms(rules)), request), SightsOn(RuleSights(base), request, values);
            && (Parses(request + rules) <==> modes.Ok?) && (modes.Ok? <==> sights.Ok?)
            && (modes.Ok? ==>
                 && Covers(modes.value, sights.value)
                 && (Slipped(sights.value) <==> !Meaning(rules, holds))
                 && (Meaning(request + rules, holds) <==> forall i :: 0 <= i < |sights.value| ==> sights.value[i].value))
  {
    var stack := StackOn([], rules).value;
    var base, values := TruthsOf(stack, holds), Held(request, holds);
    MeaningIsAllPass(rules, holds);
    MeaningIsAllPass(request + rules, holds);
    StackOnConcat([], request, rules);
    RuleModesCover(base);
    StackTracks(stack, RuleSights(base), request, values, holds);
    ModesCover(RuleModes(|stack|), RuleSights(base), request, values);
    hide StackOn, ModesOn, SightsOn, Parses, Meaning, Passes, Covers, Slipped;
  }

  /** For every request: if the whole parses then so do the rules. */
  lemma RulesParseFirst(request: Filter, rules: Filter)
    requires Parses(request + rules)
    ensures Parses(rules)
  {
    var any: Token -> bool := _ => true;
    MeaningIsAllPass(request + rules, any);
    MeaningIsAllPass(rules, any);
    StackOnConcat([], request, rules);
  }

  lemma KeepsNarrows(request: Filter, rules: Filter, holds: Token -> bool)
    requires Parses(rules) && Keeps(request, Terms(rules))
    ensures Parses(request + rules) && NarrowsOn(request, rules, holds)
  {
    WholeSights(request, rules, holds);
    hide Parses, Meaning, ModesOn, SightsOn;
  }

  // ----- a request that does not keep the rules binding fails on some record

  /** The sights that the modes allow at most, for given truth values. */
  function Wanted(modes: seq<Mode>, targets: seq<bool>): (r: seq<Sight>)
    requires |targets| == |modes|
    ensures |r| == |modes| && forall i :: 0 <= i < |r| ==> r[i] == Sight(targets[i], May(modes[i], targets[i]))
  {
    seq(|modes|, i requires 0 <= i < |modes| => Sight(targets[i], May(modes[i], targets[i])))
  }

  /** Truth values for the operands that give an operator's result its truth value and let it slip if it may. */
  lemma ChooseOperands(modes: seq<Mode>, t: Token, targets: seq<bool>) returns (before: seq<bool>, v: bool)
    requires PushMode(modes, t).Ok? && |targets| == |PushMode(modes, t).value|
    ensures |before| == |modes|
    ensures PushSight(Wanted(modes, before), t, v) == Ok(Wanted(PushMode(modes, t).value, targets))
  {
    hide Both, Either;
    var n, m := |modes|, |targets| - 1;
    var init, last := targets[..m], targets[m];
    if t.Leaf? {
      before, v := init, last;
    } else if t.Not? {
      before, v := init + [!last], false;
    } else {
      var l, r := modes[n - 2], modes[n - 1];
      var pair := if t.And? then ChooseBoth(l, r, last) else ChooseEither(l, r, last);
      before, v := init + [pair.0, pair.1], false;
    }
    assert PushSight(Wanted(modes, before), t, v).value == Wanted(PushMode(modes, t).value, targets);
  }

  function ChooseBoth(l: Mode, r: Mode, target: bool): (p: (bool, bool))
    ensures (p.0 && p.1) == target && (May(l, p.0) || May(r, p.1)) == May(Both(l, r), target)
  {
    if target then (true, true)
    else if l.whenFalse || r.whenTrue then (false, true)
    else if l.whenTrue || r.whenFalse then (true, false)
    else (false, false)
  }

  function ChooseEither(l: Mode, r: Mode, target: bool): (p: (bool, bool))
    ensures (p.0 || p.1) == target && (May(l, p.0) || May(r, p.1)) == May(Either(l, r), target)
  {
    if !target then (false, false)
    else if l.whenFalse || r.whenTrue then (false, true)
    else if l.whenTrue || r.whenFalse then (true, false)
    else (true, true)
  }

  /** Whatever the modes allow is attained by some truth values of the conditions and of the rules' terms. */
  lemma {:induction false} Attain(k: nat, d: Filter, targets: seq<bool>) returns (truths: seq<bool>, values: seq<bool>)
    requires ModesOn(RuleModes(k), d).Ok? && |targets| == |ModesOn(RuleModes(k), d).value|
    ensures |truths| == k && |values| == |d|
    ensures SightsOn(RuleSights(truths), d, values) == Ok(Wanted(ModesOn(RuleModes(k), d).value, targets))
  {
    if d == [] {
      truths, values := targets, [];
      assert RuleSights(truths) == Wanted(RuleModes(k), targets);
    } else {
      hide PushMode, PushSight, Wanted;
      var modes := ModesOn(RuleModes(k), d[1..]).value;
      var before, v := ChooseOperands(modes, d[0], targets);
      var rest;
      truths, rest := Attain(k, d[1..], before);
      values := [v] + rest;
      assert values[1..] == rest;
    }
  }

  /** When the request does not keep the rules binding, some truth values pass the whole and fail the rules. */
  lemma SlipsSomewhere(request: Filter, k: nat) returns (truths: seq<bool>, values: seq<bool>)
    requires ModesOn(RuleModes(k), request).Ok? && !Keeps(request, k)
    ensures |truths| == k && |values| == |request| && exists i :: 0 <= i < k && !truths[i]
    ensures var sights := SightsOn(RuleSights(truths), request, values);
            sights.Ok? && forall i :: 0 <= i < |sights.value| ==> sights.value[i].value
  {
    var modes := ModesOn(RuleModes(k), request).value;
    var targets := seq(|modes|, _ => true);
    truths, values := Attain(k, request, targets);
    var i :| 0 <= i < |modes| && modes[i].whenTrue;
    var sights := Wanted(modes, targets);
    assert sights[i].slipped;
    RuleModesCover(truths);
    ModesCover(RuleModes(k), RuleSights(truths), request, values);
    assert Slipped(sights);
  }

  // ----- requests of the same shape

  /** The same operators at the same places. */
  predicate SameShape(d: Filter, e: Filter)
  {
    |d| == |e| && forall i :: 0 <= i < |d| ==> if d[i].Leaf? then e[i].Leaf? else e[i] == d[i]
  }

  lemma {:induction false} ShapeModes(base: seq<Mode>, d: Filter, e: Filter)
    requires SameShape(d, e)
    ensures ModesOn(base, d) == ModesOn(base, e)
  {
    if d != [] {
      assert d[0].Leaf? == e[0].Leaf? && (!d[0].Leaf? ==> d[0] == e[0]);
      ShapeModes(base, d[1..], e[1..]);
    }
  }

  lemma ShapeKeeps(request: Filter, other: Filter, k: nat)
    requires SameShape(other, request)
    ensures Keeps(other, k) <==> Keeps(request, k)
  {
    ShapeModes(RuleModes(k), other, request);
  }

  const YES := Leaf("yes", "=", Bool(true))
  const NO := Leaf("no", "=", Bool(true))

  predicate IsYes(t: Token)
  {
    t == YES
  }

  function Filled(d: Filter, values: seq<bool>): (r: Filter)
    requires |values| == |d|
    ensures SameShape(r, d)
    ensures ValuesOf(r, values, IsYes)
  {
    seq(|d|, i requires 0 <= i < |d| => if !d[i].Leaf? then d[i] else if values[i] then YES else NO)
  }

  /** The terms of a list of conditions are the conditions, the last one first. */
  lemma {:induction false} LeavesStack(d: Filter)
    requires LeavesOnly(d)
    ensures Parses(d)
    ensures var stack := StackOn([], d).value;
            |stack| == |d| && forall i :: 0 <= i < |d| ==> stack[i] == Condition(d[|d| - 1 - i])
  {
    if d != [] {
      assert d[0].Leaf?;
      assert forall i :: 0 <= i < |d| - 1 ==> d[1..][i] == d[i + 1];
      LeavesStack(d[1..]);
    }
  }

  function Reversed(s: seq<bool>): (r: seq<bool>)
    ensures |r| == |s| && forall i :: 0 <= i < |s| ==> r[i] == s[|s| - 1 - i]
  {
    seq(|s|, i requires 0 <= i < |s| => s[|s| - 1 - i])
  }

  /** Truth values that pass the whole and fail the rules, given to actual conditions, break the narrowing. */
  lemma SlipBreaks(request: Filter, rules: Filter, truths: seq<bool>, values: seq<bool>, holds: Token -> bool)
    requires LeavesOnly(rules) && |truths| == |rules| && ValuesOf(request, values, holds)
    requires ValuesOf(rules, Reversed(truths), holds)
    requires exists i :: 0 <= i < |truths| && !truths[i]
    requires var sights := SightsOn(RuleSights(truths), request, values);
             sights.Ok? && forall i :: 0 <= i < |sights.value| ==> sights.value[i].value
    ensures !NarrowsOn(request, rules, holds)
  {
    LeavesStack(rules);
    var stack := StackOn([], rules).value;
    forall i | 0 <= i < |stack| ensures Passes(stack[i], holds) == truths[i] {
      assert Reversed(truths)[|rules| - 1 - i] == truths[i];
    }
    assert Track(stack, RuleSights(truths), holds);
    StackTracks(stack, RuleSights(truths), request, values, holds);
    StackOnConcat([], request, rules);
    MeaningIsAllPass(rules, holds);
    MeaningIsAllPass(request + rules, holds);
    hide StackOn, SightsOn, Parses, Meaning, Passes;
  }

  /** On every request of this shape, with every rule filter of k terms, passing the whole implies passing the rules. */
  ghost predicate ShapeNarrows(request: Filter, k: nat)
  {
    forall other: Filter, rules: Filter, holds: Token -> bool ::
      SameShape(other, request) && Parses(rules) && Terms(rules) == k ==> NarrowsOn(other, rules, holds)
  }

  lemma ShapeSlips(request: Filter, k: nat)
    requires ModesOn(RuleModes(k), request).Ok? && !Keeps(request, k)
    ensures !ShapeNarrows(request, k)
  {
    hide ModesOn, SightsOn, StackOn, Parses, Meaning, Keeps, NarrowsOn, IsYes, ValuesOf;
    var truths, values := SlipsSomewhere(request, k);
    var other, rules := Filled(request, values), Conditions(Reversed(truths));
    ShapeSights(RuleSights(truths), other, request, values);
    LeavesStack(rules);
    SlipBreaks(other, rules, truths, values, IsYes);
    assert Terms(rules) == k;
  }

  /** A filter of conditions with the given truth values. */
  function Conditions(values: seq<bool>): (r: Filter)
    ensures |r| == |values| && LeavesOnly(r) && ValuesOf(r, values, IsYes)
  {
    seq(|values|, i requires 0 <= i < |values| => if values[i] then YES else NO)
  }

  lemma {:induction false} ShapeSights(base: seq<Sight>, d: Filter, e: Filter, values: seq<bool>)
    requires SameShape(d, e) && |values| == |d|
    ensures SightsOn(base, d, values) == SightsOn(base, e, values)
  {
    if d != [] {
      assert d[0].Leaf? == e[0].Leaf? && (!d[0].Leaf? ==> d[0] == e[0]);
      ShapeSights(base, d[1..], e[1..], values[1..]);
    }
  }

  /**
   Exactly when the rules stay binding: for a request that parses on top of k terms of the rules, every request with
   the same operators at the same places is narrowed by all rule filters of k terms on all records, if and only if the
   request keeps k terms.
   */
  lemma NarrowingOfShape(request: Filter, k: nat)
    requires ModesOn(RuleModes(k), request).Ok?
    ensures Keeps(request, k) <==> ShapeNarrows(request, k)
  {
    if Keeps(request, k) {
      forall other: Filter, rules: Filter, holds: Token -> bool
        | SameShape(other, request) && Parses(rules) && Terms(rules) == k
        ensures NarrowsOn(other, rules, holds)
      {
        ShapeKeeps(request, other, k);
        KeepsNarrows(other, rules, holds);
      }
    } else {
      ShapeSlips(request, k);
    }
  }

  // ----- requests and rules whose conditions all differ

  predicate AllDiffer(d: Filter)
  {
    forall i, j :: 0 <= i < j < |d| && d[i].Leaf? && d[j].Leaf? ==> d[i] != d[j]
  }

  ghost predicate Narrows(request: Filter, rules: Filter)
  {
    forall holds: Token -> bool :: NarrowsOn(request, rules, holds)
  }

  lemma DifferentConditions(d: Filter, values: seq<bool>) returns (holds: Token -> bool)
    requires AllDiffer(d) && |values| == |d|
    ensures ValuesOf(d, values, holds)
  {
    holds := t => exists i :: 0 <= i < |d| && d[i] == t && values[i];
    forall i | 0 <= i < |d| && d[i].Leaf? ensures values[i] == holds(d[i]) {
      assert forall j :: 0 <= j < |d| && d[j] == d[i] ==> j == i;
    }
  }

  /** When no condition occurs twice, this request is narrowed by these rules if and only if it keeps their terms. */
  lemma NarrowingOfDifferent(request: Filter, rules: Filter)
    requires LeavesOnly(rules) && AllDiffer(request + rules) && Parses(request + rules)
    ensures Keeps(request, |rules|) <==> Narrows(request, rules)
  {
    LeavesStack(rules);
    var k := |rules|;
    if Keeps(request, k) {
      forall holds: Token -> bool ensures NarrowsOn(request, rules, holds) {
        KeepsNarrows(request, rules, holds);
      }
    } else {
      WholeSights(request, rules, _ => true);
      var truths, values := SlipsSomewhere(request, k);
      var holds := DifferentConditions(request + rules, values + Reversed(truths));
      ValuesOfParts(request, rules, values, Reversed(truths), holds);
      SlipBreaks(request, rules, truths, values, holds);
    }
  }

  lemma ValuesOfParts(a: Filter, b: Filter, va: seq<bool>, vb: seq<bool>, holds: Token -> bool)
    requires |va| == |a| && |vb| == |b| && ValuesOf(a + b, va + vb, holds)
    ensures ValuesOf(a, va, holds) && ValuesOf(b, vb, holds)
  {
    forall i | 0 <= i < |a| && a[i].Leaf? ensures va[i] == holds(a[i]) {
      assert (a + b)[i] == a[i] && (va + vb)[i] == va[i];
    }
    forall i | 0 <= i < |b| && b[i].Leaf? ensures vb[i] == holds(b[i]) {
      assert (a + b)[|a| + i] == b[i] && (va + vb)[|a| + i] == vb[i];
    }
  }

  // ----- requests that keep the rules binding

  lemma PushModeOnTop(base: seq<Mode>, stack: seq<Mode>, t: Token)
    requires PushMode(stack, t).Ok?
    ensures PushMode(base + stack, t) == Ok(base + PushMode(stack, t).value)
  {
    var n, m := |stack|, |base + stack|;
    if t.Leaf? {
      assert base + stack + [OWN] == base + (stack + [OWN]);
    } else if t.Not? {
      var top := Mode(stack[n - 1].whenFalse, stack[n - 1].whenTrue);
      assert (base + stack)[..m - 1] + [top] == base + (stack[..n - 1] + [top]);
    } else {
      var top := if t.And? then Both(stack[n - 2], stack[n - 1]) else Either(stack[n - 2], stack[n - 1]);
      assert (base + stack)[..m - 2] + [top] == base + (stack[..n - 2] + [top]);
    }
  }

  /** A request that parses by itself takes nothing from below, and leaves only terms of its own. */
  lemma {:induction false} OwnModes(base: seq<Mode>, d: Filter)
    requires ModesOn([], d).Ok?
    ensures ModesOn(base, d) == Ok(base + ModesOn([], d).value)
    ensures forall i :: 0 <= i < |ModesOn([], d).value| ==> ModesOn([], d).value[i] == OWN
  {
    if d == [] {
      assert base + [] == base;
    } else {
      OwnModes(base, d[1..]);
      PushModeOnTop(base, ModesOn([], d[1..]).value, d[0]);
    }
  }

  lemma ParsesByModes(d: Filter)
    ensures Parses(d) <==> ModesOn([], d).Ok?
  {
    var holds: Token -> bool := _ => true;
    MeaningIsAllPass(d, holds);
    StackTracks([], [], d, Held(d, holds), holds);
    ModesCover([], [], d, Held(d, holds));
  }

  lemma ParsingRequestKeeps(request: Filter, k: nat)
    requires Parses(request)
    ensures Keeps(request, k)
  {
    ParsesByModes(request);
    OwnModes(RuleModes(k), request);
    var own := ModesOn([], request).value;
    forall i | 0 <= i < k + |own| ensures !(RuleModes(k) + own)[i].whenTrue {
      assert i >= k ==> (RuleModes(k) + own)[i] == own[i - k];
    }
  }

  /** So does a request without "|" and "!", whether it parses by itself or not. */
  lemma {:induction false} ConjunctionKeeps(request: Filter, k: nat)
    requires forall i :: 0 <= i < |request| ==> request[i].And? || request[i].Leaf?
    ensures ModesOn(RuleModes(k), request).Ok? ==> Keeps(request, k)
  {
    if request != [] {
      assert request[0].And? || request[0].Leaf?;
      ConjunctionKeeps(request[1..], k);
    }
  }

  // ----- the rules of a model

  /** The filter that is parsed: the items of the rules after those of the request. */
  method MergeRuleDomain(request: Filter, rules: seq<Rule>, op: RuleOp, ctx: Context) returns (merged: Filter)
    ensures merged == request + RuleDomain(rules, op, ctx)
  {
    var ruleDomain := BuildRuleDomain(rules, op, ctx);
    if ruleDomain == [] {
      assert request + [] == request;
      return request;
    }
    merged := request;
    for i := 0 to |ruleDomain|
      invariant merged == request + ruleDomain[..i]
    {
      merged := merged + [ruleDomain[i]];
      assert ruleDomain[..i + 1] == ruleDomain[..i] + [ruleDomain[i]];
    }
    assert ruleDomain[..|ruleDomain|] == ruleDomain;
  }

  /**
   For every request and all rules: the whole parses only if the rules do; then a request that keeps their terms lets
   no record through that they forbid; and a request that parses by itself is such a request, and means both.
   */
  lemma RequestIsNarrowed(request: Filter, rules: seq<Rule>, op: RuleOp, ctx: Context, holds: Token -> bool)
    ensures var r := RuleDomain(rules, op, ctx);
            && (Parses(request + r) ==> Parses(r))
            && (Parses(r) && Keeps(request, Terms(r)) ==>
                 Parses(request + r) && (Meaning(request + r, holds) ==> Meaning(r, holds)))
            && (Parses(r) && Parses(request) ==>
                 && Keeps(request, Terms(r)) && Parses(request + r)
                 && (Meaning(request + r, holds) <==> Meaning(request, holds) && Meaning(r, holds)))
  {
    var r := RuleDomain(rules, op, ctx);
    hide RuleDomain, Parses, Meaning, Keeps, Terms;
    if Parses(request + r) {
      RulesParseFirst(request, r);
    }
    if Parses(r) {
      if Keeps(request, Terms(r)) {
        KeepsNarrows(request, r, holds);
      }
      if Parses(request) {
        ParsingRequestKeeps(request, Terms(r));
        AndMeansBoth(request, r, holds);
      }
    }
  }

  /**
   One global rule with one condition, and a request of "|" and one other condition. The request does not parse by
   itself; appended to it, the rule becomes the second operand of the "|", and a record that the rule forbids passes.
   */
  lemma OrTakesTheRule(ctx: Context)
    requires !ctx.isAdmin
    ensures var rules := [Rule([Leaf("user_id", "=", Text("user.id"))], true, true, true, true, true, true, [])];
            var request, r := [Or, Leaf("active", "=", Bool(true))], RuleDomain(rules, Read, ctx);
            var holds := (t: Token) => t == request[1];
            && r == [Leaf("user_id", "=", Int(ctx.uid))]
            && !Parses(request) && !Keeps(request, 1)
            && Parses(r) && Parses(request + r)
            && Meaning(request + r, holds) && !Meaning(r, holds)
  {
    var condition := Leaf("user_id", "=", Text("user.id"));
    var rule := Rule([condition], true, true, true, true, true, true, []);
    var request, own := [Or, Leaf("active", "=", Bool(true))], Leaf("user_id", "=", Int(ctx.uid));
    OneGlobalRule(rule, ctx, own);
    OrOfTwo(request[1], own);
    assert request == [Or, request[1]];
  }

  lemma OneGlobalRule(rule: Rule, ctx: Context, own: Token)
    requires !ctx.isAdmin && |rule.domain| == 1 && rule.active && rule.permRead && rule.isGlobal
    requires own == SubstitutedToken(rule.domain[0], ctx)
    ensures RuleDomain([rule], Read, ctx) == [own]
  {
    var rules := [rule];
    assert rules[..0] == [];
    assert Substituted(rule.domain, ctx) == [own];
    assert Globals(rules, Read, ctx) == [] + [[own]] == [[own]];
    assert Groups(rules, Read, ctx) == [];
    var ds := [[own]];
    assert ds[..0] == [];
    assert AndAll(ds) == [] + [own];
  }

  lemma OrOfTwo(a: Token, r: Token)
    requires a.Leaf? && r.Leaf? && a != r
    ensures !Parses([Or, a]) && !Keeps([Or, a], 1) && Parses([r]) && Parses([Or, a] + [r])
    ensures var holds := (t: Token) => t == a; Meaning([Or, a] + [r], holds) && !Meaning([r], holds)
  {
    var holds := (t: Token) => t == a;
    StackOfTwo(a, r);
    var pair := [Condition(r), Condition(a)];
    assert [Or, a] + [r] == [Or, a, r];
    PassesPair(pair[0], pair[1], holds);
    ModesOfTwo(a);
  }

  lemma StackOfTwo(a: Token, r: Token)
    requires a.Leaf? && r.Leaf?
    ensures StackOn([], [r]) == Ok([Condition(r)])
    ensures StackOn([], [Or, a, r]) == Ok([Any([Condition(r), Condition(a)])])
    ensures StackOn([], [Or, a]).Err?
  {
    LeavesStack([a]);
    LeavesStack([r]);
    LeavesStack([a, r]);
    var pair := [Condition(r), Condition(a)];
    assert StackOn([], [a, r]).value == pair && StackOn([], [r]).value == [Condition(r)];
    assert [Or, a, r][1..] == [a, r] && [Or, a][1..] == [a];
    assert Push(pair, Or) == Ok([] + [Any(pair)]);
    assert [] + [Any(pair)] == [Any(pair)];
  }

  lemma ModesOfTwo(a: Token)
    requires a.Leaf?
    ensures !Keeps([Or, a], 1)
  {
    var one, both := [a], [Or, a];
    assert both[1..] == one && one[1..] == [] && one[0] == a;
    assert ModesOn(RuleModes(1), one) == PushMode(RuleModes(1), a);
    var modes := ModesOn(RuleModes(1), [a]).value;
    assert modes == RuleModes(1) + [OWN];
    assert ModesOn(RuleModes(1), [Or, a]).value == modes[..0] + [Either(RULE, OWN)];
    assert ModesOn(RuleModes(1), [Or, a]).value[0] == Either(RULE, OWN);
  }
}
