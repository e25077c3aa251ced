/** The tables that a database reset clears: the wanted ones and, transitively, every table that references one. */
module ResetClosure {
  import opened Wrappers
  import opened Sets

  type Table = string

  /** A foreign key of the child table that references the parent table. */
  datatype ForeignKey = ForeignKey(child: Table, parent: Table)

  /** The protected child references a parent that is to be cleared. */
  datatype Refusal = Refusal(parent: Table, child: Table)

  datatype Scope = Scope(tables: set<Table>, pulled: seq<Table>)

  // ----- what has to be cleared

  /** Each table of the path references the one before it. */
  predicate IsPath(path: seq<Table>, fks: seq<ForeignKey>)
  {
    forall i :: 0 <= i < |path| - 1 ==> ForeignKey(path[i + 1], path[i]) in fks
  }

  predicate Leads(path: seq<Table>, wanted: set<Table>, fks: seq<ForeignKey>, t: Table)
  {
    path != [] && path[0] in wanted && path[|path| - 1] == t && IsPath(path, fks)
  }

  /** A wanted table, or one that references a wanted table directly or through others. */
  ghost predicate Dependent(wanted: set<Table>, fks: seq<ForeignKey>, t: Table)
  {
    exists path :: Leads(path, wanted, fks, t)
  }

  /** No table outside the set references one inside: the database accepts clearing exactly these tables. */
  ghost predicate Closed(tables: set<Table>, fks: seq<ForeignKey>)
  {
    forall i :: 0 <= i < |fks| && fks[i].parent in tables ==> fks[i].child in tables
  }

  ghost predicate IsLeastClosed(tables: set<Table>, wanted: set<Table>, fks: seq<ForeignKey>)
  {
    && wanted <= tables && Closed(tables, fks)
    && forall other: set<Table> :: wanted <= other && Closed(other, fks) ==> tables <= other
  }

  /** A protected table that was not asked for has to be cleared. */
  ghost predicate ReachesProtected(wanted: set<Table>, fks: seq<ForeignKey>, kept: set<Table>)
  {
    exists t :: t in kept && t !in wanted && Dependent(wanted, fks, t)
  }

  lemma WantedIsDependent(wanted: set<Table>, fks: seq<ForeignKey>, t: Table)
    requires t in wanted
    ensures Dependent(wanted, fks, t)
  {
    assert Leads([t], wanted, fks, t);
  }

  lemma ChildIsDependent(wanted: set<Table>, fks: seq<ForeignKey>, fk: ForeignKey)
    requires fk in fks && Dependent(wanted, fks, fk.parent)
    ensures Dependent(wanted, fks, fk.child)
  {
    var path :| Leads(path, wanted, fks, fk.parent);
    assert Leads(path + [fk.child], wanted, fks, fk.child);
  }

  /** A path that starts in a closed set stays in it. */
  lemma {:induction false} PathStaysInside(path: seq<Table>, tables: set<Table>, fks: seq<ForeignKey>)
    requires Closed(tables, fks) && path != [] && path[0] in tables && IsPath(path, fks)
    ensures path[|path| - 1] in tables
  {
    if |path| > 1 {
      var init := path[..|path| - 1];
      assert IsPath(init, fks);
      PathStaysInside(init, tables, fks);
      var fk := ForeignKey(path[|path| - 1], path[|path| - 2]);
      assert fk in fks;
      var i :| 0 <= i < |fks| && fks[i] == fk;
    }
  }

  lemma DependentStaysInside(wanted: set<Table>, tables: set<Table>, fks: seq<ForeignKey>, t: Table)
    requires wanted <= tables && Closed(tables, fks) && Dependent(wanted, fks, t)
    ensures t in tables
  {
    var path :| Leads(path, wanted, fks, t);
    PathStaysInside(path, tables, fks);
  }

  // ----- the loop

  /** What holds of the tables collected so far. */
  ghost predicate Grown(scope: Scope, wanted: set<Table>, fks: seq<ForeignKey>, kept: set<Table>)
  {
    && wanted <= scope.tables
    && (forall t :: t in scope.tables ==> Dependent(wanted, fks, t))
    && scope.tables * kept <= wanted
    && Distinct(scope.pulled)
    && (forall t :: t in scope.pulled <==> t in scope.tables - wanted)
  }

  /** Each pulled table references a wanted table or one pulled before it. */
  ghost predicate PulledInOrder(pulled: seq<Table>, wanted: set<Table>, fks: seq<ForeignKey>)
  {
    forall k :: 0 <= k < |pulled| ==>
      exists i :: 0 <= i < |fks| && fks[i].child == pulled[k] && (fks[i].parent in wanted || fks[i].parent in pulled[..k])
  }

  function Children(fks: seq<ForeignKey>): set<Table>
  {
    set i | 0 <= i < |fks| :: fks[i].child
  }

  method Close(wanted: set<Table>, fks: seq<ForeignKey>, kept: set<Table>) returns (r: Result<Scope, Refusal>)
    ensures r.Ok? <==> !ReachesProtected(wanted, fks, kept)
    ensures r.Ok? ==> forall t :: t in r.value.tables <==> Dependent(wanted, fks, t)
    ensures r.Ok? ==> IsLeastClosed(r.value.tables, wanted, fks)
    ensures r.Ok? ==> Distinct(r.value.pulled) && forall t :: t in r.value.pulled <==> t in r.value.tables - wanted
    ensures r.Ok? ==> PulledInOrder(r.value.pulled, wanted, fks)
    ensures r.Err? ==> r.error.child in kept && r.error.child !in wanted
                       && ForeignKey(r.error.child, r.error.parent) in fks
                       && Dependent(wanted, fks, r.error.parent)
  {
    var scope := Scope(wanted, []);
    forall t | t in wanted ensures Dependent(wanted, fks, t) {
      WantedIsDependent(wanted, fks, t);
    }
    var grew := true;
    while grew
      invariant Grown(scope, wanted, fks, kept) && PulledInOrder(scope.pulled, wanted, fks)
      invariant scope.tables <= wanted + Children(fks)
      invariant !grew ==> Closed(scope.tables, fks)
      decreases (wanted + Children(fks)) - scope.tables, grew
    {
      hide Grown, Closed, PulledInOrder, ReachesProtected, Children;
      var pass := Pass(wanted, fks, kept, scope);
      if pass.Err? {
        Refused(wanted, fks, kept, pass.error);
        return Err(pass.error);
      }
      grew := pass.value.tables != scope.tables;
      scope := pass.value;
    }
    Accepted(wanted, fks, kept, scope);
    return Ok(scope);
  }

  /** One pass over all foreign keys. */
  method Pass(wanted: set<Table>, fks: seq<ForeignKey>, kept: set<Table>, before: Scope) returns (r: Result<Scope, Refusal>)
    requires Grown(before, wanted, fks, kept) && PulledInOrder(before.pulled, wanted, fks)
    requires before.tables <= wanted + Children(fks)
    ensures r.Ok? ==> Grown(r.value, wanted, fks, kept) && PulledInOrder(r.value.pulled, wanted, fks)
    ensures r.Ok? ==> before.tables <= r.value.tables <= wanted + Children(fks)
    ensures r.Ok? && r.value.tables == before.tables ==> Closed(r.value.tables, fks)
    ensures r.Err? ==> r.error.child in kept && r.error.child !in wanted
                       && ForeignKey(r.error.child, r.error.parent) in fks
                       && Dependent(wanted, fks, r.error.parent)
  {
    var scope := before;
    for i := 0 to |fks|
      invariant Grown(scope, wanted, fks, kept) && PulledInOrder(scope.pulled, wanted, fks)
      invariant before.tables <= scope.tables <= wanted + Children(fks)
      invariant scope.tables == before.tables ==>
                  forall j :: 0 <= j < i && fks[j].parent in scope.tables ==> fks[j].child in scope.tables
    {
      hide Dependent, Distinct, PulledInOrder;
      var fk := fks[i];
      if fk.child == fk.parent {
        continue;
      }
      if fk.parent !in scope.tables || fk.child in scope.tables {
        continue;
      }
      if fk.child in kept {
        return Err(Refusal(fk.parent, fk.child));
      }
      Pull(wanted, fks, kept, scope, i);
      scope := Scope(scope.tables + {fk.child}, scope.pulled + [fk.child]);
    }
    r := Ok(scope);
  }

  lemma Pull(wanted: set<Table>, fks: seq<ForeignKey>, kept: set<Table>, scope: Scope, i: nat)
    requires Grown(scope, wanted, fks, kept) && PulledInOrder(scope.pulled, wanted, fks) && i < |fks|
    requires fks[i].parent in scope.tables && fks[i].child !in scope.tables && fks[i].child !in kept
    ensures var next := Scope(scope.tables + {fks[i].child}, scope.pulled + [fks[i].child]);
            Grown(next, wanted, fks, kept) && PulledInOrder(next.pulled, wanted, fks)
    ensures fks[i].child in Children(fks)
  {
    var next := Scope(scope.tables + {fks[i].child}, scope.pulled + [fks[i].child]);
    ChildIsDependent(wanted, fks, fks[i]);
    PullInOrder(wanted, fks, scope.pulled, i) by {
      assert fks[i].parent in scope.tables;
    }
    hide Dependent, PulledInOrder;
    assert Distinct(next.pulled) by {
      forall a, b | 0 <= a < b < |next.pulled| ensures next.pulled[a] != next.pulled[b] {
        if b == |scope.pulled| {
          assert scope.pulled[a] in scope.pulled;
        }
      }
    }
  }

  lemma PullInOrder(wanted: set<Table>, fks: seq<ForeignKey>, pulled: seq<Table>, i: nat)
    requires PulledInOrder(pulled, wanted, fks) && i < |fks| && (fks[i].parent in wanted || fks[i].parent in pulled)
    ensures PulledInOrder(pulled + [fks[i].child], wanted, fks)
  {
    var next := pulled + [fks[i].child];
    forall k | 0 <= k < |next|
      ensures exists j :: 0 <= j < |fks| && fks[j].child == next[k] && (fks[j].parent in wanted || fks[j].parent in next[..k])
    {
      if k < |pulled| {
        assert next[..k] == pulled[..k];
        assert next[k] == pulled[k];
      } else {
        assert next[..k] == pulled;
      }
    }
  }

  lemma Refused(wanted: set<Table>, fks: seq<ForeignKey>, kept: set<Table>, e: Refusal)
    requires e.child in kept && e.child !in wanted && ForeignKey(e.child, e.parent) in fks
    requires Dependent(wanted, fks, e.parent)
    ensures ReachesProtected(wanted, fks, kept)
  {
    ChildIsDependent(wanted, fks, ForeignKey(e.child, e.parent));
  }

  lemma Accepted(wanted: set<Table>, fks: seq<ForeignKey>, kept: set<Table>, scope: Scope)
    requires Grown(scope, wanted, fks, kept) && Closed(scope.tables, fks)
    ensures forall t :: t in scope.tables <==> Dependent(wanted, fks, t)
    ensures IsLeastClosed(scope.tables, wanted, fks)
    ensures !ReachesProtected(wanted, fks, kept)
    ensures Distinct(scope.pulled) && forall t :: t in scope.pulled <==> t in scope.tables - wanted
  {
    forall t | Dependent(wanted, fks, t) ensures t in scope.tables {
      DependentStaysInside(wanted, scope.tables, fks, t);
    }
    forall other: set<Table> | wanted <= other && Closed(other, fks) ensures scope.tables <= other {
      forall t | t in scope.tables ensures t in other {
        DependentStaysInside(wanted, other, fks, t);
      }
    }
    hide Dependent, Closed;
  }

  // ----- the order of the foreign keys

  /** What Close promises about the decision and the final set. */
  ghost predicate Outcome(wanted: set<Table>, fks: seq<ForeignKey>, kept: set<Table>, r: Result<Scope, Refusal>)
  {
    && (r.Ok? <==> !ReachesProtected(wanted, fks, kept))
    && (r.Ok? ==> forall t :: t in r.value.tables <==> Dependent(wanted, fks, t))
  }

  lemma SameDependents(wanted: set<Table>, a: seq<ForeignKey>, b: seq<ForeignKey>, t: Table)
    requires forall fk :: fk in a ==> fk in b
    requires Dependent(wanted, a, t)
    ensures Dependent(wanted, b, t)
  {
    var path :| Leads(path, wanted, a, t);
    assert Leads(path, wanted, b, t);
  }

  /** Neither the decision nor the set of tables depends on the order in which the foreign keys are listed. */
  lemma OrderDoesNotMatter(wanted: set<Table>, a: seq<ForeignKey>, b: seq<ForeignKey>, kept: set<Table>,
                           ra: Result<Scope, Refusal>, rb: Result<Scope, Refusal>)
    requires forall fk :: fk in a <==> fk in b
    requires Outcome(wanted, a, kept, ra) && Outcome(wanted, b, kept, rb)
    ensures ra.Ok? <==> rb.Ok?
    ensures ra.Ok? && rb.Ok? ==> ra.value.tables == rb.value.tables
  {
    forall t ensures Dependent(wanted, a, t) <==> Dependent(wanted, b, t) {
      if Dependent(wanted, a, t) { SameDependents(wanted, a, b, t); }
      if Dependent(wanted, b, t) { SameDependents(wanted, b, a, t); }
    }
    hide Dependent;
  }
}
